/** Bringing one organization's mesh in line with ionscale (ionscale/reconcile.py and `sync` of
    ionscale/manager.py): what a run does to the server and to the layer rows. */
module Reconcile {
  import opened Rows
  import opened Texts
  import opened Tailnets
  import Organizations

  /** A layer of any kind; those of the mesh name a tailnet. */
  datatype Layer = Layer(organization: int, tailnetName: Option<string>, identifier: string)

  /** The server and lok's layer rows. */
  datatype World = World(server: Server, layers: map<int, Layer>)

  datatype Warning = NotCreated | NotRenamed | LayerNameTaken | NoExternalIds

  datatype Report = Report(
    created: bool,
    renamedFrom: Option<string>,
    synced: bool,
    revoked: seq<string>,
    warnings: seq<Warning>)
  {
    predicate Changed() { created || renamedFrom.Some? || revoked != [] }
  }

  /** Identifiers are unique over layers of every kind, tailnet names over those of the mesh. */
  ghost predicate LayersOk(layers: map<int, Layer>) {
    && (forall a, b | a in layers && b in layers && layers[a].identifier == layers[b].identifier :: a == b)
    && (forall a, b | a in layers && b in layers && layers[a].tailnetName.Some? ::
          layers[a].tailnetName == layers[b].tailnetName ==> a == b)
  }

  /** `desired_tailnet_name` */
  function Wanted(organization: int): (name: string)
    ensures name != ""
  {
    Str(organization)
  }

  // --- the tailnet --------------------------------------------------------------------------

  /** The server after the organization's tailnet was created or renamed, the tailnet, and what
      is reported. */
  datatype Settling = Settling(server: Server, tailnet: Option<int>, report: Report)

  const NOTHING := Report(false, None, false, [], [])

  /** It exists: created when missing, refused when another tailnet has the name. */
  ghost function Ensured(s: Server, organization: int): Settling {
    var found := ByOrganization(s, Str(organization));
    if found.Some? then Settling(s, found, NOTHING)
    else
      var (s', answer) := Create(s, Wanted(organization), Some(Str(organization)));
      if answer.Ok? then Settling(s', Some(answer.id), NOTHING.(created := true))
      else Settling(s', ByOrganization(s', Str(organization)), NOTHING.(created := true, warnings := [NotCreated]))
  }

  /** It is named after the organization, unless the name is taken. */
  ghost function Renamed(e: Settling, organization: int): Settling
    requires e.tailnet.Some? ==> e.tailnet.value in e.server.tailnets
  {
    if e.tailnet.None? || e.server.tailnets[e.tailnet.value].name == Wanted(organization) then e
    else
      var name := e.server.tailnets[e.tailnet.value].name;
      var (s', answer) := Fresh(e.server, name, Update(Some(Wanted(organization))));
      var report := e.report.(renamedFrom := Some(name));
      if answer.Error? then Settling(s', e.tailnet, report.(warnings := report.warnings + [NotRenamed]))
      else Settling(s', Some(answer.id), report)
  }

  /** What a dry run reports. */
  ghost function DryReport(s: Server, organization: int): Report {
    var found := ByOrganization(s, Str(organization));
    if found.None? then NOTHING.(created := true)
    else if s.tailnets[found.value].name != Wanted(organization)
    then NOTHING.(renamedFrom := Some(s.tailnets[found.value].name))
    else NOTHING
  }

  // --- the layer row ------------------------------------------------------------------------

  /** No other layer has the name, be it as its identifier or as its tailnet's. */
  predicate LayerFree(layers: map<int, Layer>, l: int, name: string) {
    forall other | other in layers && other != l ::
      layers[other].identifier != name && layers[other].tailnetName != Some(name)
  }

  function Followed(layers: map<int, Layer>, l: int, name: string): map<int, Layer>
    requires l in layers
  {
    if LayerFree(layers, l, name)
    then layers[l := layers[l].(tailnetName := Some(name), identifier := name)]
    else layers
  }

  predicate Follows(layer: Layer, name: string) { layer.tailnetName == Some(name) && layer.identifier == name }

  // --- members ------------------------------------------------------------------------------

  function FullMembersBelow(org: Org, n: nat): seq<string> {
    if n == 0 then []
    else
      FullMembersBelow(org, n - 1) +
      if n - 1 in org.members && !org.members[n - 1].Scoped() then [Str(org.members[n - 1].user)] else []
  }

  /** The user ids of the full members, by membership id. */
  function FullMembers(org: Org): seq<string> {
    if org.nextMember < 0 then [] else FullMembersBelow(org, org.nextMember)
  }

  ghost predicate IsFullMember(org: Org, id: MemberId, u: UserId) {
    id in org.members && org.members[id].user == u && !org.members[id].Scoped()
  }

  lemma {:induction false} FullMembersBelowAre(org: Org, n: nat, u: UserId)
    ensures Str(u) in FullMembersBelow(org, n) <==> exists id :: 0 <= id < n && IsFullMember(org, id, u)
  {
    if n > 0 {
      FullMembersBelowAre(org, n - 1, u);
      if n - 1 in org.members && Str(org.members[n - 1].user) == Str(u) { StrInjective(org.members[n - 1].user, u); }
      assert IsFullMember(org, n - 1, u) ==> exists id :: 0 <= id < n && IsFullMember(org, id, u);
    }
  }

  /** Exactly the users with a membership that has no grants are listed. */
  lemma FullMembersAre(org: Org, u: UserId)
    requires Organizations.OrgOk(org)
    ensures Str(u) in FullMembers(org) <==> exists id :: IsFullMember(org, id, u)
  {
    FullMembersBelowAre(org, org.nextMember, u);
  }

  /** `sync`: lok owns `subs` and nothing else of the policy. */
  function SyncedPolicy(policy: Policy, members: seq<string>): Policy { (policy - {"subs"})["subs" := List(members)] }

  ghost function Synced(s: Server, name: string, members: seq<string>): Server {
    var (_, answer) := Fresh(s, name, Read);
    Fresh(s, name, PutPolicy(SyncedPolicy(if answer.Ok? then answer.tailnet.policy else map[], members))).0
  }

  function Kept(users: seq<User>, gone: set<string>): seq<User> {
    if users == [] then []
    else
      var goes := users[0].externalId.Some? && users[0].externalId.value in gone;
      (if goes then [] else [users[0]]) + Kept(users[1..], gone)
  }

  /** `revoke_account`: the user goes from every tailnet bound to the organization. */
  function AccountRevoked(s: Server, externalId: string, organization: string): Server {
    s.(tailnets := map id | id in s.tailnets ::
      if s.tailnets[id].organization == Some(organization)
      then s.tailnets[id].(users := Kept(s.tailnets[id].users, {externalId}))
      else s.tailnets[id])
  }

  /** The users before the first one without an external id. */
  function Known(users: seq<User>): (known: seq<User>)
    ensures forall u :: u in known ==> u in users && u.externalId.Some?
  {
    if users == [] || users[0].externalId.None? then [] else [users[0]] + Known(users[1..])
  }

  predicate AllKnown(users: seq<User>) { forall u :: u in users ==> u.externalId.Some? }

  /** The accounts the loop revokes, in order. */
  function Orphans(users: seq<User>, members: seq<string>): seq<string>
    requires forall u :: u in users ==> u.externalId.Some?
  {
    if users == [] then []
    else
      var externalId := users[0].externalId.value;
      (if externalId in members then [] else [externalId]) + Orphans(users[1..], members)
  }

  function OnlyMembers(users: seq<User>, members: seq<string>): seq<User> {
    if users == [] then []
    else
      var stays := users[0].externalId.Some? && users[0].externalId.value in members;
      (if stays then [users[0]] else []) + OnlyMembers(users[1..], members)
  }

  function ToSet(items: seq<string>): set<string> { set i | i in items }

  ghost function Revoked(s: Server, id: int, members: seq<string>): Server
    requires id in s.tailnets
  {
    var users := s.tailnets[id].users;
    With(s, id, s.tailnets[id].(users := Kept(users, ToSet(Orphans(Known(users), members)))))
  }

  // --- a whole run --------------------------------------------------------------------------

  ghost function Settled(s: Server, organization: int): (e: Settling)
    requires ServerOk(s)
    ensures e.tailnet.Some? ==> e.tailnet.value in e.server.tailnets
  {
    Renamed(Ensured(s, organization), organization)
  }

  /** The second half of a run: the layer row, the members and the orphans of the tailnet. */
  ghost function Pushed(w: World, l: int, id: int, before: Report, members: seq<string>, revokeOrphans: bool): (World,
                        Report)
    requires l in w.layers && id in w.server.tailnets
  {
    var name := w.server.tailnets[id].name;
    var follows := Follows(w.layers[l], name);
    var layers := if follows then w.layers else Followed(w.layers, l, name);
    var warnings := before.warnings + if follows || LayerFree(w.layers, l, name) then [] else [LayerNameTaken];
    var s1 := Synced(w.server, name, members);
    var report := before.(synced := true, warnings := warnings);
    if !revokeOrphans || id !in s1.tailnets then (World(s1, layers), report)
    else
      var users := s1.tailnets[id].users;
      (World(Revoked(s1, id, members), layers),
       report.(
         revoked := Orphans(Known(users), members),
         warnings := warnings + if AllKnown(users) then [] else [NoExternalIds]))
  }

  /** `reconcile_layer`, not dry. */
  ghost function Reconciled(w: World, l: int, members: seq<string>, revokeOrphans: bool): (World, Report)
    requires ServerOk(w.server) && l in w.layers
  {
    var e := Settled(w.server, w.layers[l].organization);
    if e.tailnet.None? then (World(e.server, w.layers), e.report)
    else Pushed(World(e.server, w.layers), l, e.tailnet.value, e.report, members, revokeOrphans)
  }

  // --- what settling the tailnet does -------------------------------------------------------

  /** No other tailnet bears the name the organization's is to have. */
  predicate NameFree(s: Server, organization: int) {
    forall id :: id in s.tailnets && s.tailnets[id].name == Wanted(organization) ==>
        s.tailnets[id].organization == Some(Str(organization))
  }

  /** What was there before under this organization: its policy and users, or nothing. */
  ghost function Before(s: Server, organization: int): Tailnet {
    var found := ByOrganization(s, Str(organization));
    if found.Some? then s.tailnets[found.value] else Tailnet(Wanted(organization), Some(Str(organization)), map[], [])
  }

  /** Settling succeeds without a warning exactly when the name is free; then the organization has
      its tailnet, rightly named, with the policy and the users it had, and no other changed. */
  lemma SettledOutcome(s: Server, organization: int)
    requires ServerOk(s)
    ensures var e := Settled(s, organization);
            && ServerOk(e.server)
            && (e.report.warnings == [] <==> NameFree(s, organization))
            && e.report.(warnings := []) == DryReport(s, organization)
            && (NameFree(s, organization) ==> e.tailnet.Some?)
            && (e.tailnet.Some? ==> BoundTo(e.server, e.tailnet.value, Str(organization)))
            && (forall id :: e.tailnet != Some(id) ==> (id in s.tailnets <==> id in e.server.tailnets))
            && (forall id :: e.tailnet != Some(id) && id in s.tailnets ==> e.server.tailnets[id] == s.tailnets[id])
            && (e.tailnet.Some? && NameFree(s, organization) ==>
              e.server.tailnets[e.tailnet.value] == Before(s, organization).(name := Wanted(organization)))
  {
    var found := ByOrganization(s, Str(organization));
    if found.Some? {
      RenameOutcome(s, organization, found.value);
    } else {
      assert NameFree(s, organization) <==> MayCreate(s, Wanted(organization), Some(Str(organization))) by {
        forall id | id in s.tailnets ensures s.tailnets[id].organization != Some(Str(organization)) {
          assert !BoundTo(s, id, Str(organization));
        }
      }
    }
  }

  lemma RenameOutcome(s: Server, organization: int, id: int)
    requires ServerOk(s) && BoundTo(s, id, Str(organization))
    ensures ByOrganization(s, Str(organization)) == Some(id)
    ensures NameFree(s, organization) <==> !NameTaken(s, id, Wanted(organization))
    ensures s.tailnets[id].name != Wanted(organization) ==>
              Fresh(s, s.tailnets[id].name, Update(Some(Wanted(organization)))) ==
                Perform(s, id, Update(Some(Wanted(organization))))
    ensures s.tailnets[id].name == Wanted(organization) ==> NameFree(s, organization)
  {
    assert Bears(s, id, s.tailnets[id].name);
  }

  // --- convergence --------------------------------------------------------------------------

  lemma SyncedOutcome(s: Server, id: int, members: seq<string>)
    requires ServerOk(s) && id in s.tailnets
    ensures Synced(s, s.tailnets[id].name, members) ==
            With(s, id, s.tailnets[id].(policy := SyncedPolicy(s.tailnets[id].policy, members)))
  {
    assert Bears(s, id, s.tailnets[id].name);
  }

  /** The world a run without warnings leaves. */
  ghost function Converged(w: World, l: int, members: seq<string>, revokeOrphans: bool): World
    requires ServerOk(w.server) && l in w.layers
  {
    var organization := w.layers[l].organization;
    var name, before, e := Wanted(organization), Before(w.server, organization), Settled(w.server, organization);
    var users := if revokeOrphans then OnlyMembers(before.users, members) else before.users;
    var id := if e.tailnet.Some? then e.tailnet.value else 0;
    World(With(e.server, id, Tailnet(name, Some(Str(organization)), SyncedPolicy(before.policy, members), users)),
          w.layers[l := Layer(organization, Some(name), name)])
  }

  /** A run ends without warnings exactly when the name is free on the server and among the layers
      and, to revoke orphans, every user of the tailnet has an external id. */
  ghost predicate Clean(w: World, l: int, revokeOrphans: bool)
    requires l in w.layers
  {
    var organization := w.layers[l].organization;
    && NameFree(w.server, organization) && LayerFree(w.layers, l, Wanted(organization))
    && (revokeOrphans ==> AllKnown(Before(w.server, organization).users))
  }

  lemma CleanExactlyWhen(w: World, l: int, members: seq<string>, revokeOrphans: bool)
    requires ServerOk(w.server) && LayersOk(w.layers) && l in w.layers
    ensures Reconciled(w, l, members, revokeOrphans).1.warnings == [] <==> Clean(w, l, revokeOrphans)
    ensures Clean(w, l, revokeOrphans) <==>
      var name := Str(w.layers[l].organization);
      && (forall id :: id in w.server.tailnets && w.server.tailnets[id].name == name ==>
            w.server.tailnets[id].organization == Some(name))
      && (forall other :: other in w.layers && other != l ==>
            w.layers[other].identifier != name && w.layers[other].tailnetName != Some(name))
      && (revokeOrphans ==>
            forall id, u | id in w.server.tailnets && u in w.server.tailnets[id].users ::
              w.server.tailnets[id].organization == Some(name) ==> u.externalId.Some?)
  {
    forall id | id in w.server.tailnets && w.server.tailnets[id].organization == Some(Str(w.layers[l].organization))
      ensures BoundTo(w.server, id, Str(w.layers[l].organization)) {}
    var organization := w.layers[l].organization;
    SettledOutcome(w.server, organization);
    var e := Settled(w.server, organization);
    if e.tailnet.Some? {
      SyncedOutcome(e.server, e.tailnet.value, members);
    }
  }

  /** Then the tailnet exists, bound to and named after the organization; the layer names it; its
      `subs` are exactly the full members and every other policy key is as it was; users who are no
      members are gone when asked for; and nothing else changed. */
  lemma Converges(w: World, l: int, members: seq<string>, revokeOrphans: bool)
    requires ServerOk(w.server) && LayersOk(w.layers) && l in w.layers && Clean(w, l, revokeOrphans)
    ensures Reconciled(w, l, members, revokeOrphans).0 == Converged(w, l, members, revokeOrphans)
  {
    var organization := w.layers[l].organization;
    SettledOutcome(w.server, organization);
    var e := Settled(w.server, organization);
    var id := e.tailnet.value;
    SyncedOutcome(e.server, id, members);
    var row := e.server.tailnets[id].(policy := SyncedPolicy(e.server.tailnets[id].policy, members));
    if revokeOrphans {
      OrphansGone(row.users, members);
      WithTwice(e.server, id, row, row.(users := OnlyMembers(row.users, members)));
    }
    LayerFollows(w.layers, l, Wanted(organization));
  }

  lemma WithTwice(s: Server, id: int, a: Tailnet, b: Tailnet)
    ensures With(With(s, id, a), id, b) == With(s, id, b)
  {
  }

  lemma LayerFollows(layers: map<int, Layer>, l: int, name: string)
    requires l in layers && LayerFree(layers, l, name)
    ensures (if Follows(layers[l], name) then layers else Followed(layers, l, name)) ==
            layers[l := Layer(layers[l].organization, Some(name), name)]
  {
    assert Follows(layers[l], name) ==> layers[l := layers[l]] == layers;
  }

  /** The tailnet `id` is bound to and named after the organization, the layer names it, its `subs`
      are these members and its other policy keys as they were, who is no member is gone when
      asked for, and nothing else is changed. */
  ghost predicate IsInLine(w: World, w': World, l: int, id: int, members: seq<string>, revokeOrphans: bool)
    requires l in w.layers
  {
    var o := w.layers[l].organization;
    var before := Before(w.server, o);
    && BoundTo(w'.server, id, Str(o)) && Bears(w'.server, id, Str(o))
    && w'.layers == w.layers[l := Layer(o, Some(Str(o)), Str(o))]
    && OthersAsBefore(w.server, w'.server, id)
    && OnlySubsChanged(before.policy, w'.server.tailnets[id].policy, members)
    && w'.server.tailnets[id].users == if revokeOrphans then OnlyMembers(before.users, members) else before.users
  }

  ghost predicate OthersAsBefore(s: Server, s': Server, id: int) {
    && s'.tailnets.Keys == s.tailnets.Keys + {id}
    && forall other :: other in s.tailnets && other != id ==> s'.tailnets[other] == s.tailnets[other]
  }

  /** The same said of the world itself, without naming the steps. */
  lemma RunIsInLine(w: World, l: int, members: seq<string>, revokeOrphans: bool) returns (id: int)
    requires ServerOk(w.server) && LayersOk(w.layers) && l in w.layers && Clean(w, l, revokeOrphans)
    ensures IsInLine(w, Reconciled(w, l, members, revokeOrphans).0, l, id, members, revokeOrphans)
  {
    Converges(w, l, members, revokeOrphans);
    id := ConvergedIsInLine(w, l, members, revokeOrphans);
  }

  lemma ConvergedIsInLine(w: World, l: int, members: seq<string>, revokeOrphans: bool) returns (id: int)
    requires ServerOk(w.server) && LayersOk(w.layers) && l in w.layers && Clean(w, l, revokeOrphans)
    ensures IsInLine(w, Converged(w, l, members, revokeOrphans), l, id, members, revokeOrphans)
  {
    var o := w.layers[l].organization;
    SettledOutcome(w.server, o);
    OnlySubs(Before(w.server, o).policy, members);
    id := Settled(w.server, o).tailnet.value;
    var row := Converged(w, l, members, revokeOrphans).server.tailnets[id];
    WrittenAlone(w.server, Settled(w.server, o).server, id, row);
  }

  lemma WrittenAlone(s: Server, s1: Server, id: int, row: Tailnet)
    requires id in s1.tailnets && forall other :: other != id ==> (other in s.tailnets <==> other in s1.tailnets)
    requires forall other :: other != id && other in s.tailnets ==> s1.tailnets[other] == s.tailnets[other]
    ensures OthersAsBefore(s, With(s1, id, row), id)
  {
    forall x ensures x in With(s1, id, row).tailnets <==> x in s.tailnets.Keys + {id} {}
  }

  lemma OnlySubs(policy: Policy, members: seq<string>)
    ensures OnlySubsChanged(policy, SyncedPolicy(policy, members), members)
  {
  }

  /** And of the organization: `subs` are exactly its full members, and whoever may stay on the
      tailnet is one. */
  lemma InLine(w: World, l: int, org: Org, revokeOrphans: bool) returns (id: int)
    requires ServerOk(w.server) && LayersOk(w.layers) && l in w.layers && Clean(w, l, revokeOrphans)
    requires Organizations.OrgOk(org)
    ensures IsInLine(w, Reconciled(w, l, FullMembers(org), revokeOrphans).0, l, id, FullMembers(org), revokeOrphans)
    ensures forall u :: Str(u) in FullMembers(org) <==> exists m :: IsFullMember(org, m, u)
  {
    id := RunIsInLine(w, l, FullMembers(org), revokeOrphans);
    forall u { FullMembersAre(org, u); }
  }

  /** The policy lists these as `subs`; every other key is as it was. */
  ghost predicate OnlySubsChanged(before: Policy, after: Policy, members: seq<string>) {
    && (forall k :: k in after <==> k == "subs" || k in before)
    && (forall k :: k in after ==> after[k] == if k == "subs" then List(members) else before[k])
  }

  lemma {:induction false} KnownAll(users: seq<User>)
    requires AllKnown(users)
    ensures Known(users) == users
  {
    if users != [] {
      assert users[0] in users && forall u :: u in users[1..] ==> u in users;
      KnownAll(users[1..]);
    }
  }

  lemma OrphansGone(users: seq<User>, members: seq<string>)
    requires AllKnown(users)
    ensures Known(users) == users && Kept(users, ToSet(Orphans(users, members))) == OnlyMembers(users, members)
  {
    KnownAll(users);
    OrphansAre(users, members);
    KeptAre(users, ToSet(Orphans(users, members)), members);
  }

  lemma {:induction false} OrphansAre(users: seq<User>, members: seq<string>)
    requires AllKnown(users)
    ensures forall e :: e in Orphans(users, members) ==> e !in members
    ensures forall u :: u in users && u.externalId.value !in members ==> u.externalId.value in Orphans(users, members)
  {
    if users != [] {
      assert users[0] in users && forall u :: u in users[1..] ==> u in users;
      OrphansAre(users[1..], members);
      assert forall u :: u in users ==> u == users[0] || u in users[1..];
    }
  }

  lemma {:induction false} KeptAre(users: seq<User>, gone: set<string>, members: seq<string>)
    requires AllKnown(users) && forall u :: u in users ==>
        (u.externalId.value in gone <==> u.externalId.value !in members)
    ensures Kept(users, gone) == OnlyMembers(users, members)
  {
    if users != [] {
      assert users[0] in users && forall u :: u in users[1..] ==> u in users;
      KeptAre(users[1..], gone, members);
    }
  }

  /** A second run right after one without warnings changes nothing, reports no change and no
      warnings. */
  lemma SecondRunIsQuiet(w: World, l: int, members: seq<string>, revokeOrphans: bool)
    requires ServerOk(w.server) && LayersOk(w.layers) && l in w.layers && Clean(w, l, revokeOrphans)
    ensures var w1 := Reconciled(w, l, members, revokeOrphans).0;
            && ServerOk(w1.server) && LayersOk(w1.layers) && l in w1.layers
            && var (w2, r2) := Reconciled(w1, l, members, revokeOrphans); w2 == w1 && !r2.Changed() && r2.warnings == []
  {
    var organization := w.layers[l].organization;
    SettledOutcome(w.server, organization);
    Converges(w, l, members, revokeOrphans);
    var e := Settled(w.server, organization);
    var w1, id := Reconciled(w, l, members, revokeOrphans).0, e.tailnet.value;
    var row := w1.server.tailnets[id];
    WithKeepsOk(e.server, id, row);
    assert LayersOk(w1.layers);
    if revokeOrphans { MembersOnly(Before(w.server, organization).users, members); }
    QuietRun(w1, l, id, members, revokeOrphans);
  }

  lemma WithKeepsOk(s: Server, id: int, row: Tailnet)
    requires ServerOk(s) && id in s.tailnets && row.name == s.tailnets[id].name
    requires row.organization == s.tailnets[id].organization
    ensures ServerOk(With(s, id, row))
  {
  }

  lemma {:induction false} MembersOnly(users: seq<User>, members: seq<string>)
    ensures var left := OnlyMembers(users, members);
            && AllKnown(left) && OnlyMembers(left, members) == left
            && forall u :: u in left ==> u.externalId.value in members
  {
    if users != [] {
      MembersOnly(users[1..], members);
      var rest := OnlyMembers(users[1..], members);
      if users[0].externalId.Some? && users[0].externalId.value in members {
        assert ([users[0]] + rest)[1..] == rest;
      } else {
        assert OnlyMembers(users, members) == rest;
      }
    }
  }

  lemma {:induction false} NoOrphans(users: seq<User>, members: seq<string>)
    requires AllKnown(users) && forall u :: u in users ==> u.externalId.value in members
    ensures Orphans(users, members) == []
  {
    if users != [] {
      assert users[0] in users && forall u :: u in users[1..] ==> u in users;
      NoOrphans(users[1..], members);
    }
  }

  /** A run in a world that is in line. */
  lemma QuietRun(w: World, l: int, id: int, members: seq<string>, revokeOrphans: bool)
    requires ServerOk(w.server) && LayersOk(w.layers) && l in w.layers
    requires var o := w.layers[l].organization;
             BoundTo(w.server, id, Str(o)) && Bears(w.server, id, Wanted(o)) && Follows(w.layers[l], Wanted(o))
    requires "subs" in w.server.tailnets[id].policy && w.server.tailnets[id].policy["subs"] == List(members)
    requires revokeOrphans ==> AllKnown(w.server.tailnets[id].users)
    requires revokeOrphans ==> forall u :: u in w.server.tailnets[id].users ==> u.externalId.value in members
    ensures var (w2, r2) := Reconciled(w, l, members, revokeOrphans); w2 == w && !r2.Changed() && r2.warnings == []
  {
    var o, row := w.layers[l].organization, w.server.tailnets[id];
    RenameOutcome(w.server, o, id);
    assert Settled(w.server, o) == Settling(w.server, Some(id), NOTHING);
    SyncedOutcome(w.server, id, members);
    assert SyncedPolicy(row.policy, members) == row.policy;
    assert With(w.server, id, row) == w.server;
    if revokeOrphans {
      NoOrphans(row.users, members);
      KnownAll(row.users);
      KeptAll(row.users);
      assert ToSet([]) == {};
    }
  }

  lemma {:induction false} KeptAll(users: seq<User>)
    ensures Kept(users, {}) == users
  {
    if users != [] { KeptAll(users[1..]); }
  }

  /** What a report says of the world before: created when the organization had no tailnet, renamed from
      a name that is not its id; and of a run, the accounts of non-members, in order, before the first
      user without an external id. */
  lemma ReportMeans(w: World, l: int, members: seq<string>, revokeOrphans: bool)
    requires ServerOk(w.server) && l in w.layers
    ensures var o, r := w.layers[l].organization, Reconciled(w, l, members, revokeOrphans).1;
            var there := w.server.tailnets;
            && (r.created <==> forall id :: id in there ==> there[id].organization != Some(Str(o)))
            && (forall id :: id in there && there[id].organization == Some(Str(o)) ==>
                  r.renamedFrom == if there[id].name == Str(o) then None else Some(there[id].name))
            && (r.created ==> r.renamedFrom == None)
            && (r.Changed() <==> r.created || r.renamedFrom != None || r.revoked != [])
            && (!revokeOrphans ==> r.revoked == [])
            && (forall e :: e in r.revoked ==> e !in members)
  {
    var o := w.layers[l].organization;
    SettledOutcome(w.server, o);
    DryReportMeans(w.server, o);
    var e := Settled(w.server, o);
    if e.tailnet.Some? {
      SyncedOutcome(e.server, e.tailnet.value, members);
      var users := e.server.tailnets[e.tailnet.value].users;
      NoMemberAmong(Known(users), members);
    }
  }

  lemma DryReportMeans(s: Server, o: int)
    requires ServerOk(s)
    ensures var r := DryReport(s, o);
            && (r.created <==> forall id :: id in s.tailnets ==> s.tailnets[id].organization != Some(Str(o)))
            && (forall id :: id in s.tailnets && s.tailnets[id].organization == Some(Str(o)) ==>
                  r.renamedFrom == if s.tailnets[id].name == Str(o) then None else Some(s.tailnets[id].name))
            && (r.created ==> r.renamedFrom == None) && r.revoked == [] && r.warnings == []
  {
    forall id | id in s.tailnets && s.tailnets[id].organization == Some(Str(o)) ensures BoundTo(s, id, Str(o)) {}
  }

  lemma NoMemberAmong(users: seq<User>, members: seq<string>)
    requires forall u :: u in users ==> u.externalId.Some?
    ensures forall e :: e in Orphans(users, members) ==> e !in members
  {
    OrphansAre(users, members);
  }

  lemma {:induction false} OnlyMembersAre(users: seq<User>, members: seq<string>)
    ensures forall u :: u in OnlyMembers(users, members) <==>
              u in users && u.externalId.Some? && u.externalId.value in members
  {
    if users != [] {
      OnlyMembersAre(users[1..], members);
      assert forall u :: u in users <==> u == users[0] || u in users[1..];
    }
  }

  /** A dry run reports the creation and the rename the real run makes. */
  lemma DryRunPredicts(w: World, l: int, members: seq<string>, revokeOrphans: bool)
    requires ServerOk(w.server) && l in w.layers
    ensures var dry, wet := DryReport(w.server, w.layers[l].organization), Reconciled(w, l, members, revokeOrphans).1;
            dry.created == wet.created && dry.renamedFrom == wet.renamedFrom
  {
    SettledOutcome(w.server, w.layers[l].organization);
  }

  // --- the loop over the tailnet's users ----------------------------------------------------

  lemma {:induction false} KeptTwice(users: seq<User>, a: set<string>, b: set<string>)
    ensures Kept(Kept(users, a), b) == Kept(users, a + b)
  {
    if users != [] {
      KeptTwice(users[1..], a, b);
      if !(users[0].externalId.Some? && users[0].externalId.value in a) {
        assert ([users[0]] + Kept(users[1..], a))[1..] == Kept(users[1..], a);
      } else {
        assert Kept(users, a) == Kept(users[1..], a);
      }
    }
  }

  lemma {:induction false} OrphansSnoc(users: seq<User>, u: User, members: seq<string>)
    requires AllKnown(users) && u.externalId.Some?
    ensures AllKnown(users + [u])
    ensures Orphans(users + [u], members) ==
            Orphans(users, members) + if u.externalId.value in members then [] else [u.externalId.value]
  {
    if users != [] {
      assert users[0] in users && forall v :: v in users[1..] ==> v in users;
      OrphansSnoc(users[1..], u, members);
      assert (users + [u])[1..] == users[1..] + [u];
    } else {
      assert [u] == users + [u] && [u][1..] == [];
    }
  }

  lemma {:induction false} KnownIsPrefix(users: seq<User>, i: nat)
    requires i < |users| && AllKnown(users[..i]) && users[i].externalId.None?
    ensures Known(users) == users[..i] && !AllKnown(users)
  {
    assert users[i] in users;
    if i > 0 {
      assert users[..i][0] == users[0] && users[..i][0] in users[..i];
      assert users[1..][..i - 1] == users[..i][1..];
      forall u | u in users[1..][..i - 1] ensures u in users[..i] {}
      KnownIsPrefix(users[1..], i - 1);
    }
  }

  /** One more account revoked on the organization's tailnet. */
  lemma OneMoreRevoked(s: Server, id: int, organization: string, users: seq<User>, gone: seq<string>,
                       externalId: string)
    requires ServerOk(s) && BoundTo(s, id, organization)
    ensures AccountRevoked(With(s, id, s.tailnets[id].(users := Kept(users, ToSet(gone)))), externalId, organization) ==
            With(s, id, s.tailnets[id].(users := Kept(users, ToSet(gone + [externalId]))))
  {
    KeptTwice(users, ToSet(gone), {externalId});
    forall other | other in s.tailnets && other != id ensures s.tailnets[other].organization != Some(organization) {}
    assert ToSet(gone + [externalId]) == ToSet(gone) + {externalId};
  }
}

/** The reconciler itself, on the caching client and the layer rows. */
module Reconciler {
  import opened Rows
  import opened Texts
  import opened Tailnets
  import TailnetCache
  import opened TailnetRepository
  import opened Reconcile

  class MeshReconciler {
    const repo: Repository
    var layers: map<int, Layer>

    constructor (repo: Repository, layers: map<int, Layer>)
      ensures this.repo == repo && this.layers == layers
    {
      this.repo, this.layers := repo, layers;
    }

    function World(): Reconcile.World
      reads this, repo
    {
      Reconcile.World(repo.server, layers)
    }

    ghost predicate Ready()
      reads repo
    {
      TailnetCache.CacheOk(repo.Value())
    }

    /** The tailnet, created when missing. */
    method EnsureTailnet(organization: int) returns (tailnet: Option<int>, report: Report)
      requires Ready()
      modifies repo
      ensures Ready() && Settling(repo.server, tailnet, report) == Ensured(old(repo.server), organization)
    {
      report := NOTHING;
      tailnet := repo.GetTailnetByOrganization(Str(organization));
      if tailnet.Some? { return; }
      report := report.(created := true);
      var answer := repo.CreateTailnetHere(Wanted(organization), Some(Str(organization)));
      if answer.Ok? { return Some(answer.id), report; }
      report := report.(warnings := report.warnings + [NotCreated]);
      tailnet := repo.GetTailnetByOrganization(Str(organization));
    }

    /** The tailnet's name, after the organization. */
    method RenameTailnet(organization: int, tailnet: int, before: Report) returns (report: Report)
      requires Ready() && tailnet in repo.server.tailnets
      modifies repo
      ensures Ready() && Settling(repo.server, Some(tailnet), report) ==
              Renamed(Settling(old(repo.server), Some(tailnet), before), organization)
      ensures tailnet in repo.server.tailnets
    {
      report := before;
      var name := repo.server.tailnets[tailnet].name;
      if name == Wanted(organization) { return; }
      report := report.(renamedFrom := Some(name));
      assert Bears(repo.server, tailnet, name);
      var answer := repo.UpdateTailnetHere(name, Some(Wanted(organization)));
      if answer.Error? { report := report.(warnings := report.warnings + [NotRenamed]); }
    }

    /** The layer row follows the tailnet's name, unless another layer has it. */
    method FollowName(l: int, name: string) returns (taken: bool)
      requires l in layers
      modifies this`layers
      ensures layers == if Follows(old(layers)[l], name) then old(layers) else Followed(old(layers), l, name)
      ensures taken <==> !Follows(old(layers)[l], name) && !LayerFree(old(layers), l, name)
    {
      if layers[l].tailnetName == Some(name) && layers[l].identifier == name { return false; }
      if exists other | other in layers && other != l ::
          layers[other].identifier == name || layers[other].tailnetName == Some(name)
      {
        return true;  // IntegrityError
      }
      layers := layers[l := layers[l].(tailnetName := Some(name), identifier := name)];
      return false;
    }

    /** `sync` */
    method Sync(name: string, members: seq<string>)
      requires Ready()
      modifies repo
      ensures Ready() && repo.server == Synced(old(repo.server), name, members)
    {
      var current := repo.CallByName(name, Read);
      var policy := if current.Ok? then current.tailnet.policy else map[];
      policy := map k | k in policy && k != "subs" :: policy[k];
      policy := policy["subs" := List(members)];
      assert policy == SyncedPolicy(if current.Ok? then current.tailnet.policy else map[], members);
      var answer := repo.CallByName(name, PutPolicy(policy));
    }

    /** `revoke_account` of the client */
    method RevokeAccount(externalId: string, organization: string)
      requires Ready()
      modifies repo
      ensures Ready() && repo.server == AccountRevoked(old(repo.server), externalId, organization)
      ensures repo.tailnetIds == old(repo.tailnetIds)
    {
      repo.server := AccountRevoked(repo.server, externalId, organization);
    }

    /** Users who are no full members lose their account; without external ids the loop stops. */
    method RevokeOrphans(organization: int, id: int, members: seq<string>) returns (revoked: seq<string>, stopped: bool)
      requires Ready() && BoundTo(repo.server, id, Str(organization))
      modifies repo
      ensures Ready() && repo.server == Revoked(old(repo.server), id, members)
      ensures var users := old(repo.server).tailnets[id].users;
              revoked == Orphans(Known(users), members) && (stopped <==> !AllKnown(users))
    {
      ghost var s := repo.server;
      var users := repo.server.tailnets[id].users;
      revoked, stopped := [], false;
      NobodyRevoked(s, id);
      for i := 0 to |users|
        invariant Ready() && AllKnown(users[..i]) && revoked == Orphans(users[..i], members)
        invariant repo.server == With(s, id, s.tailnets[id].(users := Kept(users, ToSet(revoked))))
      {
        if users[i].externalId.None? {
          KnownIsPrefix(users, i);
          return revoked, true;
        }
        OrphansSnoc(users[..i], users[i], members);
        assert users[..i + 1] == users[..i] + [users[i]];
        if users[i].externalId.value !in members {
          OneMoreRevoked(s, id, Str(organization), users, revoked, users[i].externalId.value);
          RevokeAccount(users[i].externalId.value, Str(organization));
          revoked := revoked + [users[i].externalId.value];
        }
      }
      assert users[..|users|] == users;
      KnownAll(users);
    }

    /** `reconcile_layer` */
    method ReconcileLayer(l: int, org: Org, dryRun: bool, revokeOrphans: bool) returns (report: Report)
      requires Ready() && l in layers
      modifies this, repo
      ensures Ready()
      ensures dryRun ==> World() == old(World()) && report == DryReport(old(repo.server), old(layers)[l].organization)
      ensures !dryRun ==> (World(), report) == Reconciled(old(World()), l, FullMembers(org), revokeOrphans)
    {
      var organization := layers[l].organization;
      if dryRun {
        report := Predict(organization);
        return;
      }
      var tailnet;
      tailnet, report := EnsureTailnet(organization);
      SettledOutcome(old(repo.server), organization);
      if tailnet.None? { return; }
      report := RenameTailnet(organization, tailnet.value, report);
      var members := ListFullMembers(org);
      report := Push(l, tailnet.value, report, members, revokeOrphans);
    }

    /** The query of `sync`, in the order of the memberships' ids. */
    method ListFullMembers(org: Org) returns (members: seq<string>)
      ensures members == FullMembers(org)
    {
      members := [];
      if org.nextMember < 0 { return; }
      for n := 0 to org.nextMember
        invariant members == FullMembersBelow(org, n)
      {
        if n in org.members && !org.members[n].Scoped() { members := members + [Str(org.members[n].user)]; }
      }
    }

    method Push(l: int, id: int, before: Report, members: seq<string>, revokeOrphans: bool) returns (report: Report)
      requires Ready() && l in layers && BoundTo(repo.server, id, Str(layers[l].organization))
      modifies this, repo
      ensures Ready() && (World(), report) == Pushed(old(World()), l, id, before, members, revokeOrphans)
    {
      var organization, name := layers[l].organization, repo.server.tailnets[id].name;
      SyncedOutcome(repo.server, id, members);
      var taken := FollowName(l, name);
      report := if taken then before.(warnings := before.warnings + [LayerNameTaken]) else before;
      assert report.warnings + [] == report.warnings && before.warnings + [] == before.warnings;
      Sync(name, members);
      report := report.(synced := true);
      if revokeOrphans {
        var revoked, stopped := RevokeOrphans(organization, id, members);
        report := report.(revoked := revoked);
        if stopped { report := report.(warnings := report.warnings + [NoExternalIds]); }
      }
    }

    /** The dry run: it looks and reports. */
    method Predict(organization: int) returns (report: Report)
      requires Ready()
      modifies repo`tailnetIds
      ensures Ready() && report == DryReport(repo.server, organization)
    {
      report := NOTHING;
      var tailnet := repo.GetTailnetByOrganization(Str(organization));
      if tailnet.None? { return report.(created := true); }
      var name := repo.server.tailnets[tailnet.value].name;
      if name != Wanted(organization) { report := report.(renamedFrom := Some(name)); }
    }
  }

  lemma NobodyRevoked(s: Server, id: int)
    requires id in s.tailnets
    ensures With(s, id, s.tailnets[id].(users := Kept(s.tailnets[id].users, ToSet([])))) == s
  {
    KeptAll(s.tailnets[id].users);
    assert ToSet([]) == {};
  }
}
