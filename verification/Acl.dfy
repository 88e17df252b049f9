/** The traffic policy of an organization's mesh (ionscale/acl.py): an allow-list rebuilt from
    the database. */
module Acl {
  import opened Rows
  import opened Texts
  import opened LiveGrants

  /** An app installation's standing on the mesh. */
  datatype Enrollment = Enrollment(membership: MemberId, app: int, device: Option<int>, hasKey: bool)

  /** A client of an app; `live` is whether it has a live session. */
  datatype Client = Client(membership: MemberId, app: int, device: Option<int>, hub: Option<int>, live: bool)

  datatype Mesh = Mesh(orgId: int, org: Org, setting: Setting, enrollments: map<int, Enrollment>, clients: set<Client>)

  /** An accept entry. Its sources and destinations are sorted lists of a set. */
  datatype Entry = Accept(src: set<string>, dst: set<string>)

  const APP_TAG_PREFIX := "tag:app-"
  const HUB_TAG_PREFIX := "tag:hub-"

  function AppTag(e: int): string { APP_TAG_PREFIX + Str(e) }
  function HubTag(h: int): string { HUB_TAG_PREFIX + Str(h) }
  function MeshTag(o: int): string { "tag:mesh-" + Str(o) }
  function AnyPort(tag: string): string { tag + ":*" }

  /** The policy lets `from` open a connection to `to`. */
  ghost predicate Allows(acls: seq<Entry>, from: string, to: string) {
    exists e :: e in acls && from in e.src && AnyPort(to) in e.dst
  }

  /** A live client of the same membership, app and device is bound to the hub. */
  predicate Bound(w: Mesh, e: Enrollment, h: int) {
    exists c ::
      && c in w.clients && c.membership == e.membership && c.app == e.app && c.device == e.device
      && c.hub == Some(h) && c.live
  }

  predicate Guest(w: Mesh, id: MemberId) { id in w.org.members && w.org.members[id].Scoped() }

  /** A guest reaches only the hubs of their live mesh grants. */
  predicate WithinGrants(w: Mesh, id: MemberId, h: int) {
    Guest(w, id) ==> h in MeshHubs(w.org, w.setting, w.org.members[id])
  }

  /** What the enrollment is meant to reach. */
  predicate MayReach(w: Mesh, pk: int, h: int) {
    && pk in w.enrollments && w.enrollments[pk].hasKey && Bound(w, w.enrollments[pk], h)
    && WithinGrants(w, w.enrollments[pk].membership, h)
  }

  /** By the rows: the enrollment has a key; a live client of its membership, app and device is bound to
      the hub; and a guest has a live grant with the mesh on an instance of that hub. */
  lemma MayReachExactlyWhen(w: Mesh, pk: int, h: int)
    ensures MayReach(w, pk, h) <==>
      && pk in w.enrollments && var e := w.enrollments[pk];
      && e.hasKey
      && (exists c :: c in w.clients && c == Client(e.membership, e.app, e.device, Some(h), true))
      && (e.membership in w.org.members && w.org.members[e.membership].grants != map[] ==>
            var m := w.org.members[e.membership];
            exists k :: k in m.grants && LiveRow(w.org, w.setting, m.grants[k]) && m.grants[k].mesh
                        && k.instance in w.setting.hubs && w.setting.hubs[k.instance] == h)
  {
    if pk in w.enrollments && w.enrollments[pk].membership in w.org.members {
      MeshHubsExactly(w.org, w.setting, w.org.members[w.enrollments[pk].membership], h);
    }
  }

  function TagsReaching(w: Mesh, pks: set<int>, h: int): set<string> {
    set pk | pk in pks && MayReach(w, pk, h) :: AppTag(pk)
  }

  type Reach = map<int, set<string>>

  ghost predicate ReachIs(w: Mesh, reach: Reach, pks: set<int>) {
    && (forall h :: h in reach ==> reach[h] == TagsReaching(w, pks, h))
    && (forall pk, h :: pk in pks && MayReach(w, pk, h) ==> h in reach)
  }

  method BoundHubs(w: Mesh, e: Enrollment) returns (hubs: set<int>)
    ensures forall h :: h in hubs <==> Bound(w, e, h) && WithinGrants(w, e.membership, h)
  {
    var clients := set c |
        c in w.clients && c.membership == e.membership && c.app == e.app && c.device == e.device && c.hub.Some?;
    hubs := set c | c in clients && c.live :: c.hub.value;
    if Guest(w, e.membership) {
      hubs := hubs * MeshHubs(w.org, w.setting, w.org.members[e.membership]);
    }
  }

  /** The hubs gain the tag. */
  function Tagged(reach: Reach, hubs: set<int>, tag: string): Reach {
    map h | h in reach.Keys + hubs :: (if h in reach then reach[h] else {}) + (if h in hubs then {tag} else {})
  }

  lemma TaggedNothing(reach: Reach, hubs: set<int>, tag: string)
    requires hubs == {}
    ensures Tagged(reach, hubs, tag) == reach
  {
    forall h | h in reach ensures reach[h] + {} == reach[h] {}
    assert reach.Keys + hubs == reach.Keys;
  }

  lemma TaggedOneMore(reach: Reach, hubs: set<int>, h: int, tag: string)
    ensures var one := Tagged(reach, hubs, tag);
            Tagged(reach, hubs + {h}, tag) == one[h := (if h in one then one[h] else {}) + {tag}]
  {
    var one := Tagged(reach, hubs, tag);
    var there := if h in one then one[h] else {};
    assert there + {tag} == (if h in reach then reach[h] else {}) + {tag};
    assert Tagged(reach, hubs + {h}, tag) == one[h := there + {tag}];
  }

  /** `reach.setdefault(hub_id, set()).add(enrollment.tag)` for each of the hubs. */
  method AddTag(reach: Reach, hubs: set<int>, tag: string) returns (out: Reach)
    ensures out == Tagged(reach, hubs, tag)
  {
    out := reach;
    var todo := hubs;
    TaggedNothing(reach, hubs - hubs, tag);
    while todo != {}
      invariant todo <= hubs && out == Tagged(reach, hubs - todo, tag)
      decreases |todo|
    {
      var h := Pick(todo);
      OneLess(hubs, todo, h);
      TaggedOneMore(reach, hubs - todo, h, tag);
      out := out[h := (if h in out then out[h] else {}) + {tag}];
      todo := todo - {h};
    }
    assert hubs - {} == hubs;
  }

  /** Which app tags reach which hub. */
  method BuildReach(w: Mesh) returns (reach: Reach)
    ensures ReachIs(w, reach, w.enrollments.Keys)
  {
    reach := map[];
    var todo := set pk | pk in w.enrollments && w.enrollments[pk].hasKey;
    ghost var done := w.enrollments.Keys - todo;
    while todo != {}
      invariant forall pk :: pk in todo ==> pk in w.enrollments && w.enrollments[pk].hasKey
      invariant done == w.enrollments.Keys - todo && ReachIs(w, reach, done)
      decreases |todo|
    {
      var pk := Pick(todo);
      var hubs := BoundHubs(w, w.enrollments[pk]);
      ghost var before := reach;
      reach := AddTag(reach, hubs, AppTag(pk));
      OneMoreEnrollment(w, before, done, pk, hubs, reach);
      todo, done := todo - {pk}, done + {pk};
    }
    assert done == w.enrollments.Keys;
  }

  lemma OneMoreEnrollment(w: Mesh, before: Reach, done: set<int>, pk: int, hubs: set<int>, after: Reach)
    requires ReachIs(w, before, done) && pk !in done
    requires forall h :: h in hubs <==> MayReach(w, pk, h)
    requires after == Tagged(before, hubs, AppTag(pk))
    ensures ReachIs(w, after, done + {pk})
  {
    forall h ensures TagsReaching(w, done + {pk}, h) ==
      TagsReaching(w, done, h) + if MayReach(w, pk, h) then {AppTag(pk)} else {} {}
    forall h | h in after && h !in before ensures TagsReaching(w, done, h) == {} {
      assert forall p :: p in done ==> !MayReach(w, p, h);
    }
  }

  /** The next of `sorted(reach)`. */
  method Least(s: set<int>) returns (x: int)
    requires s != {}
    ensures x in s && forall y :: y in s ==> x <= y
  {
    x := Pick(s);
    var rest := s - {x};
    while rest != {}
      invariant rest <= s && x in s && forall y :: y in s && y !in rest ==> x <= y
      decreases |rest|
    {
      var y := Pick(rest);
      if y < x { x := y; }
      rest := rest - {y};
    }
  }

  function HubEntry(h: int, tags: set<string>): Entry { Accept(tags, {AnyPort(HubTag(h))}) }

  /** Ascending by hub, one entry each, after the entry of the peers. */
  ghost predicate EntriesAre(acls: seq<Entry>, first: Entry, hubs: seq<int>, reach: Reach) {
    && |acls| == |hubs| + 1 && acls[0] == first
    && (forall i :: 0 <= i < |hubs| ==> hubs[i] in reach && acls[i + 1] == HubEntry(hubs[i], reach[hubs[i]]))
    && (forall i, j :: 0 <= i < j < |hubs| ==> hubs[i] < hubs[j])
  }

  function Peers(w: Mesh): set<string> { {"autogroup:member", MeshTag(w.orgId)} }

  function PeersEntry(w: Mesh): Entry { Accept(Peers(w), set p | p in Peers(w) :: AnyPort(p)) }

  lemma PortsInjective(a: string, b: string)
    requires AnyPort(a) == AnyPort(b)
    ensures a == b
  {
    assert a == AnyPort(a)[..|AnyPort(a)| - 2] && b == AnyPort(b)[..|AnyPort(b)| - 2];
  }

  lemma HubPortsInjective(a: int, b: int)
    requires AnyPort(HubTag(a)) == AnyPort(HubTag(b))
    ensures a == b
  {
    PortsInjective(HubTag(a), HubTag(b));
    assert HubTag(a)[8..] == Str(a) && HubTag(b)[8..] == Str(b);
    StrInjective(a, b);
  }

  lemma AppTagInjective(a: int, b: int)
    requires AppTag(a) == AppTag(b)
    ensures a == b
  {
    assert AppTag(a)[8..] == Str(a) && AppTag(b)[8..] == Str(b);
    StrInjective(a, b);
  }

  /** No peer carries a sidecar's tag. */
  lemma PeersAreNoSidecars(w: Mesh, p: string)
    requires p in Peers(w)
    ensures !(APP_TAG_PREFIX <= p) && !(HUB_TAG_PREFIX <= p)
    ensures !(APP_TAG_PREFIX <= AnyPort(p)) && !(HUB_TAG_PREFIX <= AnyPort(p))
  {
    assert p[4] == 'm' || p[0] == 'a';
  }

  /** Whoever reaches a hub does so by a tag an enrollment was given for it. */
  lemma ReachExactly(w: Mesh, acls: seq<Entry>, hubs: seq<int>, reach: Reach, pk: int, h: int)
    requires ReachIs(w, reach, w.enrollments.Keys) && EntriesAre(acls, PeersEntry(w), hubs, reach)
    requires forall k :: k in reach ==> k in hubs
    ensures Allows(acls, AppTag(pk), HubTag(h)) <==> MayReach(w, pk, h)
  {
    if Allows(acls, AppTag(pk), HubTag(h)) {
      var e :| e in acls && AppTag(pk) in e.src && AnyPort(HubTag(h)) in e.dst;
      var i :| 0 <= i < |acls| && acls[i] == e;
      if i == 0 {
        PeersAreNoSidecars(w, AppTag(pk));
        assert false;
      }
      HubPortsInjective(h, hubs[i - 1]);
      var p :| p in w.enrollments && MayReach(w, p, h) && AppTag(p) == AppTag(pk);
      AppTagInjective(p, pk);
    }
    if MayReach(w, pk, h) {
      var i :| 0 <= i < |hubs| && hubs[i] == h;
      assert AppTag(pk) in acls[i + 1].src;
    }
  }

  /** Hubs answer and never initiate, nothing reaches an app, and a hub has at most one entry. */
  ghost predicate OneWay(acls: seq<Entry>) {
    && (forall e, t :: e in acls && t in e.src ==> !(HUB_TAG_PREFIX <= t))
    && (forall e, t :: e in acls && t in e.dst ==> !(APP_TAG_PREFIX <= t))
    && (forall i, j, t :: 0 <= i < j < |acls| && t in acls[i].dst && HUB_TAG_PREFIX <= t ==> t !in acls[j].dst)
  }

  lemma SidecarsAreOneWay(w: Mesh, acls: seq<Entry>, hubs: seq<int>, reach: Reach)
    requires ReachIs(w, reach, w.enrollments.Keys) && EntriesAre(acls, PeersEntry(w), hubs, reach)
    ensures OneWay(acls)
  {
    forall p | p in Peers(w) { PeersAreNoSidecars(w, p); }
    forall e, t | e in acls && t in e.src ensures !(HUB_TAG_PREFIX <= t) {
      var i :| 0 <= i < |acls| && acls[i] == e;
      if i > 0 { SourcesAreApps(w, reach, hubs[i - 1], t); }
    }
    forall e, t | e in acls && t in e.dst ensures !(APP_TAG_PREFIX <= t) {
      var i :| 0 <= i < |acls| && acls[i] == e;
      if i > 0 { assert t == AnyPort(HubTag(hubs[i - 1])) && t[4] == 'h'; }
    }
    forall i, j, t | 0 <= i < j < |acls| && t in acls[i].dst && HUB_TAG_PREFIX <= t ensures t !in acls[j].dst {
      if t in acls[j].dst && i > 0 {
        HubPortsInjective(hubs[i - 1], hubs[j - 1]);
      }
    }
  }

  lemma SourcesAreApps(w: Mesh, reach: Reach, h: int, t: string)
    requires ReachIs(w, reach, w.enrollments.Keys) && h in reach && t in reach[h]
    ensures !(HUB_TAG_PREFIX <= t)
  {
    var pk :| pk in w.enrollments && MayReach(w, pk, h) && t == AppTag(pk);
    assert t[4] == 'a';
  }

  lemma OneMoreEntry(acls: seq<Entry>, first: Entry, hubs: seq<int>, reach: Reach, h: int)
    requires EntriesAre(acls, first, hubs, reach) && h in reach && (hubs != [] ==> hubs[|hubs| - 1] < h)
    ensures EntriesAre(acls + [HubEntry(h, reach[h])], first, hubs + [h], reach)
  {
    var hubs' := hubs + [h];
    forall i, j | 0 <= i < j < |hubs'| ensures hubs'[i] < hubs'[j] {
      if j == |hubs| && i < |hubs| - 1 { assert hubs[i] < hubs[|hubs| - 1]; }
    }
  }

  /** One entry for each hub, in ascending order, after the peers'. */
  method BuildEntries(first: Entry, reach: Reach) returns (acls: seq<Entry>, ghost hubs: seq<int>)
    ensures EntriesAre(acls, first, hubs, reach) && forall h :: h in reach ==> h in hubs
  {
    acls, hubs := [first], [];
    var todo := reach.Keys;
    while todo != {}
      invariant todo <= reach.Keys && EntriesAre(acls, first, hubs, reach)
      invariant forall h :: h in reach ==> h in hubs || h in todo
      invariant hubs != [] ==> forall h :: h in todo ==> hubs[|hubs| - 1] < h
      decreases |todo|
    {
      var h := Least(todo);
      OneMoreEntry(acls, first, hubs, reach, h);
      acls := acls + [HubEntry(h, reach[h])];
      hubs := hubs + [h];
      todo := todo - {h};
    }
  }

  lemma PeersDestinations(w: Mesh)
    ensures PeersEntry(w).dst == {"autogroup:member:*", "tag:mesh-" + Str(w.orgId) + ":*"}
  {
    assert AnyPort("autogroup:member") == "autogroup:member:*";
  }

  /** How tags and ports are written. */
  lemma TagsAre(acls: seq<Entry>, pk: int, h: int)
    ensures AppTag(pk) == "tag:app-" + Str(pk) && HubTag(h) == "tag:hub-" + Str(h)
    ensures Allows(acls, AppTag(pk), HubTag(h)) <==>
              exists e :: e in acls && "tag:app-" + Str(pk) in e.src && "tag:hub-" + Str(h) + ":*" in e.dst
  {
    assert AnyPort(HubTag(h)) == "tag:hub-" + Str(h) + ":*";
  }

  /** `build_acl_policy`: an app reaches a hub exactly when it is meant to, one way. */
  method BuildAclPolicy(w: Mesh) returns (acls: seq<Entry>)
    ensures forall pk, h :: Allows(acls, AppTag(pk), HubTag(h)) <==> MayReach(w, pk, h)
    ensures OneWay(acls)
    ensures |acls| > 0 && acls[0] == PeersEntry(w)
    ensures acls[0].src == {"autogroup:member", "tag:mesh-" + Str(w.orgId)}
    ensures acls[0].dst == {"autogroup:member:*", "tag:mesh-" + Str(w.orgId) + ":*"}
  {
    var reach := BuildReach(w);
    ghost var hubs;
    acls, hubs := BuildEntries(PeersEntry(w), reach);
    SidecarsAreOneWay(w, acls, hubs, reach);
    PeersDestinations(w);
    forall pk, h { ReachExactly(w, acls, hubs, reach, pk, h); }
  }
}
