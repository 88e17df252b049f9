/** The client that remembers tailnet ids by name (ionscale/http_repo.py). */
module TailnetCache {
  import opened Rows
  import opened Tailnets

  type Ids = map<string, int>

  /** The server and what the client remembers of it. */
  datatype Client = Client(server: Server, ids: Ids)

  /** Every remembered id bears its name still, or is dead. */
  ghost predicate CacheOk(c: Client) {
    && ServerOk(c.server)
    && forall n :: n in c.ids ==>
      c.ids[n] < c.server.nextId && (c.ids[n] in c.server.tailnets ==> c.server.tailnets[c.ids[n]].name == n)
  }

  ghost function Names(s: Server): set<string> { set id | id in s.tailnets :: s.tailnets[id].name }

  /** The cache after the tailnets were listed. */
  ghost function Learned(s: Server, ids: Ids): Ids {
    map n | n in ids.Keys + Names(s) :: if n in Names(s) then Named(s, n) else ids[n]
  }

  ghost function Named(s: Server, n: string): (id: int)
    requires n in Names(s)
    ensures Bears(s, id, n) && ByName(s, n) == Some(id)
  {
    var id :| id in s.tailnets && s.tailnets[id].name == n;
    assert Bears(s, id, n);
    ByName(s, n).value
  }

  /** `_tailnet_id`: the cache after the lookup. */
  ghost function LookedUp(c: Client, name: string): Ids { if name in c.ids then c.ids else Learned(c.server, c.ids) }

  /** The id the lookup finds. */
  ghost function Resolved(c: Client, name: string): Option<int> {
    if name in c.ids then Some(c.ids[name]) else ByName(c.server, name)
  }

  /** `_tailnet_call`: a cached id that turns out dead is forgotten and looked up once more. */
  ghost function Called(c: Client, name: string, op: Op): (Client, Answer) {
    if Resolved(c, name).None? then (c.(ids := LookedUp(c, name)), Error(NotFound))
    else
      var (server, answer) := Perform(c.server, Resolved(c, name).value, op);
      if answer == Error(NotFound) && name in c.ids then
        var c1 := c.(ids := c.ids - {name});
        if Resolved(c1, name).None? then (c1.(ids := LookedUp(c1, name)), Error(NotFound))
        else
          var (server', answer') := Perform(c1.server, Resolved(c1, name).value, op);
          (Client(server', LookedUp(c1, name)), answer')
      else (Client(server, LookedUp(c, name)), answer)
  }

  /** The cache after `update_tailnet`: the old name is forgotten, the tailnet's name remembered. */
  ghost function Updated(c: Client, name: string, newName: Option<string>): (Client, Answer) {
    var (c1, answer) := Called(c, name, Update(newName));
    if answer.Error? then (c1, answer)
    else
      var ids := if Renames(Update(newName)) && newName.value != name then c1.ids - {name} else c1.ids;
      (c1.(ids := ids[answer.tailnet.name := answer.id]), answer)
  }

  ghost function Deleted(c: Client, name: string): (Client, Answer) {
    var (c1, answer) := Called(c, name, Delete);
    (c1.(ids := c1.ids - {name}), answer)
  }

  ghost function Made(c: Client, name: string, organization: Option<string>): (Client, Answer) {
    var (server, answer) := Create(c.server, name, organization);
    (Client(server, if answer.Ok? then c.ids[answer.tailnet.name := answer.id] else c.ids), answer)
  }

  ghost function FoundFor(c: Client, organization: string): Client {
    var found := ByOrganization(c.server, organization);
    if found.None? then c else c.(ids := c.ids[c.server.tailnets[found.value].name := found.value])
  }

  // --- a cached call refines a fresh lookup -------------------------------------------------

  /** Listing keeps the cache right. */
  lemma LearnedIsRight(s: Server, ids: Ids, n: string)
    requires ServerOk(s) && n in Learned(s, ids)
    ensures var id := Learned(s, ids)[n]; Bears(s, id, n) || (ByName(s, n).None? && n in ids && id == ids[n])
  {
    if n !in Names(s) {
      forall id ensures !Bears(s, id, n) {}
    }
  }

  lemma LearningKeepsCacheOk(c: Client)
    requires CacheOk(c)
    ensures CacheOk(c.(ids := Learned(c.server, c.ids)))
  {
    forall n | n in Learned(c.server, c.ids) { LearnedIsRight(c.server, c.ids, n); }
  }

  /** The tailnet a call acts on, in the end. */
  ghost function Target(c: Client, name: string): Option<int> {
    if name in c.ids && c.ids[name] in c.server.tailnets then Some(c.ids[name]) else ByName(c.server, name)
  }

  lemma CalledActsOnTarget(c: Client, name: string, op: Op)
    requires ServerOk(c.server)
    ensures var (c', answer) := Called(c, name, op);
            (c'.server, answer) == if Target(c, name).None? then (c.server, Error(NotFound))
              else Perform(c.server, Target(c, name).value, op)
  {
  }

  /** A call acts on the tailnet that bears the name now exactly when its cache entry is not a
      live tailnet of another name. */
  lemma TargetIsRightExactlyWhen(c: Client, name: string)
    requires ServerOk(c.server)
    ensures Target(c, name) == ByName(c.server, name) <==>
        !(name in c.ids && c.ids[name] in c.server.tailnets && c.server.tailnets[c.ids[name]].name != name)
  {
    if name in c.ids && c.ids[name] in c.server.tailnets && c.server.tailnets[c.ids[name]].name == name {
      assert Bears(c.server, c.ids[name], name);
    }
  }

  /** So with a right cache every call does what looking the name up afresh would do. */
  lemma CachedCallIsFresh(c: Client, name: string, op: Op)
    requires CacheOk(c)
    ensures (Called(c, name, op).0.server, Called(c, name, op).1) == Fresh(c.server, name, op)
  {
    CalledActsOnTarget(c, name, op);
    TargetIsRightExactlyWhen(c, name);
  }

  /** What a client remembers: the tailnet a call found, a created or renamed one by its name, and not
      what it deleted or renamed away. */
  lemma Remembers(c: Client, name: string, op: Op)
    requires CacheOk(c)
    ensures var (c', answer) := Called(c, name, op); answer.Ok? ==> name in c'.ids && c'.ids[name] == answer.id
    ensures name !in Deleted(c, name).0.ids
  {
    CachedCallIsFresh(c, name, op);
  }

  lemma RemembersNames(c: Client, name: string, newName: Option<string>, organization: Option<string>)
    requires CacheOk(c)
    ensures var (c', answer) := Updated(c, name, newName);
            answer.Ok? ==> && answer.tailnet.name in c'.ids && c'.ids[answer.tailnet.name] == answer.id
                           && (answer.tailnet.name != name ==> name !in c'.ids)
    ensures var (c', answer) := Made(c, name, organization); answer.Ok? ==> name in c'.ids && c'.ids[name] == answer.id
  {
    CachedCallIsFresh(c, name, Update(newName));
  }

  // --- over whole runs ----------------------------------------------------------------------

  datatype Step =
    | ListAll
    | Call(name: string, op: Op)
    | UpdateTailnet(name: string, newName: Option<string>)
    | DeleteTailnet(name: string)
    | CreateTailnet(name: string, organization: Option<string>)
    | Lookup(organizationId: string)
    | ForeignCreate(foreignName: string, organization: Option<string>)
    | ForeignDelete(id: int)

  /** Renames go only through `update_tailnet`. */
  predicate Proper(p: Step) { p.Call? ==> !Renames(p.op) }

  ghost function Next(c: Client, p: Step): Client {
    match p
    case ListAll => c.(ids := Learned(c.server, c.ids))
    case Call(name, op) => Called(c, name, op).0
    case UpdateTailnet(name, newName) => Updated(c, name, newName).0
    case DeleteTailnet(name) => Deleted(c, name).0
    case CreateTailnet(name, organization) => Made(c, name, organization).0
    case Lookup(organizationId) => FoundFor(c, organizationId)
    case ForeignCreate(name, organization) => c.(server := Create(c.server, name, organization).0)
    case ForeignDelete(id) => c.(server := c.server.(tailnets := c.server.tailnets - {id}))
  }

  ghost function Run(c: Client, steps: seq<Step>): Client {
    if steps == [] then c else Next(Run(c, steps[..|steps| - 1]), steps[|steps| - 1])
  }

  /** A call leaves the cache alone, or lists the tailnets, with or without forgetting the name. */
  lemma CalledIds(c: Client, name: string, op: Op)
    ensures var ids := Called(c, name, op).0.ids;
            ids == c.ids || ids == Learned(c.server, c.ids) || ids == Learned(c.server, c.ids - {name})
  {
  }

  /** Whatever a call did, what it leaves in the cache was right before the call. */
  lemma CalledLeavesRightIds(c: Client, name: string, op: Op)
    requires CacheOk(c)
    ensures CacheOk(Client(c.server, Called(c, name, op).0.ids))
  {
    CalledIds(c, name, op);
    LearningKeepsCacheOk(c);
    LearningKeepsCacheOk(c.(ids := c.ids - {name}));
  }

  /** Deleting, or writing a policy, gives no tailnet another name. */
  lemma PerformKeepsCacheOk(s: Server, id: int, op: Op, ids: Ids)
    requires CacheOk(Client(s, ids)) && !Renames(op)
    ensures CacheOk(Client(Perform(s, id, op).0, ids))
  {
  }

  lemma CalledKeepsCacheOk(c: Client, name: string, op: Op)
    requires CacheOk(c) && !Renames(op)
    ensures CacheOk(Called(c, name, op).0)
  {
    CalledLeavesRightIds(c, name, op);
    CachedCallIsFresh(c, name, op);
    var found := ByName(c.server, name);
    if found.Some? { PerformKeepsCacheOk(c.server, found.value, op, Called(c, name, op).0.ids); }
  }

  lemma UpdatedKeepsCacheOk(c: Client, name: string, newName: Option<string>)
    requires CacheOk(c)
    ensures CacheOk(Updated(c, name, newName).0)
  {
    if Renames(Update(newName)) {
      RenamingKeepsCacheOk(c, name, newName);
    } else {
      CalledKeepsCacheOk(c, name, Update(newName));
      SameNameKeepsCacheOk(c, name, newName);
    }
  }

  lemma SameNameKeepsCacheOk(c: Client, name: string, newName: Option<string>)
    requires CacheOk(c) && !Renames(Update(newName)) && CacheOk(Called(c, name, Update(newName)).0)
    ensures CacheOk(Updated(c, name, newName).0)
  {
    CachedCallIsFresh(c, name, Update(newName));
  }

  lemma RenamingKeepsCacheOk(c: Client, name: string, newName: Option<string>)
    requires CacheOk(c) && Renames(Update(newName))
    ensures CacheOk(Updated(c, name, newName).0)
  {
    var (c1, answer) := Called(c, name, Update(newName));
    CalledLeavesRightIds(c, name, Update(newName));
    CachedCallIsFresh(c, name, Update(newName));
    if answer.Ok? {
      assert ByName(c.server, name) == Some(answer.id);
      RenamedKeepsCacheOk(c.server, c1.ids, name, newName.value, answer.id);
    }
  }

  /** Only the old name's entry can be the renamed tailnet's, and it is forgotten. */
  lemma RenamedKeepsCacheOk(s: Server, ids: Ids, name: string, newName: string, id: int)
    requires CacheOk(Client(s, ids)) && Bears(s, id, name) && newName != "" && !NameTaken(s, id, newName)
    ensures var ids' := if newName != name then ids - {name} else ids;
            CacheOk(Client(Perform(s, id, Update(Some(newName))).0, ids'[newName := id]))
  {
    var ids' := (if newName != name then ids - {name} else ids)[newName := id];
    var s' := Perform(s, id, Update(Some(newName))).0;
    forall n | n in ids' ensures ids'[n] < s'.nextId && (ids'[n] in s'.tailnets ==> s'.tailnets[ids'[n]].name == n) {
      if n != newName { assert n in ids && ids'[n] == ids[n]; }
    }
  }

  lemma StepKeepsCacheOk(c: Client, p: Step)
    requires CacheOk(c) && Proper(p)
    ensures CacheOk(Next(c, p))
  {
    match p
    case ListAll => LearningKeepsCacheOk(c);
    case Call(name, op) => CalledKeepsCacheOk(c, name, op);
    case UpdateTailnet(name, newName) => UpdatedKeepsCacheOk(c, name, newName);
    case DeleteTailnet(name) => CalledKeepsCacheOk(c, name, Delete);
    case CreateTailnet(name, organization) =>
    case Lookup(organizationId) =>
    case ForeignCreate(name, organization) =>
    case ForeignDelete(id) =>
  }

  /** In every run, with tailnets created and deleted by others in between, every cached entry is
      right or dead; so every call afterwards refines a fresh lookup. */
  lemma {:induction false} EveryRunKeepsCacheOk(c: Client, steps: seq<Step>, name: string, op: Op)
    requires CacheOk(c) && forall p :: p in steps ==> Proper(p)
    ensures CacheOk(Run(c, steps))
    ensures var c' :=
        Run(c, steps); (Called(c', name, op).0.server, Called(c', name, op).1) == Fresh(c'.server, name, op)
  {
    if steps != [] {
      var front, last := steps[..|steps| - 1], steps[|steps| - 1];
      assert last in steps && forall p :: p in front ==> p in steps;
      EveryRunKeepsCacheOk(c, front, name, op);
      StepKeepsCacheOk(Run(c, front), last);
    }
    CachedCallIsFresh(Run(c, steps), name, op);
  }

  /** After somebody else renamed a tailnet a call by its old name still reaches it, although no
      tailnet bears that name. */
  lemma ForeignRenameMisleads(c: Client, id: int)
    requires c == Client(Server(map[id := Tailnet("a", None, map[], [])], id + 1), map["a" := id])
    ensures CacheOk(c)
    ensures var c' := c.(server := Perform(c.server, id, Update(Some("b"))).0);
            Fresh(c'.server, "a", Delete).1 == Error(NotFound) && Called(c', "a", Delete).1.Ok?
  {
    var c' := c.(server := Perform(c.server, id, Update(Some("b"))).0);
    assert c'.server.tailnets[id].name == "b";
    assert !Bears(c'.server, id, "a");
  }
}

/** The client's methods. */
module TailnetRepository {
  import opened Rows
  import opened Tailnets
  import opened TailnetCache

  class Repository {
    /** The remote server, reached only by calls. */
    var server: Server
    var tailnetIds: Ids

    function Value(): Client
      reads this
    {
      Client(server, tailnetIds)
    }

    constructor (server: Server)
      requires ServerOk(server)
      ensures Value() == Client(server, map[]) && CacheOk(Value())
    {
      this.server, tailnetIds := server, map[];
    }

    /** `list_tailnets`, its loop over the answer. */
    method ListTailnets()
      requires ServerOk(server)
      modifies this`tailnetIds
      ensures Value() == old(Value()).(ids := Learned(server, old(tailnetIds)))
    {
      var todo := server.tailnets.Keys;
      while todo != {}
        invariant todo <= server.tailnets.Keys
        invariant LearnedFrom(server, old(tailnetIds), server.tailnets.Keys - todo, tailnetIds)
        decreases |todo|
      {
        var id := Pick(todo);
        OneLess(server.tailnets.Keys, todo, id);
        OneMoreLearned(server, old(tailnetIds), server.tailnets.Keys - todo, tailnetIds, id);
        tailnetIds := tailnetIds[server.tailnets[id].name := id];
        todo := todo - {id};
      }
      AllLearned(server, old(tailnetIds), tailnetIds);
    }

    /** `_tailnet_id` */
    method TailnetId(name: string) returns (id: Option<int>)
      requires ServerOk(server)
      modifies this`tailnetIds
      ensures Value() == old(Value()).(ids := LookedUp(old(Value()), name)) && id == Resolved(old(Value()), name)
    {
      if name in tailnetIds { return Some(tailnetIds[name]); }
      ListTailnets();
      if name in tailnetIds {
        LearnedIsRight(server, old(tailnetIds), name);
        return Some(tailnetIds[name]);
      }
      return None;
    }

    /** `_tailnet_call` */
    method TailnetCall(name: string, op: Op) returns (answer: Answer)
      requires ServerOk(server)
      modifies this
      ensures (Value(), answer) == Called(old(Value()), name, op)
    {
      var wasCached := name in tailnetIds;
      var id := TailnetId(name);
      if id.None? { return Error(NotFound); }
      var result := Perform(server, id.value, op);
      server, answer := result.0, result.1;
      if answer != Error(NotFound) || !wasCached { return; }
      tailnetIds := tailnetIds - {name};
      id := TailnetId(name);
      if id.None? { return Error(NotFound); }
      result := Perform(server, id.value, op);
      server, answer := result.0, result.1;
    }

    /** A per-tailnet call that renames nothing: it does what a fresh lookup would. */
    method CallByName(name: string, op: Op) returns (answer: Answer)
      requires CacheOk(Value()) && !Renames(op)
      modifies this
      ensures (server, answer) == Fresh(old(server), name, op) && CacheOk(Value())
    {
      CachedCallIsFresh(Value(), name, op);
      CalledKeepsCacheOk(Value(), name, op);
      answer := TailnetCall(name, op);
    }

    /** `create_tailnet` */
    method CreateTailnetHere(name: string, organization: Option<string>) returns (answer: Answer)
      requires CacheOk(Value())
      modifies this
      ensures (Value(), answer) == Made(old(Value()), name, organization) && CacheOk(Value())
    {
      StepKeepsCacheOk(Value(), CreateTailnet(name, organization));
      var result := Create(server, name, organization);
      server, answer := result.0, result.1;
      if answer.Ok? { tailnetIds := tailnetIds[answer.tailnet.name := answer.id]; }
    }

    /** `get_tailnet_by_organization` */
    method GetTailnetByOrganization(organization: string) returns (found: Option<int>)
      requires CacheOk(Value())
      modifies this`tailnetIds
      ensures Value() == FoundFor(old(Value()), organization)
      ensures CacheOk(Value()) && found == ByOrganization(server, organization)
    {
      StepKeepsCacheOk(Value(), Lookup(organization));
      if exists id :: id in server.tailnets && server.tailnets[id].organization == Some(organization) {
        var id :| id in server.tailnets && server.tailnets[id].organization == Some(organization);
        assert BoundTo(server, id, organization);
        tailnetIds := tailnetIds[server.tailnets[id].name := id];
        return Some(id);
      }
      return None;
    }

    /** `update_tailnet` */
    method UpdateTailnetHere(name: string, newName: Option<string>) returns (answer: Answer)
      requires CacheOk(Value())
      modifies this
      ensures (Value(), answer) == Updated(old(Value()), name, newName) && CacheOk(Value())
      ensures (server, answer) == Fresh(old(server), name, Update(newName))
    {
      CachedCallIsFresh(Value(), name, Update(newName));
      UpdatedKeepsCacheOk(Value(), name, newName);
      answer := TailnetCall(name, Update(newName));
      if answer.Error? { return; }
      if newName.Some? && newName.value != "" && newName.value != name { tailnetIds := tailnetIds - {name}; }
      tailnetIds := tailnetIds[answer.tailnet.name := answer.id];
    }

    /** `delete_tailnet` */
    method DeleteTailnetHere(name: string) returns (answer: Answer)
      requires CacheOk(Value())
      modifies this
      ensures (Value(), answer) == Deleted(old(Value()), name) && CacheOk(Value())
      ensures (server, answer) == Fresh(old(server), name, Delete)
      ensures answer.Ok? <==> exists id :: id in old(server).tailnets && old(server).tailnets[id].name == name
      ensures forall id ::
                id in server.tailnets <==> id in old(server).tailnets && old(server).tailnets[id].name != name
      ensures forall id :: id in server.tailnets ==> server.tailnets[id] == old(server).tailnets[id]
      ensures name !in tailnetIds
    {
      DeletesTheNamed(server, name);
      CachedCallIsFresh(Value(), name, Delete);
      CalledKeepsCacheOk(Value(), name, Delete);
      answer := TailnetCall(name, Delete);
      tailnetIds := tailnetIds - {name};
    }
  }

  lemma DeletesTheNamed(s: Server, name: string)
    requires ServerOk(s)
    ensures var (s', answer) := Fresh(s, name, Delete);
            && (answer.Ok? <==> exists id :: id in s.tailnets && s.tailnets[id].name == name)
            && (forall id :: id in s'.tailnets <==> id in s.tailnets && s.tailnets[id].name != name)
            && (forall id :: id in s'.tailnets ==> s'.tailnets[id] == s.tailnets[id])
  {
    if id :| id in s.tailnets && s.tailnets[id].name == name { assert Bears(s, id, name); }
  }

  ghost function NamesOf(s: Server,
                         ids: set<int>): set<string> { set id | id in ids && id in s.tailnets :: s.tailnets[id].name }

  /** Where the entry of a name comes from once some tailnets were read. */
  ghost predicate LearnedAt(s: Server, before: Ids, done: set<int>, n: string, id: int) {
    (id in done && Bears(s, id, n)) || (n !in NamesOf(s, done) && n in before && id == before[n])
  }

  ghost predicate LearnedFrom(s: Server, before: Ids, done: set<int>, ids: Ids) {
    ids.Keys == before.Keys + NamesOf(s, done) && forall n | n in ids :: LearnedAt(s, before, done, n, ids[n])
  }

  lemma OneMoreLearned(s: Server, before: Ids, done: set<int>, ids: Ids, id: int)
    requires ServerOk(s) && LearnedFrom(s, before, done, ids) && id in s.tailnets
    ensures LearnedFrom(s, before, done + {id}, ids[s.tailnets[id].name := id])
  {
    assert NamesOf(s, done + {id}) == NamesOf(s, done) + {s.tailnets[id].name};
  }

  lemma AllLearned(s: Server, before: Ids, after: Ids)
    requires ServerOk(s) && LearnedFrom(s, before, s.tailnets.Keys - {}, after)
    ensures after == Learned(s, before)
  {
    assert s.tailnets.Keys - {} == s.tailnets.Keys && NamesOf(s, s.tailnets.Keys) == Names(s);
    forall n | n in after ensures after[n] == Learned(s, before)[n] {
      if n in Names(s) { assert Bears(s, after[n], n); }
    }
  }
}
