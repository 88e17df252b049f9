/** The remote ionscale server: tailnets by id, and what it accepts and refuses
    (ionscale/testing.py). */
module Tailnets {
  import opened Rows

  /** A value of a policy, as far as lok looks at it. */
  datatype Json = List(items: seq<string>) | OtherJson(text: string)

  type Policy = map<string, Json>

  datatype User = User(name: string, externalId: Option<string>)

  datatype Tailnet = Tailnet(name: string, organization: Option<string>, policy: Policy, users: seq<User>)

  /** Ids are never reused. */
  datatype Server = Server(tailnets: map<int, Tailnet>, nextId: int)

  datatype Code = NotFound | AlreadyExists

  /** What a remote call answers: the tailnet it is about, or why it was refused. */
  datatype Answer = Ok(id: int, tailnet: Tailnet) | Error(code: Code)

  /** The calls that name a tailnet. */
  datatype Op = Read | Update(newName: Option<string>) | Delete | PutPolicy(policy: Policy)

  ghost predicate ServerOk(s: Server) {
    && (forall id :: id in s.tailnets ==> id < s.nextId)
    && (forall a, b | a in s.tailnets && b in s.tailnets && s.tailnets[a].name == s.tailnets[b].name :: a == b)
    && (forall a, b | a in s.tailnets && b in s.tailnets && s.tailnets[a].organization.Some?
                      && s.tailnets[a].organization == s.tailnets[b].organization :: a == b)
  }

  predicate Bears(s: Server, id: int, name: string) { id in s.tailnets && s.tailnets[id].name == name }

  predicate BoundTo(s: Server, id: int,
                    organization: string) { id in s.tailnets && s.tailnets[id].organization == Some(organization) }

  /** The tailnet that bears the name now. */
  ghost function ByName(s: Server, name: string): (found: Option<int>)
    ensures found.Some? ==> Bears(s, found.value, name)
    ensures found.None? ==> forall id :: !Bears(s, id, name)
  {
    if id :| Bears(s, id, name) then Some(id) else None
  }

  /** The tailnet bound to the organization. */
  ghost function ByOrganization(s: Server, organization: string): (found: Option<int>)
    ensures found.Some? ==> BoundTo(s, found.value, organization)
    ensures found.None? ==> forall id :: !BoundTo(s, id, organization)
  {
    if id :| BoundTo(s, id, organization) then Some(id) else None
  }

  predicate MayCreate(s: Server, name: string, organization: Option<string>) {
    && (forall id :: id in s.tailnets ==> s.tailnets[id].name != name)
    && (organization.Some? ==> forall id :: id in s.tailnets ==> s.tailnets[id].organization != organization)
  }

  function Create(s: Server, name: string, organization: Option<string>): (r: (Server, Answer))
    ensures ServerOk(s) ==> ServerOk(r.0)
  {
    if MayCreate(s, name, organization) then
      var tailnet := Tailnet(name, organization, map[], []);
      (Server(s.tailnets[s.nextId := tailnet], s.nextId + 1), Ok(s.nextId, tailnet))
    else (s, Error(AlreadyExists))
  }

  function With(s: Server, id: int, tailnet: Tailnet): Server { s.(tailnets := s.tailnets[id := tailnet]) }

  /** A rename asks for a name that is not empty. */
  predicate Renames(op: Op) { op.Update? && op.newName.Some? && op.newName.value != "" }

  predicate NameTaken(s: Server, id: int, name: string) {
    exists other :: other in s.tailnets && other != id && s.tailnets[other].name == name
  }

  /** A call with a tailnet id. */
  function Perform(s: Server, id: int, op: Op): (r: (Server, Answer))
    ensures ServerOk(s) ==> ServerOk(r.0)
    ensures r.1 == Error(NotFound) <==> id !in s.tailnets
    ensures r.0.nextId == s.nextId
  {
    if id !in s.tailnets then (s, Error(NotFound))
    else
      var tailnet := s.tailnets[id];
      match op
      case Read => (s, Ok(id, tailnet))
      case Update(_) =>
        if !Renames(op) then (s, Ok(id, tailnet))
        else if NameTaken(s, id, op.newName.value) then (s, Error(AlreadyExists))
        else (With(s, id, tailnet.(name := op.newName.value)), Ok(id, tailnet.(name := op.newName.value)))
      case Delete => (s.(tailnets := s.tailnets - {id}), Ok(id, tailnet))
      case PutPolicy(policy) => (With(s, id, tailnet.(policy := policy)), Ok(id, tailnet.(policy := policy)))
  }

  /** A tailnet is created exactly when nobody has the name and the organization has none; it is new,
      empty and bound, and all others are as they were. */
  lemma CreateDoes(s: Server, name: string, organization: Option<string>)
    ensures var (s', answer) := Create(s, name, organization);
            var taken := exists id | id in s.tailnets ::
                           || s.tailnets[id].name == name
                           || (organization.Some? && s.tailnets[id].organization == organization);
            && (taken ==> s' == s && answer == Error(AlreadyExists))
            && (!taken ==>
                  && answer == Ok(s.nextId, Tailnet(name, organization, map[], [])) && s'.nextId == s.nextId + 1
                  && s'.tailnets == s.tailnets[s.nextId := Tailnet(name, organization, map[], [])])
  {
  }

  /** A call with the id of a tailnet does to it what it says, and nothing to any other. */
  lemma PerformDoes(s: Server, id: int, op: Op)
    requires id in s.tailnets
    ensures var (s', answer) := Perform(s, id, op); var t := s.tailnets[id];
            && (forall other :: other != id ==> (other in s'.tailnets <==> other in s.tailnets))
            && (forall other :: other != id && other in s.tailnets ==> s'.tailnets[other] == s.tailnets[other])
            && (op.Read? ==> s' == s && answer == Ok(id, t))
            && (op.Delete? ==> id !in s'.tailnets && answer == Ok(id, t))
            && (op.PutPolicy? ==> id in s'.tailnets && s'.tailnets[id] == t.(policy := op.policy) && answer.Ok?)
            && (op.Update? && (op.newName == None || op.newName == Some("")) ==> s' == s && answer == Ok(id, t))
            && (op.Update? && op.newName.Some? && op.newName.value != "" ==>
                  var taken := exists other ::
                                 other in s.tailnets && other != id && s.tailnets[other].name == op.newName.value;
                  && (taken ==> s' == s && answer == Error(AlreadyExists))
                  && (!taken ==> id in s'.tailnets && s'.tailnets[id] == t.(name := op.newName.value)
                                 && answer == Ok(id, s'.tailnets[id])))
  {
  }

  /** The call as it is meant: on the tailnet that bears the name now, or refused when none does. */
  ghost function Fresh(s: Server, name: string, op: Op): (r: (Server, Answer))
    ensures ServerOk(s) ==> ServerOk(r.0)
    ensures r.1 == Error(NotFound) <==> ByName(s, name).None?
  {
    var found := ByName(s, name);
    if found.None? then (s, Error(NotFound)) else Perform(s, found.value, op)
  }
}
