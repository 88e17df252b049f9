/** The rows of one organization, as the karakter app stores them: its roles, memberships,
    collaboration grants and invites. */
module Rows {

  datatype Option<+T> = None | Some(value: T)

  type UserId = int
  type RoleId = int
  type MemberId = int
  type InstanceId = int
  type InviteId = int

  const ADMIN := "admin"
  const GUEST := "guest"
  const MAX_GRANTS_PER_MEMBERSHIP := 200

  datatype Role = Role(
    identifier: Option<string>,
    adminRole: bool,
    defaultRole: bool,
    creatingInstance: Option<InstanceId>)

  /** A collaboration is unique by its service instance and its id there. */
  datatype GrantKey = GrantKey(instance: InstanceId, collaboration: string)

  datatype Grant = Grant(
    roles: set<string>,
    mesh: bool,
    through: Option<InviteId>,
    granter: Option<UserId>,
    expiresAt: Option<int>)

  /** A membership row with its many-to-many rows and its grants. */
  datatype Member = Member(
    user: UserId,
    roles: set<RoleId>,
    automatic: set<RoleId>,
    withheld: set<RoleId>,
    isAdmin: bool,
    createdThrough: Option<InviteId>,
    grants: map<GrantKey, Grant>)
  {
    /** A membership is scoped (a guest) exactly when it has grants. */
    predicate Scoped() { grants != map[] }
  }

  datatype Status = Pending | Accepted | Declined | Cancelled

  /** A JSON value, as far as parsing a collaboration tells values apart. */
  datatype RawValue = Text(text: string) | Number(number: int) | OtherValue

  /** The `roles` of a raw entry: absent or falsy, something iterable, or neither. */
  datatype RawRoles = NoRoles | RoleList(items: seq<RawValue>) | NotAList

  /** A collaboration as an invite stores it or a caller passes it. */
  datatype RawEntry = NotAMapping | Entry(instance: RawValue, collaboration: RawValue, roles: RawRoles)

  /** Parsed collaborations by key, with the roles that hold in each. */
  type Refs = map<GrantKey, set<string>>

  datatype Invite = Invite(
    status: Status,
    createdBy: UserId,
    expiresAt: Option<int>,
    roles: set<RoleId>,
    shared: Option<seq<RawEntry>>,
    maxUses: Option<int>,
    uses: int,
    mesh: bool)

  /** A service instance: the user who is responsible for it, and the user who created its hub. */
  datatype Instance = Instance(steward: UserId, creator: UserId)

  /** One organization. Primary keys come from sequences, so they are never reused. */
  datatype Org = Org(
    owner: UserId,
    roles: map<RoleId, Role>,
    members: map<MemberId, Member>,
    instances: map<InstanceId, Instance>,
    invites: map<InviteId, Invite>,
    nextRole: RoleId,
    nextMember: MemberId)

  /** The definition that `Membership.is_admin` caches. */
  predicate HoldsAdmin(roles: map<RoleId, Role>, held: set<RoleId>) {
    exists r :: r in held && r in roles && roles[r].identifier == Some(ADMIN)
  }

  function Named(roles: map<RoleId, Role>, identifier: string): set<RoleId> {
    set r | r in roles && roles[r].identifier == Some(identifier)
  }

  function AdminRoles(roles: map<RoleId, Role>): set<RoleId> {
    set r | r in roles && roles[r].adminRole
  }

  function DefaultRoles(roles: map<RoleId, Role>): set<RoleId> {
    set r | r in roles && roles[r].defaultRole
  }

  /** The membership of a user, if there is one. */
  ghost predicate IsMemberOf(s: Org, u: UserId, id: MemberId) {
    id in s.members && s.members[id].user == u
  }

  lemma NotSubset<T>(a: set<T>, b: set<T>) returns (x: T)
    requires !(a <= b)
    ensures x in a && x !in b
  {
    x :| x in a && x !in b;
  }

  /** Some row of a queryset whose order does not matter. */
  method Pick<T>(s: set<T>) returns (x: T)
    requires s != {}
    ensures x in s
  {
    x :| x in s;
  }

  /** A loop over a set has one element less to do. */
  lemma OneLess<T>(all: set<T>, todo: set<T>, x: T)
    requires x in todo && todo <= all
    ensures all - (todo - {x}) == (all - todo) + {x} && x !in all - todo
    ensures todo - {x} <= all && |todo - {x}| < |todo|
  {
  }
}
