/** Parsing, merging and storing collaboration grants (karakter/collaboration_grants.py). */
module Grants {
  import opened Rows
  import opened Texts

  const MAX_ROLE_LENGTH := 1000

  predicate IsInstanceText(s: string) { 1 <= |s| <= 18 && forall c :: c in s ==> IsDigit(c) }

  predicate IsCollaborationChar(c: char) {
    'A' <= c <= 'Z' || 'a' <= c <= 'z' || IsDigit(c) || c == '_' || c == '.' || c == '-'
  }

  predicate IsCollaborationId(s: string) { 1 <= |s| <= 200 && forall c :: c in s ==> IsCollaborationChar(c) }

  function ParseInstance(v: RawValue): Option<InstanceId> {
    match v
    case Text(t) => if IsInstanceText(Strip(t)) then Some(Value(Strip(t))) else None
    case Number(n) => if n >= 0 && IsInstanceText(Numeral(n)) then Some(n) else None
    case OtherValue => None
  }

  function ParseRole(v: RawValue): Option<string> {
    if v.Text? && 1 <= |Strip(v.text)| <= MAX_ROLE_LENGTH then Some(Strip(v.text)) else None
  }

  function ParseRoles(items: seq<RawValue>): Option<set<string>> {
    if items == [] then Some({})
    else
      match (ParseRole(items[0]), ParseRoles(items[1..]))
      case (Some(role), Some(rest)) => Some({role} + rest)
      case _ => None
  }

  /** `parse_collaboration`: the key and the roles of an entry, or `None` for a `ValidationError`. */
  function Parse(e: RawEntry): Option<(GrantKey, set<string>)> {
    if e.NotAMapping? || !e.collaboration.Text? || !IsCollaborationId(Strip(e.collaboration.text)) then None
    else
      var parsedRoles :=
        if e.roles.NoRoles? then Some({}) else if e.roles.NotAList? then None else ParseRoles(e.roles.items);
      match (ParseInstance(e.instance), parsedRoles)
      case (Some(instance), Some(roles)) => Some((GrantKey(instance, Strip(e.collaboration.text)), roles))
      case _ => None
  }

  /** A numeric instance id is read as the text of its number. */
  lemma NumberIsItsNumeral(n: nat, collaboration: RawValue, roles: RawRoles)
    ensures Parse(Entry(Number(n), collaboration, roles)) == Parse(Entry(Text(Numeral(n)), collaboration, roles))
  {
    StripNothing(Numeral(n));
    ValueOfNumeral(n);
  }

  /** The collaboration as an invite stores it. */
  function AsEntry(key: GrantKey, roles: seq<string>): RawEntry
    requires key.instance >= 0
  {
    Entry(Text(Numeral(key.instance)), Text(key.collaboration),
      RoleList(seq(|roles|, i requires 0 <= i < |roles| => Text(roles[i]))))
  }

  predicate CanonicalRole(role: string) { 1 <= |role| <= MAX_ROLE_LENGTH && Strip(role) == role }

  /** Storing a parsed collaboration and parsing it again gives the same collaboration. */
  lemma {:induction false} StoredEntryParsesBack(key: GrantKey, roles: seq<string>)
    requires key.instance >= 0 && IsInstanceText(Numeral(key.instance)) && IsCollaborationId(key.collaboration)
    requires forall i :: 0 <= i < |roles| ==> CanonicalRole(roles[i])
    ensures Parse(AsEntry(key, roles)) == Some((key, set r | r in roles))
  {
    StripNothing(Numeral(key.instance));
    StripNothing(key.collaboration);
    ValueOfNumeral(key.instance);
    CanonicalRolesParseBack(roles, AsEntry(key, roles).roles.items);
  }

  lemma {:induction false} CanonicalRolesParseBack(roles: seq<string>, items: seq<RawValue>)
    requires |items| == |roles|
    requires forall i :: 0 <= i < |roles| ==> CanonicalRole(roles[i]) && items[i] == Text(roles[i])
    ensures ParseRoles(items) == Some(set r | r in roles)
  {
    if roles == [] {
      assert (set r | r in roles) == {};
    } else {
      CanonicalRolesParseBack(roles[1..], items[1..]);
      assert ParseRole(items[0]) == Some(roles[0]);
      assert roles == [roles[0]] + roles[1..];
      assert (set r | r in roles) == {roles[0]} + (set r | r in roles[1..]);
    }
  }

  /** Which entries parse, and to what, character by character. */
  lemma ParsesExactlyWhen(e: RawEntry)
    ensures Parse(e).Some? <==>
      && e.Entry?
      && (|| (e.instance.Text? && AreDigits(Strip(e.instance.text)))
          || (e.instance.Number? && e.instance.number >= 0 && AreDigits(Numeral(e.instance.number))))
      && e.collaboration.Text? && 1 <= |Strip(e.collaboration.text)| <= 200
      && (forall c :: c in Strip(e.collaboration.text) ==>
            'A' <= c <= 'Z' || 'a' <= c <= 'z' || '0' <= c <= '9' || c == '_' || c == '.' || c == '-')
      && !e.roles.NotAList?
      && (e.roles.RoleList? ==>
            forall i :: 0 <= i < |e.roles.items| ==>
              e.roles.items[i].Text? && 1 <= |Strip(e.roles.items[i].text)| <= 1000)
    ensures Parse(e).Some? ==> var (key, roles) := Parse(e).value;
              && key.collaboration == Strip(e.collaboration.text)
              && (e.instance.Number? ==> key.instance == e.instance.number)
              && (e.instance.Text? ==>
                    AreDigits(Strip(e.instance.text)) && key.instance == Value(Strip(e.instance.text)))
              && (e.roles.NoRoles? ==> roles == {})
              && (e.roles.RoleList? ==>
                    forall r :: r in roles <==> exists i :: 0 <= i < |e.roles.items| && StripsTo(e.roles.items[i], r))
  {
    if e.Entry? && e.roles.RoleList? { RolesParseExactlyWhen(e.roles.items); }
  }

  /** One to eighteen decimal digits. */
  predicate AreDigits(s: string) { 1 <= |s| <= 18 && forall c :: c in s ==> '0' <= c <= '9' }

  ghost predicate StripsTo(v: RawValue, r: string) { v.Text? && Strip(v.text) == r }

  lemma {:induction false} RolesParseExactlyWhen(items: seq<RawValue>)
    ensures ParseRoles(items).Some? <==>
              forall i :: 0 <= i < |items| ==> items[i].Text? && 1 <= |Strip(items[i].text)| <= 1000
    ensures ParseRoles(items).Some? ==>
              forall r :: r in ParseRoles(items).value <==> exists i :: 0 <= i < |items| && StripsTo(items[i], r)
  {
    if items != [] {
      RolesParseExactlyWhen(items[1..]);
      assert forall i :: 0 < i < |items| ==> items[i] == items[1..][i - 1];
      if ParseRoles(items).Some? {
        forall r ensures r in ParseRoles(items).value <==> exists i :: 0 <= i < |items| && StripsTo(items[i], r) {
          if i :| 0 <= i < |items[1..]| && StripsTo(items[1..][i], r) { assert StripsTo(items[i + 1], r); }
          if i :| 0 <= i < |items| && StripsTo(items[i], r) { assert i > 0 ==> StripsTo(items[1..][i - 1], r); }
          if Strip(items[0].text) == r { assert StripsTo(items[0], r); }
        }
      }
    }
  }

  /** The key and the roles of a parsed entry are in canonical form already. */
  lemma ParsedIsCanonical(e: RawEntry)
    requires Parse(e).Some?
    ensures var (key, roles) := Parse(e).value;
            && key.instance >= 0 && IsInstanceText(Numeral(key.instance)) && IsCollaborationId(key.collaboration)
            && forall r :: r in roles ==> CanonicalRole(r)
  {
    if e.instance.Text? { NumeralNoLonger(Strip(e.instance.text)); }
    if e.roles.RoleList? { ParsedRolesAreCanonical(e.roles.items); }
  }

  lemma {:induction false} ParsedRolesAreCanonical(items: seq<RawValue>)
    requires ParseRoles(items).Some?
    ensures forall r :: r in ParseRoles(items).value ==> CanonicalRole(r)
  {
    if items != [] {
      ParsedRolesAreCanonical(items[1..]);
      StripTwice(items[0].text);
    }
  }

  /** So storing what was parsed and parsing it again gives it back, for every entry that parses
      and every order its roles are listed in. */
  lemma ParseStoreParse(e: RawEntry, roles: seq<string>)
    requires Parse(e).Some? && Parse(e).value.1 == set r | r in roles
    ensures Parse(e).value.0.instance >= 0 && Parse(AsEntry(Parse(e).value.0, roles)) == Parse(e)
  {
    ParsedIsCanonical(e);
    forall i | 0 <= i < |roles| ensures CanonicalRole(roles[i]) { assert roles[i] in Parse(e).value.1; }
    StoredEntryParsesBack(Parse(e).value.0, roles);
  }

  /** One turn of the loop of `_merge`. */
  function MergeOne(refs: Refs, key: GrantKey, roles: set<string>): Refs {
    refs[key := if key in refs then refs[key] + roles else roles]
  }

  /** `_merge`: the same collaboration given twice holds the roles of both. */
  function Merge(entries: seq<RawEntry>): Option<Refs> {
    if entries == [] then Some(map[])
    else
      match (Merge(entries[..|entries| - 1]), Parse(entries[|entries| - 1]))
      case (Some(refs), Some((key, roles))) => Some(MergeOne(refs, key, roles))
      case _ => None
  }

  method MergeEntries(entries: seq<RawEntry>) returns (refs: Option<Refs>)
    ensures refs == Merge(entries)
  {
    var merged: Refs := map[];
    for i := 0 to |entries|
      invariant Merge(entries[..i]) == Some(merged)
    {
      var parsed := Parse(entries[i]);
      assert entries[..i + 1][..i] == entries[..i];
      if parsed.None? {
        MergeFailsBeyond(entries, i + 1);
        return None;
      }
      var (key, roles) := parsed.value;
      merged := if key in merged then merged[key := merged[key] + roles] else merged[key := roles];
    }
    assert entries[..|entries|] == entries;
    return Some(merged);
  }

  lemma {:induction false} MergeFailsBeyond(entries: seq<RawEntry>, i: nat)
    requires i <= |entries| && Merge(entries[..i]) == None
    ensures Merge(entries) == None
    decreases |entries| - i
  {
    if i < |entries| {
      assert entries[..i + 1][..i] == entries[..i];
      MergeFailsBeyond(entries, i + 1);
    } else {
      assert entries[..i] == entries;
    }
  }

  ghost predicate GivesRole(e: RawEntry, key: GrantKey, role: string) {
    Parse(e).Some? && Parse(e).value.0 == key && role in Parse(e).value.1
  }

  ghost predicate Names(e: RawEntry, key: GrantKey) { Parse(e).Some? && Parse(e).value.0 == key }

  /** Merging fails exactly on a malformed entry; otherwise a collaboration holds exactly the
      roles some entry gives it, whatever the order and the duplication. */
  lemma {:induction false} MergeIsUnion(entries: seq<RawEntry>)
    ensures Merge(entries).None? <==> exists e :: e in entries && Parse(e).None?
    ensures Merge(entries).Some? ==> var refs := Merge(entries).value;
              && (forall k :: k in refs <==> exists e :: e in entries && Names(e, k))
              && (forall k, r :: k in refs ==> (r in refs[k] <==> exists e :: e in entries && GivesRole(e, k, r)))
  {
    if entries != [] {
      var front, last := entries[..|entries| - 1], entries[|entries| - 1];
      assert entries == front + [last];
      MergeIsUnion(front);
    }
  }

  /** A grant that is given again: it keeps its roles and its mesh access and gains the new
      ones; it takes the new invite and granter only when that adds something. */
  function Widened(g: Grant, roles: set<string>, call: Call): Grant {
    if !(roles <= g.roles) || (call.mesh && !g.mesh)
    then g.(roles := g.roles + roles, mesh := g.mesh || call.mesh, through := call.through, granter := call.granter)
    else g
  }

  /** One call of `grant_collaborations`, its entries merged. */
  datatype Call = Call(
    refs: Refs,
    through: Option<InviteId>,
    granter: Option<UserId>,
    expiresAt: Option<int>,
    mesh: bool)

  function Put(grants: map<GrantKey, Grant>, key: GrantKey, roles: set<string>, call: Call): Grant {
    if key in grants then Widened(grants[key], roles, call)
    else Grant(roles, call.mesh, call.through, call.granter, call.expiresAt)
  }

  /** The grants after the call: the order its collaborations are stored in does not matter. */
  function Granted(grants: map<GrantKey, Grant>, call: Call): map<GrantKey, Grant> {
    map k | k in grants.Keys + call.refs.Keys ::
      if k in call.refs then Put(grants, k, call.refs[k], call) else grants[k]
  }

  /** The rows a call leaves, column by column. A new collaboration gets all of the call; one that
      gains a role or the mesh takes its invite and granter and keeps its expiry; any other stays. */
  lemma GrantedRow(grants: map<GrantKey, Grant>, call: Call, k: GrantKey)
    ensures var after := Granted(grants, call);
            && (k in after <==> k in grants || k in call.refs)
            && (k in call.refs && k !in grants ==>
                  && after[k].roles == call.refs[k] && after[k].mesh == call.mesh && after[k].through == call.through
                  && after[k].granter == call.granter && after[k].expiresAt == call.expiresAt)
            && (k in call.refs && k in grants && Gains(grants[k], call.refs[k], call.mesh) ==>
                  && after[k].roles == grants[k].roles + call.refs[k] && after[k].mesh == (grants[k].mesh || call.mesh)
                  && after[k].through == call.through && after[k].granter == call.granter
                  && after[k].expiresAt == grants[k].expiresAt)
            && (k in grants && (k !in call.refs || !Gains(grants[k], call.refs[k], call.mesh)) ==>
                  after[k] == grants[k])
  {
  }

  /** The grant lacks a role, or the mesh, that is given. */
  ghost predicate Gains(g: Grant, roles: set<string>, mesh: bool) {
    (exists r :: r in roles && r !in g.roles) || (mesh && !g.mesh)
  }

  predicate Grows(grants: map<GrantKey, Grant>, key: GrantKey, roles: set<string>, mesh: bool) {
    key !in grants || !(roles <= grants[key].roles) || (mesh && !grants[key].mesh)
  }

  /** What `grant_collaborations` answers: whether anything changed. */
  predicate Changes(grants: map<GrantKey, Grant>, call: Call) {
    exists k :: k in call.refs && Grows(grants, k, call.refs[k], call.mesh)
  }

  /** The cap is checked only when a grant is created. */
  predicate OverCap(grants: map<GrantKey, Grant>, call: Call) {
    var created := call.refs.Keys - grants.Keys;
    created != {} && |grants| + |created| > MAX_GRANTS_PER_MEMBERSHIP
  }

  /** What a grant gives: the roles and the mesh of each collaboration. */
  function Content(grants: map<GrantKey, Grant>): map<GrantKey, (set<string>, bool)> {
    map k | k in grants :: (grants[k].roles, grants[k].mesh)
  }

  /** The call reports a change exactly when the roles or the mesh of some collaboration changed,
      and a call that reports none leaves every stored grant as it was. */
  lemma ChangesExactlyWhenContentDoes(grants: map<GrantKey, Grant>, call: Call)
    ensures Changes(grants, call) <==> Content(Granted(grants, call)) != Content(grants)
    ensures !Changes(grants, call) ==> Granted(grants, call) == grants
  {
    var after := Granted(grants, call);
    if Changes(grants, call) {
      var k :| k in call.refs && Grows(grants, k, call.refs[k], call.mesh);
      if k in grants {
        assert Content(after)[k] != Content(grants)[k];
      } else {
        assert k in Content(after) && k !in Content(grants);
      }
    } else {
      assert forall k :: k in call.refs ==> !Grows(grants, k, call.refs[k], call.mesh);
      assert after.Keys == grants.Keys;
      assert after == grants;
    }
  }

  /** Giving the same again changes nothing and says so. */
  lemma GrantingAgainChangesNothing(grants: map<GrantKey, Grant>, call: Call)
    ensures !Changes(Granted(grants, call), call)
    ensures Granted(Granted(grants, call), call) == Granted(grants, call)
  {
    var after := Granted(grants, call);
    forall k | k in call.refs ensures !Grows(after, k, call.refs[k], call.mesh) {
      assert after[k] == Put(grants, k, call.refs[k], call);
    }
    ChangesExactlyWhenContentDoes(after, call);
  }

  function GrantedAll(grants: map<GrantKey, Grant>, calls: seq<Call>): map<GrantKey, Grant> {
    if calls == [] then grants else Granted(GrantedAll(grants, calls[..|calls| - 1]), calls[|calls| - 1])
  }

  ghost predicate RoleGiven(calls: seq<Call>, key: GrantKey, role: string) {
    exists c :: c in calls && key in c.refs && role in c.refs[key]
  }

  ghost predicate KeyGiven(calls: seq<Call>, key: GrantKey) { exists c :: c in calls && key in c.refs }

  ghost predicate MeshGiven(calls: seq<Call>, key: GrantKey) { exists c :: c in calls && key in c.refs && c.mesh }

  /** After any sequence of calls a collaboration's roles are the union, and its mesh flag the
      disjunction, of what was there and everything given. */
  lemma {:induction false} GrantsAccumulate(grants: map<GrantKey, Grant>, calls: seq<Call>, k: GrantKey, r: string)
    ensures var after := GrantedAll(grants, calls);
            && (k in after <==> k in grants || KeyGiven(calls, k))
            && (k in after && r in after[k].roles <==> (k in grants && r in grants[k].roles) || RoleGiven(calls, k, r))
            && (k in after && after[k].mesh <==> (k in grants && grants[k].mesh) || MeshGiven(calls, k))
  {
    if calls != [] {
      var front, last := calls[..|calls| - 1], calls[|calls| - 1];
      assert calls == front + [last];
      GrantsAccumulate(grants, front, k, r);
      assert KeyGiven(calls, k) <==> KeyGiven(front, k) || k in last.refs;
      assert RoleGiven(calls, k, r) <==> RoleGiven(front, k, r) || (k in last.refs && r in last.refs[k]);
      assert MeshGiven(calls, k) <==> MeshGiven(front, k) || (k in last.refs && last.mesh);
    }
  }

  /** So grants form a join: the same calls in any order, any number of times each, give the same. */
  lemma GrantsFormAJoin(grants: map<GrantKey, Grant>, calls: seq<Call>, others: seq<Call>)
    requires forall c :: c in calls <==> c in others
    ensures Content(GrantedAll(grants, calls)) == Content(GrantedAll(grants, others))
  {
    forall k { SameCallsSameGrant(grants, calls, others, k); }
  }

  lemma SameCallsSameGrant(grants: map<GrantKey, Grant>, calls: seq<Call>, others: seq<Call>, k: GrantKey)
    requires forall c :: c in calls <==> c in others
    ensures var a, b := GrantedAll(grants, calls), GrantedAll(grants, others);
            (k in a <==> k in b) && (k in a ==> a[k].roles == b[k].roles && a[k].mesh == b[k].mesh)
  {
    var a, b := GrantedAll(grants, calls), GrantedAll(grants, others);
    GrantsAccumulate(grants, calls, k, "");
    GrantsAccumulate(grants, others, k, "");
    if k in a {
      forall r ensures r in a[k].roles <==> r in b[k].roles {
        GrantsAccumulate(grants, calls, k, r);
        GrantsAccumulate(grants, others, k, r);
      }
    }
  }

  /** A call within the cap leaves at most the cap, and never fewer grants than before. */
  lemma GrantedWithinCap(grants: map<GrantKey, Grant>, call: Call)
    requires |grants| <= MAX_GRANTS_PER_MEMBERSHIP && !OverCap(grants, call)
    ensures |Granted(grants, call)| <= MAX_GRANTS_PER_MEMBERSHIP
  {
    var created := call.refs.Keys - grants.Keys;
    assert Granted(grants, call).Keys == grants.Keys + created;
    assert |grants.Keys + created| == |grants.Keys| + |created|;
    assert |Granted(grants, call)| == |Granted(grants, call).Keys|;
  }
}
