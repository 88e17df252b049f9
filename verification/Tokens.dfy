/** OAuth tokens over time (authapp/grants.py, models.py, server.py, fakts_grants.py): issuing,
    rotating refresh tokens, detecting their reuse (section 4.14.2 of RFC 9700), revoking, and
    pruning what has expired. A refresh is one step. */
module Tokens {
  import opened Rows

  const REFRESH_TOKEN_LIFETIME := 2592000
  const REFRESH_CHAIN_MAX_LIFETIME := 15552000
  const ACCESS_TOKEN_EXPIRES_IN := 3600
  const MIN_ACCESS_TOKEN_EXPIRES_IN := 300
  const MAX_ACCESS_TOKEN_EXPIRES_IN := 86400
  const SCOPED_ACCESS_TOKEN_EXPIRES_IN := 900

  /** A token row. `root` is no column: it is the primary key of the row that its chain of
      refreshes began with. The code knows a chain by its client and the second it started in. */
  datatype Row = Row(
    client: string,
    refresh: Option<string>,
    revoked: bool,
    issuedAt: int,
    expiresIn: int,
    chain: int,
    root: int)

  datatype Table = Table(rows: map<int, Row>, nextPk: int, now: int)

  /** What the organization stored as its lifetime, and whether the client is a guest's. */
  datatype Policy = Policy(lifetime: Option<int>, scoped: bool)

  datatype Step =
    | Issue(client: string, refresh: Option<string>, policy: Policy)
    | Refresh(token: string, client: string, successor: string, policy: Policy)
    | Revoke(pk: int, client: string)
    | RevokeClients(clients: set<string>)
    | MandateKey(client: string, policy: Policy)
    | Cascade(pks: set<int>)
    | Tick(seconds: nat)

  function Max(a: int, b: int): int { if a < b then b else a }
  function Min(a: int, b: int): int { if a < b then a else b }

  /** `access_token_expires_in`: whatever the row says, the lifetime stays within its bounds. */
  function AccessTokenExpiresIn(policy: Policy): (seconds: int)
    ensures MIN_ACCESS_TOKEN_EXPIRES_IN <= seconds <= MAX_ACCESS_TOKEN_EXPIRES_IN
    ensures policy.scoped ==> seconds <= SCOPED_ACCESS_TOKEN_EXPIRES_IN
    ensures !policy.scoped && policy.lifetime.Some?
            && MIN_ACCESS_TOKEN_EXPIRES_IN <= policy.lifetime.value <= MAX_ACCESS_TOKEN_EXPIRES_IN
            ==> seconds == policy.lifetime.value
    ensures !policy.scoped && (policy.lifetime.None? || policy.lifetime.value == 0) ==>
        seconds == ACCESS_TOKEN_EXPIRES_IN
    ensures seconds == ExactSeconds(if policy.lifetime.Some? then policy.lifetime.value else 0, policy.scoped)
  {
    var lifetime := if policy.lifetime.Some? && policy.lifetime.value != 0
                    then Max(MIN_ACCESS_TOKEN_EXPIRES_IN, Min(policy.lifetime.value, MAX_ACCESS_TOKEN_EXPIRES_IN))
                    else ACCESS_TOKEN_EXPIRES_IN;
    if policy.scoped then Min(lifetime, SCOPED_ACCESS_TOKEN_EXPIRES_IN) else lifetime
  }

  /** An hour where nothing is set; otherwise what is set, from five minutes to a day; and at most a
      quarter of an hour for a guest's client. */
  function ExactSeconds(stored: int, scoped: bool): int {
    if scoped then (if stored == 0 || stored > 900 then 900 else if stored < 300 then 300 else stored)
    else if stored == 0 then 3600
    else if stored < 300 then 300
    else if stored > 86400 then 86400
    else stored
  }

  /** `OAuth2Token.validate` */
  predicate Valid(row: Row, now: int) { !row.revoked && row.issuedAt + row.expiresIn >= now }

  predicate Expired(row: Row, now: int) { row.issuedAt + row.expiresIn < now }

  /** `is_refresh_token_active` */
  predicate Active(row: Row, now: int) {
    !row.revoked && row.issuedAt + REFRESH_TOKEN_LIFETIME >= now && row.chain + REFRESH_CHAIN_MAX_LIFETIME >= now
  }

  predicate InChain(row: Row, client: string, chain: int) { row.client == client && row.chain == chain }

  /** Refresh tokens are unique; none is stored as the empty string. */
  predicate MayStore(t: Table, refresh: Option<string>) {
    refresh.Some? ==> refresh.value != "" && forall pk :: pk in t.rows ==> t.rows[pk].refresh != refresh
  }

  function NewRow(t: Table, client: string, refresh: Option<string>, policy: Policy): Row {
    Row(client, refresh, false, t.now, AccessTokenExpiresIn(policy), t.now, t.nextPk)
  }

  function Stored(t: Table, row: Row): Table { t.(rows := t.rows[t.nextPk := row], nextPk := t.nextPk + 1) }

  predicate Presents(t: Table, pk: int,
                     token: string) { token != "" && pk in t.rows && t.rows[pk].refresh == Some(token) }

  ghost function Presented(t: Table, token: string): Option<int> {
    if pk :| Presents(t, pk, token) then Some(pk) else None
  }

  function ChainRevoked(rows: map<int, Row>, client: string, chain: int): map<int, Row> {
    map pk | pk in rows :: if InChain(rows[pk], client, chain) then rows[pk].(revoked := true) else rows[pk]
  }

  /** The refresh token that was presented is spent and its successor stored. */
  function Rotated(t: Table, pk: int, client: string, successor: string, policy: Policy): Table
    requires pk in t.rows
  {
    var was := t.rows[pk];
    var t1 := Stored(t, NewRow(t, client, Some(successor), policy).(chain := was.chain, root := was.root));
    t1.(rows := t1.rows[pk := was.(revoked := true)])
  }

  ghost function Refreshed(t: Table, p: Step): Table
    requires p.Refresh?
  {
    var found := Presented(t, p.token);
    if found.None? then t
    else
      var row := t.rows[found.value];
      if Active(row, t.now) then
        if row.client == p.client && MayStore(t, Some(p.successor))
        then Rotated(t, found.value, p.client, p.successor, p.policy)
        else t
      else if row.revoked then t.(rows := ChainRevoked(t.rows, row.client, row.chain))
      else t
  }

  predicate Prunable(row: Row, client: string, now: int) {
    row.client == client && row.refresh.None? && row.issuedAt < now - MAX_ACCESS_TOKEN_EXPIRES_IN
  }

  function Pruned(rows: map<int, Row>, client: string, now: int): map<int, Row> {
    map pk | pk in rows && !Prunable(rows[pk], client, now) :: rows[pk]
  }

  ghost function Next(t: Table, p: Step): Table {
    match p
    case Issue(client, refresh, policy) =>
      if MayStore(t, refresh) then Stored(t, NewRow(t, client, refresh, policy)) else t
    case Refresh(_, _, _, _) => Refreshed(t, p)
    case Revoke(pk, client) =>
      if pk in t.rows && t.rows[pk].client == client then t.(rows := t.rows[pk := t.rows[pk].(revoked := true)]) else t
    case RevokeClients(clients) =>
      t.(rows := map pk | pk in t.rows ::
        if t.rows[pk].client in clients then t.rows[pk].(revoked := true) else t.rows[pk])
    case MandateKey(client, policy) =>
      var t1 := Stored(t, NewRow(t, client, None, policy));
      t1.(rows := Pruned(t1.rows, client, t1.now))
    case Cascade(pks) => t.(rows := t.rows - pks)
    case Tick(seconds) => t.(now := t.now + seconds)
  }

  ghost function Run(t: Table, steps: seq<Step>): Table {
    if steps == [] then t else Next(Run(t, steps[..|steps| - 1]), steps[|steps| - 1])
  }

  // --- what every step keeps ----------------------------------------------------------------

  /** A row is issued after its chain began and before the chain's cap; its lifetime is in bounds. */
  ghost predicate RowOk(row: Row, pk: int, nextPk: int, now: int) {
    && row.root <= pk < nextPk && row.chain <= row.issuedAt <= now
    && row.issuedAt <= row.chain + REFRESH_CHAIN_MAX_LIFETIME
    && MIN_ACCESS_TOKEN_EXPIRES_IN <= row.expiresIn <= MAX_ACCESS_TOKEN_EXPIRES_IN
    && row.refresh != Some("")
  }

  /** Rows that descend from one issuing share its client and its start; at most one is unrevoked. */
  ghost predicate LineagesOk(rows: map<int, Row>) {
    forall a, b | a in rows && b in rows && rows[a].root == rows[b].root ::
      && rows[a].client == rows[b].client && rows[a].chain == rows[b].chain
      && (!rows[a].revoked && !rows[b].revoked ==> a == b)
  }

  ghost predicate RefreshUnique(rows: map<int, Row>) {
    forall a, b | a in rows && b in rows && rows[a].refresh.Some? && rows[a].refresh == rows[b].refresh :: a == b
  }

  ghost predicate TableOk(t: Table) {
    && (forall pk :: pk in t.rows ==> RowOk(t.rows[pk], pk, t.nextPk, t.now))
    && LineagesOk(t.rows) && RefreshUnique(t.rows)
  }

  /** Rows only lose validity, or go. */
  ghost predicate OnlyRevoked(before: map<int, Row>, after: map<int, Row>) {
    forall pk :: pk in after ==> pk in before && (after[pk] == before[pk] || after[pk] == before[pk].(revoked := true))
  }

  lemma RevokingKeepsOk(t: Table, rows: map<int, Row>)
    requires TableOk(t) && OnlyRevoked(t.rows, rows)
    ensures TableOk(t.(rows := rows))
  {
  }

  lemma StoringKeepsOk(t: Table, row: Row)
    requires TableOk(t) && MayStore(t, row.refresh)
    requires row.issuedAt == t.now && row.refresh != Some("")
    requires MIN_ACCESS_TOKEN_EXPIRES_IN <= row.expiresIn <= MAX_ACCESS_TOKEN_EXPIRES_IN
    requires row.chain <= row.issuedAt <= row.chain + REFRESH_CHAIN_MAX_LIFETIME && row.root <= t.nextPk
    requires forall pk | pk in t.rows && t.rows[pk].root == row.root ::
             t.rows[pk].client == row.client && t.rows[pk].chain == row.chain && t.rows[pk].revoked
    ensures TableOk(Stored(t, row))
  {
  }

  lemma RotatingKeepsOk(t: Table, pk: int, client: string, successor: string, policy: Policy)
    requires TableOk(t) && pk in t.rows && Active(t.rows[pk], t.now)
    requires t.rows[pk].client == client && MayStore(t, Some(successor))
    ensures TableOk(Rotated(t, pk, client, successor, policy))
  {
    var was := t.rows[pk];
    var spent := t.(rows := t.rows[pk := was.(revoked := true)]);
    RevokingKeepsOk(t, spent.rows);
    var row := NewRow(t, client, Some(successor), policy).(chain := was.chain, root := was.root);
    assert RowOk(was, pk, t.nextPk, t.now);
    StoringKeepsOk(spent, row);
    assert Rotated(t, pk, client, successor, policy) == Stored(spent, row);
  }

  lemma IssuingKeepsOk(t: Table, client: string, refresh: Option<string>, policy: Policy)
    requires TableOk(t) && MayStore(t, refresh)
    ensures TableOk(Stored(t, NewRow(t, client, refresh, policy)))
  {
    forall pk | pk in t.rows ensures t.rows[pk].root != t.nextPk { assert RowOk(t.rows[pk], pk, t.nextPk, t.now); }
    StoringKeepsOk(t, NewRow(t, client, refresh, policy));
  }

  lemma StepKeepsOk(t: Table, p: Step)
    requires TableOk(t)
    ensures TableOk(Next(t, p))
  {
    match p
    case Issue(client, refresh, policy) => if MayStore(t, refresh) { IssuingKeepsOk(t, client, refresh, policy); }
    case Refresh(token, client, successor, policy) => RefreshingKeepsOk(t, p);
    case Revoke(pk, client) => RevokingKeepsOk(t, Next(t, p).rows);
    case RevokeClients(_) => RevokingKeepsOk(t, Next(t, p).rows);
    case MandateKey(client, policy) =>
      IssuingKeepsOk(t, client, None, policy);
      RevokingKeepsOk(Stored(t, NewRow(t, client, None, policy)), Next(t, p).rows);
    case Cascade(_) => RevokingKeepsOk(t, Next(t, p).rows);
    case Tick(_) =>
  }

  lemma RefreshingKeepsOk(t: Table, p: Step)
    requires TableOk(t) && p.Refresh?
    ensures TableOk(Refreshed(t, p))
  {
    var found := Presented(t, p.token);
    if found.Some? {
      var row := t.rows[found.value];
      if Active(row, t.now) {
        if row.client == p.client && MayStore(t, Some(p.successor)) {
          RotatingKeepsOk(t, found.value, p.client, p.successor, p.policy);
        }
      } else if row.revoked {
        RevokingKeepsOk(t, ChainRevoked(t.rows, row.client, row.chain));
      }
    }
  }

  /** In every reachable state each chain of refreshes has at most one unrevoked row, one client
      and one start, and no row issued after the chain's cap. */
  lemma {:induction false} EveryRunKeepsTableOk(t: Table, steps: seq<Step>)
    requires TableOk(t)
    ensures TableOk(Run(t, steps))
  {
    if steps != [] {
      EveryRunKeepsTableOk(t, steps[..|steps| - 1]);
      StepKeepsOk(Run(t, steps[..|steps| - 1]), steps[|steps| - 1]);
    }
  }

  /** A session ends: no access token is valid later than the cap and one lifetime after its
      chain began. */
  lemma NoAccessPastTheCap(t: Table, steps: seq<Step>, pk: int)
    requires TableOk(t) && pk in Run(t, steps).rows
    requires Run(t, steps).now <= Run(t, steps).rows[pk].issuedAt + Run(t, steps).rows[pk].expiresIn
    ensures Run(t, steps).now <= Run(t, steps).rows[pk].chain + 15552000 + 86400
    ensures Run(t, steps).rows[pk].issuedAt <= Run(t, steps).rows[pk].chain + 15552000
  {
    EveryRunKeepsTableOk(t, steps);
    var t' := Run(t, steps);
    assert RowOk(t'.rows[pk], pk, t'.nextPk, t'.now);
  }

  /** Every later row of a chain has its client and its start, whatever became of the earlier rows. */
  lemma {:induction false} StartIsConstant(t: Table, steps: seq<Step>, pk: int, q: int)
    requires TableOk(t) && pk in t.rows && q in Run(t, steps).rows && Run(t, steps).rows[q].root == t.rows[pk].root
    ensures Run(t, steps).rows[q].client == t.rows[pk].client && Run(t, steps).rows[q].chain == t.rows[pk].chain
  {
    if steps != [] {
      var front, last := steps[..|steps| - 1], steps[|steps| - 1];
      EveryRunKeepsTableOk(t, front);
      NextPkGrows(t, front);
      assert RowOk(t.rows[pk], pk, t.nextPk, t.now);
      var parent := Parent(Run(t, front), last, q);
      StartIsConstant(t, front, pk, parent);
    }
  }

  /** Where a row of an existing chain comes from: it was there, or it succeeds one that was. */
  lemma Parent(t: Table, p: Step, q: int) returns (parent: int)
    requires TableOk(t) && q in Next(t, p).rows && Next(t, p).rows[q].root < t.nextPk
    ensures parent in t.rows
    ensures var row, row' := t.rows[parent], Next(t, p).rows[q];
            row.root == row'.root && row.client == row'.client && row.chain == row'.chain
  {
    if q in t.rows && q != t.nextPk {
      parent := q;
    } else {
      parent := Presented(t, p.token).value;
    }
  }

  lemma {:induction false} NextPkGrows(t: Table, steps: seq<Step>)
    ensures Run(t, steps).nextPk >= t.nextPk && Run(t, steps).now >= t.now
  {
    if steps != [] { NextPkGrows(t, steps[..|steps| - 1]); }
  }

  // --- when a refresh answers ---------------------------------------------------------------

  /** An unrevoked row with this refresh token, of this client, issued at most thirty days ago in a
      chain begun at most 180 days ago. */
  ghost predicate Refreshable(row: Row, token: string, client: string, now: int) {
    && row.refresh == Some(token) && row.client == client && !row.revoked
    && now <= row.issuedAt + 2592000 && now <= row.chain + 15552000
  }

  /** A refresh stores a successor exactly when there is such a row; the row is then revoked, the
      successor has its client, its chain and a new lifetime, and every other row is as it was. */
  lemma RefreshesExactlyWhen(t: Table, p: Step)
    requires TableOk(t) && p.Refresh? && p.token != "" && MayStore(t, Some(p.successor))
    ensures t.nextPk in Next(t, p).rows <==>
              exists pk :: pk in t.rows && Refreshable(t.rows[pk], p.token, p.client, t.now)
    ensures forall pk | pk in t.rows && Refreshable(t.rows[pk], p.token, p.client, t.now) ::
              var row, seconds := t.rows[pk], AccessTokenExpiresIn(p.policy);
              Next(t, p).rows == t.rows[pk := row.(revoked := true)]
                [t.nextPk := Row(p.client, Some(p.successor), false, t.now, seconds, row.chain, row.root)]
  {
    forall pk | pk in t.rows ensures pk != t.nextPk { assert RowOk(t.rows[pk], pk, t.nextPk, t.now); }
    forall pk | pk in t.rows && Refreshable(t.rows[pk], p.token, p.client, t.now)
      ensures Presented(t, p.token) == Some(pk)
    {
      assert Presents(t, pk, p.token);
    }
  }

  /** A refresh token that is too old, or whose chain is, or that is another client's, changes
      nothing; nor does one nobody has. */
  lemma StaleRefreshChangesNothing(t: Table, p: Step)
    requires TableOk(t) && p.Refresh?
    requires forall pk | pk in t.rows && t.rows[pk].refresh == Some(p.token) ::
               && !t.rows[pk].revoked
               && (|| t.now > t.rows[pk].issuedAt + 2592000 || t.now > t.rows[pk].chain + 15552000
                   || t.rows[pk].client != p.client)
    ensures Next(t, p) == t
  {
  }

  // --- reuse --------------------------------------------------------------------------------

  /** No row of the chain, as the code knows chains, is unrevoked. */
  ghost predicate Dead(t: Table, client: string, chain: int) {
    forall pk :: pk in t.rows && InChain(t.rows[pk], client, chain) ==> t.rows[pk].revoked
  }

  /** No row descending from this issuing is unrevoked. */
  ghost predicate LineageDead(t: Table, root: int) {
    forall pk :: pk in t.rows && t.rows[pk].root == root ==> t.rows[pk].revoked
  }

  /** Presenting a revoked refresh token, by whichever client, leaves nothing of its chain alive, and
      touches no row of another client or another second. */
  lemma ReplayKillsTheChain(t: Table, pk: int, p: Step)
    requires TableOk(t) && p.Refresh? && Presents(t, pk, p.token) && t.rows[pk].revoked
    ensures Dead(Next(t, p), t.rows[pk].client, t.rows[pk].chain) && LineageDead(Next(t, p), t.rows[pk].root)
    ensures Next(t, p).rows.Keys == t.rows.Keys && Next(t, p).nextPk == t.nextPk && Next(t, p).now == t.now
    ensures forall q :: q in t.rows ==>
              Next(t, p).rows[q] == if t.rows[q].client == t.rows[pk].client && t.rows[q].chain == t.rows[pk].chain
                                    then t.rows[q].(revoked := true) else t.rows[q]
  {
    assert Presented(t, p.token) == Some(pk);
    forall q | q in t.rows && t.rows[q].root == t.rows[pk].root
      ensures InChain(t.rows[q], t.rows[pk].client, t.rows[pk].chain) {}
  }

  /** A new chain of the client begins in this second. */
  ghost predicate Issues(t: Table, p: Step, client: string, second: int) {
    && t.now == second
    && ((p.Issue? && p.client == client && MayStore(t, p.refresh)) || (p.MandateKey? && p.client == client))
  }

  /** A dead chain, as the code knows chains, stays dead exactly when the client begins no other in
      the same second. */
  lemma StepKeepsDeadExactlyWhen(t: Table, p: Step, client: string, chain: int)
    requires TableOk(t) && Dead(t, client, chain)
    ensures Dead(Next(t, p), client, chain) <==> !Issues(t, p, client, chain)
  {
    if Issues(t, p, client, chain) {
      assert t.nextPk in Next(t, p).rows && InChain(Next(t, p).rows[t.nextPk], client, chain);
    }
  }

  lemma StepKeepsLineageDead(t: Table, p: Step, root: int)
    requires TableOk(t) && LineageDead(t, root) && root < t.nextPk
    ensures LineageDead(Next(t, p), root) && root < Next(t, p).nextPk
  {
  }

  /** A dead chain stays dead, whatever is presented, issued or refreshed later. */
  lemma {:induction false} DeadForGood(t: Table, steps: seq<Step>, root: int)
    requires TableOk(t) && LineageDead(t, root) && root < t.nextPk
    ensures LineageDead(Run(t, steps), root) && root < Run(t, steps).nextPk
  {
    if steps != [] {
      var front := steps[..|steps| - 1];
      DeadForGood(t, front, root);
      EveryRunKeepsTableOk(t, front);
      StepKeepsLineageDead(Run(t, front), steps[|steps| - 1], root);
    }
  }

  /** How many chains the client begins in this second of the run. */
  ghost function Issuings(t: Table, steps: seq<Step>, client: string, second: int): nat {
    if steps == [] then 0
    else var front := steps[..|steps| - 1];
      Issuings(t, front, client, second) + if Issues(Run(t, front), steps[|steps| - 1], client, second) then 1 else 0
  }

  /** The chain is dead in every state of the run. */
  ghost predicate AlwaysDead(t: Table, steps: seq<Step>, client: string, chain: int) {
    Dead(Run(t, steps), client, chain) && (steps != [] ==> AlwaysDead(t, steps[..|steps| - 1], client, chain))
  }

  /** Everything the client started in one second, once dead, stays dead through a run exactly when
      the client begins no chain in that second again; which it cannot once the second is over. */
  lemma {:induction false} ChainDeadForGood(t: Table, steps: seq<Step>, client: string, chain: int)
    requires TableOk(t) && Dead(t, client, chain)
    ensures AlwaysDead(t, steps, client, chain) <==> Issuings(t, steps, client, chain) == 0
    ensures chain < t.now ==> Issuings(t, steps, client, chain) == 0
  {
    if steps != [] {
      var front := steps[..|steps| - 1];
      ChainDeadForGood(t, front, client, chain);
      EveryRunKeepsTableOk(t, front);
      NextPkGrows(t, front);
      if AlwaysDead(t, front, client, chain) {
        StepKeepsDeadExactlyWhen(Run(t, front), steps[|steps| - 1], client, chain);
      }
    }
  }

  ghost predicate OneLive(t: Table, client: string, chain: int) {
    forall a, b |
      a in t.rows && b in t.rows && InChain(t.rows[a], client, chain) && InChain(t.rows[b], client, chain) ::
      !t.rows[a].revoked && !t.rows[b].revoked ==> a == b
  }

  /** A chain, as the code knows chains, goes on having at most one unrevoked row exactly when a
      client that begins another in the same second has none left. */
  lemma StepKeepsOneLiveExactlyWhen(t: Table, p: Step, client: string, chain: int)
    requires TableOk(t) && OneLive(t, client, chain)
    ensures OneLive(Next(t, p), client, chain) <==> (Issues(t, p, client, chain) ==> Dead(t, client, chain))
  {
    if Issues(t, p, client, chain) {
      IssuingBesides(t, p, client);
    } else {
      OtherStepsKeepOneLive(t, p, client, chain);
    }
  }

  /** What is issued comes besides every row of its second: none of these is old enough to prune. */
  lemma IssuingBesides(t: Table, p: Step, client: string)
    requires TableOk(t) && OneLive(t, client, t.now) && Issues(t, p, client, t.now)
    ensures OneLive(Next(t, p), client, t.now) <==> Dead(t, client, t.now)
  {
    var t' := Next(t, p);
    forall pk | pk in t.rows && InChain(t.rows[pk], client, t.now)
      ensures pk != t.nextPk && pk in t'.rows && t'.rows[pk] == t.rows[pk]
    {
      assert RowOk(t.rows[pk], pk, t.nextPk, t.now);
    }
    assert t.nextPk in t'.rows && InChain(t'.rows[t.nextPk], client, t.now) && !t'.rows[t.nextPk].revoked;
    if Dead(t, client, t.now) {
      forall pk | pk in t'.rows && InChain(t'.rows[pk], client, t.now) && !t'.rows[pk].revoked ensures pk == t.nextPk {}
    }
  }

  lemma OtherStepsKeepOneLive(t: Table, p: Step, client: string, chain: int)
    requires TableOk(t) && OneLive(t, client, chain) && !Issues(t, p, client, chain)
    ensures OneLive(Next(t, p), client, chain)
  {
    var t' := Next(t, p);
    forall pk | pk in t'.rows && InChain(t'.rows[pk], client, chain) && !t'.rows[pk].revoked
      ensures (pk in t.rows && t'.rows[pk] == t.rows[pk]) || (p.Refresh? && pk == t.nextPk)
    {
    }
  }

  /** Whenever the client begins a chain in this second of the run, the ones before are dead. */
  ghost predicate BeginsOnlyWhenDead(t: Table, steps: seq<Step>, client: string, chain: int) {
    steps != [] ==> var front := steps[..|steps| - 1];
      && BeginsOnlyWhenDead(t, front, client, chain)
      && (Issues(Run(t, front), steps[|steps| - 1], client, chain) ==> Dead(Run(t, front), client, chain))
  }

  ghost predicate AlwaysOneLive(t: Table, steps: seq<Step>, client: string, chain: int) {
    OneLive(Run(t, steps), client, chain) && (steps != [] ==> AlwaysOneLive(t, steps[..|steps| - 1], client, chain))
  }

  /** Over a run a chain, as the code knows chains, has at most one unrevoked row throughout exactly
      when the client never begins another in its second while one lives; so it does when the
      client begins at most one there. */
  lemma {:induction false} OneLiveExactlyWhen(t: Table, steps: seq<Step>, client: string, chain: int)
    requires TableOk(t) && OneLive(t, client, chain)
    ensures AlwaysOneLive(t, steps, client, chain) <==> BeginsOnlyWhenDead(t, steps, client, chain)
    ensures Dead(t, client, chain) && Issuings(t, steps, client, chain) <= 1 ==>
        BeginsOnlyWhenDead(t, steps, client, chain)
  {
    if steps != [] {
      var front := steps[..|steps| - 1];
      OneLiveExactlyWhen(t, front, client, chain);
      EveryRunKeepsTableOk(t, front);
      if AlwaysOneLive(t, front, client, chain) {
        StepKeepsOneLiveExactlyWhen(Run(t, front), steps[|steps| - 1], client, chain);
      }
      if Dead(t, client, chain) { ChainDeadForGood(t, front, client, chain); }
    }
  }

  /** Revoking a token, by the client it was issued to, revokes that row and no other; revoking
      clients revokes their rows and no others. */
  lemma RevokedRows(t: Table, p: Step)
    requires p.Revoke? || p.RevokeClients?
    ensures Next(t, p).rows.Keys == t.rows.Keys && Next(t, p).nextPk == t.nextPk && Next(t, p).now == t.now
    ensures forall q :: q in t.rows ==>
              var hit := if p.Revoke? then q == p.pk && t.rows[q].client == p.client else t.rows[q].client in p.clients;
              Next(t, p).rows[q] == if hit then t.rows[q].(revoked := true) else t.rows[q]
  {
  }

  /** Two issuings of one client in one second are one chain to the code, with two live rows. */
  lemma TwoIssuedInOneSecond()
    ensures var t := Run(Table(map[], 0, 0),
            [Issue("app", Some("a"), Policy(None, false)), Issue("app", Some("b"), Policy(None, false))]);
            && 0 in t.rows && 1 in t.rows && InChain(t.rows[0], "app", 0) && InChain(t.rows[1], "app", 0)
            && !t.rows[0].revoked && !t.rows[1].revoked
  {
    var t0 := Table(map[], 0, 0);
    var a, b := Issue("app", Some("a"), Policy(None, false)), Issue("app", Some("b"), Policy(None, false));
    assert [a][..0] == [] && [a, b][..1] == [a];
    assert Run(t0, []) == t0;
    var t1 := Next(t0, a);
    assert Run(t0, [a]) == t1;
    assert Some("a") != Some("b");
    assert Run(t0, [a, b]) == Next(t1, b);
  }

  // --- pruning ------------------------------------------------------------------------------

  /** In any reachable state the mandate-key grant deletes exactly this client's rows without a refresh
      token that were issued over a day ago, whose access tokens have all expired, and adds one. */
  lemma PruneDeletesOnlyExpired(t: Table, steps: seq<Step>, client: string, policy: Policy)
    requires TableOk(t)
    ensures var t1 := Run(t, steps); var t2 := Next(t1, MandateKey(client, policy));
            && (forall pk :: pk in t1.rows && pk !in t2.rows ==> t1.rows[pk].issuedAt + t1.rows[pk].expiresIn < t1.now)
            && (forall pk :: pk in t1.rows ==>
                  (pk !in t2.rows <==>
                     && t1.rows[pk].client == client && t1.rows[pk].refresh.None?
                     && t1.rows[pk].issuedAt < t1.now - 86400))
            && (forall pk :: pk in t1.rows && pk in t2.rows ==> t2.rows[pk] == t1.rows[pk])
            && (forall pk :: pk in t2.rows && t2.rows[pk].client == client && t2.rows[pk].refresh.None? ==>
                  t2.rows[pk].issuedAt >= t2.now - 86400)
            && t2.rows.Keys <= t1.rows.Keys + {t1.nextPk} && t1.nextPk in t2.rows
            && t2.rows[t1.nextPk] == Row(client, None, false, t1.now, AccessTokenExpiresIn(policy), t1.now, t1.nextPk)
  {
    EveryRunKeepsTableOk(t, steps);
    var t1 := Run(t, steps);
    forall pk | pk in t1.rows ensures pk != t1.nextPk && t1.rows[pk].expiresIn <= MAX_ACCESS_TOKEN_EXPIRES_IN {
      assert RowOk(t1.rows[pk], pk, t1.nextPk, t1.now);
    }
  }
}

/** The token endpoint's methods on the table, row by row. */
module TokenEndpoint {
  import opened Rows
  import opened Tokens

  class Store {
    var rows: map<int, Row>
    var nextPk: int
    var now: int

    function Value(): Table
      reads this
    {
      Table(rows, nextPk, now)
    }

    constructor (now: int)
      ensures Value() == Table(map[], 0, now) && TableOk(Value())
    {
      rows, nextPk, this.now := map[], 0, now;
    }

    /** `save_token` */
    method SaveToken(client: string, refresh: Option<string>, policy: Policy) returns (pk: Option<int>)
      requires TableOk(Value())
      modifies this`rows, this`nextPk
      ensures Value() == Next(old(Value()), Issue(client, refresh, policy))
      ensures pk == if MayStore(old(Value()), refresh) then Some(old(nextPk)) else None
      ensures pk.Some? ==> nextPk == pk.value + 1 && rows == old(rows)[pk.value :=
                Row(client, refresh, false, now, AccessTokenExpiresIn(policy), now, pk.value)]
      ensures pk.None? ==> rows == old(rows) && nextPk == old(nextPk)
      ensures pk.None? <==>
                refresh == Some("") || (refresh.Some? && exists q :: q in old(rows) && old(rows)[q].refresh == refresh)
    {
      if refresh.Some? && (refresh.value == "" || exists pk :: pk in rows && rows[pk].refresh == refresh) {
        return None;
      }
      pk := Some(nextPk);
      rows, nextPk :=
          rows[nextPk := Row(client, refresh, false, now, AccessTokenExpiresIn(policy), now, nextPk)], nextPk + 1;
    }

    /** `authenticate_refresh_token`: the active row, or nothing; a revoked one takes its chain along. */
    method AuthenticateRefreshToken(token: string) returns (found: Option<int>)
      requires TableOk(Value())
      modifies this`rows
      ensures found.Some? ==> found == Presented(old(Value()), token) && rows == old(rows)
      ensures found.Some? ==> found.value in rows && Active(rows[found.value], now)
      ensures found.Some? <==> token != "" && exists pk ::
                pk in old(rows) && Refreshable(old(rows)[pk], token, old(rows)[pk].client, now)
      ensures found.None? ==> forall client, successor, policy ::
              Value() == Refreshed(old(Value()), Refresh(token, client, successor, policy))
    {
      if token == "" || !exists pk :: pk in rows && rows[pk].refresh == Some(token) {
        assert forall pk :: !Presents(Value(), pk, token);
        return None;
      }
      var pk :| pk in rows && rows[pk].refresh == Some(token);
      assert Presents(Value(), pk, token);
      var item := rows[pk];
      if Active(item, now) { return Some(pk); }
      if item.revoked {
        rows := ChainRevoked(rows, item.client, item.chain);
      }
      return None;
    }

    /** The new row is stored with a new start, the old one revoked, and then the start is carried
        over. */
    method Rotate(pk: int, client: string, successor: string, policy: Policy) returns (answer: Option<int>)
      requires TableOk(Value()) && pk in rows
      modifies this`rows, this`nextPk
      ensures answer == if MayStore(old(Value()), Some(successor)) then Some(old(nextPk)) else None
      ensures Value() == if answer.Some? then Rotated(old(Value()), pk, client, successor, policy) else old(Value())
    {
      var spent := rows[pk];
      assert RowOk(spent, pk, nextPk, now);
      answer := SaveToken(client, Some(successor), policy);
      if answer.None? { return; }
      rows := rows[pk := rows[pk].(revoked := true)];
      rows := rows[answer.value := rows[answer.value].(chain := spent.chain, root := spent.root)];
    }

    /** A refresh: the token presented is checked, then rotated. */
    method CreateRefreshResponse(token: string, client: string, successor: string, policy: Policy)
      returns (answer: Option<int>)
      requires TableOk(Value())
      modifies this`rows, this`nextPk
      ensures Value() == Next(old(Value()), Refresh(token, client, successor, policy))
      ensures answer.Some? ==> answer.value in rows && Active(rows[answer.value], now)
      ensures answer.Some? ==> rows[answer.value].refresh == Some(successor)
      ensures answer.Some? <==>
                && token != "" && MayStore(old(Value()), Some(successor))
                && exists pk :: pk in old(rows) && Refreshable(old(rows)[pk], token, client, now)
    {
      var found := AuthenticateRefreshToken(token);
      if found.None? || rows[found.value].client != client { return None; }
      assert RowOk(rows[found.value], found.value, nextPk, now);
      answer := Rotate(found.value, client, successor, policy);
    }

    /** The mandate-key grant: a token without a refresh token, then the prune. */
    method CreateMandateKeyResponse(client: string, policy: Policy) returns (pk: int)
      requires TableOk(Value())
      modifies this`rows, this`nextPk
      ensures Value() == Next(old(Value()), MandateKey(client, policy)) && pk == old(nextPk)
    {
      var saved := SaveToken(client, None, policy);
      pk := saved.value;
      rows := Pruned(rows, client, now);
    }
  }
}
