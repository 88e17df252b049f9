/** Exchanging authorization codes for tokens (authapp/grants.py) as an interleaved protocol: any
    number of requests, each with its own program counter, over one database. A code is to be
    used once (section 4.1.2 of RFC 6749) and a nonce accepted once per client. */
module AuthorizationCodes {
  import opened Rows

  const CODE_LIFETIME := 600

  /** A code, issued for a membership. */
  datatype CodeRow = CodeRow(code: string, client: string, member: int, nonce: Option<string>, authTime: int)

  /** A stored token pair: the exchange that stored it, the code it was stored for, and the
      membership it is of. */
  datatype TokenRow = TokenRow(exchange: int, code: int, member: int)

  /** The tables: codes by primary key (never reused), spent nonces by client, token rows by the
      exchange that stored them, the memberships deleted so far, and the clock. */
  datatype Db = Db(
    codes: map<int, CodeRow>,
    used: set<(string, string)>,
    tokens: set<TokenRow>,
    deleted: set<int>,
    nextPk: int,
    now: int)

  const EMPTY := Db(map[], {}, {}, {}, 0, 0)

  /** How far a token request has come with the code row it read, if it found one. `Saved` has
      stored its tokens, `Answered` has returned them. */
  datatype Exchange =
    | Refused
    | Failed(pk: int, row: CodeRow)
    | Claimed(pk: int, row: CodeRow)
    | Authenticated(pk: int, row: CodeRow)
    | Saved(pk: int, row: CodeRow)
    | Answered(pk: int, row: CodeRow)

  datatype State = State(db: Db, exchanges: map<int, Exchange>)

  datatype Step =
    | Authorize(code: string, client: string, member: int, nonce: Option<string>)
    | Begin(x: int, code: string, client: string)
    | RecordNonce(x: int)
    | SaveToken(x: int)
    | Delete(x: int)
    | Fail(x: int)
    | Cascade(member: int)
    | Tick(seconds: nat)

  // --- the operations of the grant on the tables --------------------------------------------

  predicate HasNonce(nonce: Option<string>) { nonce.Some? && nonce.value != "" }

  predicate Carries(db: Db, pk: int, client: string, nonce: string) {
    pk in db.codes && db.codes[pk].client == client && db.codes[pk].nonce == Some(nonce)
  }

  /** `exists_nonce`: a live code carries it, or it was spent. */
  ghost predicate ExistsNonce(db: Db, client: string, nonce: string) {
    (exists pk :: Carries(db, pk, client, nonce)) || (client, nonce) in db.used
  }

  /** A request without a nonce is not checked; a code must be new and its membership there. */
  ghost predicate MayAuthorize(db: Db, code: string, client: string, member: int, nonce: Option<string>) {
    && member !in db.deleted
    && (HasNonce(nonce) ==> !ExistsNonce(db, client, nonce.value))
    && forall pk :: pk in db.codes ==> db.codes[pk].code != code
  }

  function WithCode(db: Db, code: string, client: string, member: int, nonce: Option<string>): Db {
    db.(codes := db.codes[db.nextPk := CodeRow(code, client, member, nonce, db.now)], nextPk := db.nextPk + 1)
  }

  /** A membership's deletion takes its codes and its tokens along. */
  function WithoutMember(db: Db, member: int): Db {
    db.(codes := map pk | pk in db.codes && db.codes[pk].member != member :: db.codes[pk],
        tokens := (set t | t in db.tokens && t.member != member),
        deleted := db.deleted + {member})
  }

  predicate Expired(row: CodeRow, now: int) { now > row.authTime + CODE_LIFETIME }

  /** The row `query_authorization_code` hands to the exchange. */
  predicate Claimable(db: Db, code: string, client: string, pk: int) {
    && pk in db.codes && db.codes[pk].code == code && db.codes[pk].client == client
    && !Expired(db.codes[pk], db.now)
  }

  ghost function Queried(db: Db, code: string, client: string): Exchange {
    if pk :| Claimable(db, code, client, pk) then Claimed(pk, db.codes[pk]) else Refused
  }

  function Recorded(db: Db, row: CodeRow): Db {
    if HasNonce(row.nonce) then db.(used := db.used + {(row.client, row.nonce.value)}) else db
  }

  // --- the protocol -------------------------------------------------------------------------

  /** The exchange stands where the step `p` takes it on. */
  predicate Ready(s: State, p: Step)
    requires p.RecordNonce? || p.SaveToken? || p.Delete?
  {
    && p.x in s.exchanges
    && match p
       case RecordNonce(x) => s.exchanges[x].Claimed?
       case SaveToken(x) => s.exchanges[x].Authenticated?
       case Delete(x) => s.exchanges[x].Saved?
  }

  ghost function Next(s: State, p: Step): State {
    match p
    case Authorize(code, client, member, nonce) =>
      if MayAuthorize(s.db, code, client, member, nonce)
      then s.(db := WithCode(s.db, code, client, member, nonce))
      else s
    case Begin(x, code, client) =>
      if x in s.exchanges then s else s.(exchanges := s.exchanges[x := Queried(s.db, code, client)])
    case RecordNonce(x) =>
      if !Ready(s, p) then s else
        var e := s.exchanges[x];
        State(Recorded(s.db, e.row), s.exchanges[x := Authenticated(e.pk, e.row)])
    case SaveToken(x) =>
      if !Ready(s, p) then s else
        var e := s.exchanges[x];
        if e.row.member in s.db.deleted then s.(exchanges := s.exchanges[x := Failed(e.pk, e.row)])
        else
          State(s.db.(tokens := s.db.tokens + {TokenRow(x, e.pk, e.row.member)}), s.exchanges[x := Saved(e.pk, e.row)])
    case Delete(x) =>
      if !Ready(s, p) then s else
        var e := s.exchanges[x];
        State(s.db.(codes := s.db.codes - {e.pk}),
              s.exchanges[x := if e.pk in s.db.codes then Answered(e.pk, e.row) else Failed(e.pk, e.row)])
    case Fail(x) =>
      if x in s.exchanges && !s.exchanges[x].Answered? && !s.exchanges[x].Refused?
      then s.(exchanges := s.exchanges[x := Failed(s.exchanges[x].pk, s.exchanges[x].row)])
      else s
    case Cascade(member) => s.(db := WithoutMember(s.db, member))
    case Tick(seconds) => s.(db := s.db.(now := s.db.now + seconds))
  }

  ghost function Run(s: State, steps: seq<Step>): State {
    if steps == [] then s else Next(Run(s, steps[..|steps| - 1]), steps[|steps| - 1])
  }

  // --- what every step keeps ----------------------------------------------------------------

  ghost predicate CodesOk(db: Db) {
    && (forall pk :: pk in db.codes ==> pk < db.nextPk && db.codes[pk].member !in db.deleted)
    && (forall a, b :: a in db.codes && b in db.codes && db.codes[a].code == db.codes[b].code ==> a == b)
  }

  /** An exchange holds the row it read, for its own client; past authentication its nonce is
      recorded; one that answered has removed its code. */
  ghost predicate ExchangeOk(db: Db, e: Exchange) {
    e.Refused? || (
      && e.pk < db.nextPk
      && (e.pk in db.codes ==> db.codes[e.pk] == e.row)
      && (HasNonce(e.row.nonce) && !e.Claimed? && !e.Failed? ==> (e.row.client, e.row.nonce.value) in db.used)
      && (e.Answered? ==> e.pk !in db.codes))
  }

  /** No two exchanges answered with the same code. */
  ghost predicate AnsweredOnce(s: State) {
    forall x, y | x in s.exchanges && y in s.exchanges && s.exchanges[x].Answered? && s.exchanges[y].Answered? ::
      s.exchanges[x].pk == s.exchanges[y].pk ==> x == y
  }

  /** The exchange has a token row. */
  ghost predicate HasStored(db: Db, x: int) { exists t :: t in db.tokens && t.exchange == x }

  /** The token rows are those of the exchanges that came to store them, one each, for their code
      and of a membership that is there. */
  ghost predicate TokensOk(s: State) {
    && (forall t :: t in s.db.tokens ==> TokenOk(s, t))
    && (forall x :: x in s.exchanges && (s.exchanges[x].Saved? || s.exchanges[x].Answered?) && HasMember(s, x) ==>
          HasStored(s.db, x))
  }

  ghost predicate TokenOk(s: State, t: TokenRow) {
    && HasMember(s, t.exchange) && var e := s.exchanges[t.exchange];
    && !e.Claimed? && !e.Authenticated? && t == TokenRow(t.exchange, e.pk, e.row.member)
  }

  /** The exchange read a code whose membership is not deleted. */
  ghost predicate HasMember(s: State, x: int) {
    x in s.exchanges && !s.exchanges[x].Refused? && s.exchanges[x].row.member !in s.db.deleted
  }

  ghost predicate Ok(s: State) {
    && CodesOk(s.db) && AnsweredOnce(s) && TokensOk(s)
    && forall x :: x in s.exchanges ==> ExchangeOk(s.db, s.exchanges[x])
  }

  lemma StepKeepsExchanges(s: State, p: Step)
    requires Ok(s)
    ensures var s' := Next(s, p);
            && CodesOk(s'.db) && AnsweredOnce(s')
            && forall x :: x in s'.exchanges ==> ExchangeOk(s'.db, s'.exchanges[x])
  {
    if p.Delete? && Ready(s, p) && s.exchanges[p.x].pk in s.db.codes {
      forall y | y in s.exchanges && s.exchanges[y].Answered? ensures s.exchanges[y].pk != s.exchanges[p.x].pk {
        assert ExchangeOk(s.db, s.exchanges[y]);
      }
    }
  }

  lemma StepKeepsTokens(s: State, p: Step)
    requires TokensOk(s)
    ensures TokensOk(Next(s, p))
  {
    var s' := Next(s, p);
    forall t | t in s'.db.tokens ensures TokenOk(s', t) {
      if t in s.db.tokens { assert TokenOk(s, t); }
    }
    forall x | x in s'.exchanges && (s'.exchanges[x].Saved? || s'.exchanges[x].Answered?) && HasMember(s', x)
      ensures HasStored(s'.db, x)
    {
      StepStores(s, p, x);
    }
  }

  /** The exchange is authenticated for a membership that is there, and saves its tokens. */
  ghost predicate Saves(s: State, p: Step, x: int) { p == SaveToken(x) && Ready(s, p) && HasMember(s, x) }

  lemma StepStores(s: State, p: Step, x: int)
    requires TokensOk(s)
    ensures HasStored(Next(s, p).db, x) <==> (HasStored(s.db, x) || Saves(s, p, x)) && HasMember(Next(s, p), x)
  {
    var s' := Next(s, p);
    if HasStored(s.db, x) {
      var t :| t in s.db.tokens && t.exchange == x;
      assert TokenOk(s, t);
      assert HasMember(s', x) ==> t in s'.db.tokens;
    }
    if HasStored(s'.db, x) {
      var t :| t in s'.db.tokens && t.exchange == x;
      if t in s.db.tokens { assert TokenOk(s, t); }
    }
    if Saves(s, p, x) { assert TokenRow(x, s.exchanges[x].pk, s.exchanges[x].row.member) in s'.db.tokens; }
  }

  lemma StepKeepsOk(s: State, p: Step)
    requires Ok(s)
    ensures Ok(Next(s, p))
  {
    StepKeepsExchanges(s, p);
    StepKeepsTokens(s, p);
  }

  /** Under every interleaving of any number of exchanges, expiries and deletions: at most one
      exchange of a code answers with tokens. */
  lemma {:induction false} CodeAnswersOnce(s: State, steps: seq<Step>)
    requires Ok(s)
    ensures Ok(Run(s, steps)) && AnsweredOnce(Run(s, steps))
  {
    if steps != [] {
      CodeAnswersOnce(s, steps[..|steps| - 1]);
      StepKeepsOk(Run(s, steps[..|steps| - 1]), steps[|steps| - 1]);
    }
  }

  /** A code that was answered is gone for good: no later exchange can claim or answer with it. */
  lemma {:induction false} AnsweredCodeIsDead(s: State, steps: seq<Step>, x: int)
    requires Ok(s) && x in s.exchanges && s.exchanges[x].Answered?
    ensures var s' := Run(s, steps);
            && x in s'.exchanges && s'.exchanges[x] == s.exchanges[x] && s.exchanges[x].pk !in s'.db.codes
  {
    if steps != [] {
      var front := steps[..|steps| - 1];
      AnsweredCodeIsDead(s, front, x);
      CodeAnswersOnce(s, front);
      StepKeepsOk(Run(s, front), steps[|steps| - 1]);
      assert ExchangeOk(Run(s, steps).db, Run(s, steps).exchanges[x]);
    }
  }

  /** A code row is never rewritten, and the clock never goes back. */
  lemma {:induction false} CodeRowStays(s: State, steps: seq<Step>, pk: int)
    requires Ok(s) && pk in s.db.codes
    ensures var s' := Run(s, steps);
            && s'.db.now >= s.db.now && s'.db.nextPk >= s.db.nextPk
            && (pk in s'.db.codes ==> s'.db.codes[pk] == s.db.codes[pk])
  {
    if steps != [] { CodeRowStays(s, steps[..|steps| - 1], pk); }
  }

  /** A request begins with a code exactly when there is a row of that code for its client, at most
      ten minutes old. */
  lemma BeginsExactlyWhen(s: State, x: int, code: string, client: string)
    requires x !in s.exchanges
    ensures var s' := Next(s, Begin(x, code, client));
            && x in s'.exchanges && s'.db == s.db && s'.exchanges == s.exchanges[x := s'.exchanges[x]]
            && (s'.exchanges[x].Claimed? || s'.exchanges[x].Refused?)
            && (s'.exchanges[x].Claimed? <==>
                  exists pk :: pk in s.db.codes && InTime(s.db.codes[pk], code, client, s.db.now))
  {
    if pk :| pk in s.db.codes && InTime(s.db.codes[pk], code, client, s.db.now) {
      assert Claimable(s.db, code, client, pk);
    }
  }

  ghost predicate InTime(row: CodeRow, code: string, client: string, now: int) {
    row.code == code && row.client == client && now <= row.authTime + 600
  }

  /** Ten minutes after a code was issued, and ever after, no request gets hold of it. */
  lemma NeverClaimedLate(s: State, steps: seq<Step>, pk: int, x: int, code: string, client: string)
    requires Ok(s) && pk in s.db.codes && Run(s, steps).db.now > s.db.codes[pk].authTime + 600
    requires x !in Run(s, steps).exchanges
    ensures var e := Next(Run(s, steps), Begin(x, code, client)).exchanges[x]; e.Refused? || e.pk != pk
  {
    CodeRowStays(s, steps, pk);
    BeginsExactlyWhen(Run(s, steps), x, code, client);
  }

  // --- the tokens that are stored -----------------------------------------------------------

  /** Somewhere in the run the exchange saves its tokens. */
  ghost predicate PassesSave(s: State, steps: seq<Step>, x: int) {
    steps != [] && var front := steps[..|steps| - 1];
      PassesSave(s, front, x) || Saves(Run(s, front), steps[|steps| - 1], x)
  }

  /** A membership that is deleted stays deleted, and an exchange keeps the code it read. */
  lemma StepKeepsMember(s: State, p: Step, x: int)
    ensures x in s.exchanges && HasMember(Next(s, p), x) ==> HasMember(s, x)
  {
  }

  /** Over any run an exchange has its token row exactly when it passed the save and its membership
      is not deleted. */
  lemma {:induction false} StoredExactlyWhenSaved(s: State, steps: seq<Step>, x: int)
    requires Ok(s)
    ensures HasStored(Run(s, steps).db, x) <==>
              (HasStored(s.db, x) || PassesSave(s, steps, x)) && HasMember(Run(s, steps), x)
    ensures HasStored(s.db, x) || PassesSave(s, steps, x) ==> x in Run(s, steps).exchanges
  {
    if steps == [] {
      if HasStored(s.db, x) {
        var t :| t in s.db.tokens && t.exchange == x;
        assert TokenOk(s, t);
      }
    } else {
      var front, last := steps[..|steps| - 1], steps[|steps| - 1];
      StoredExactlyWhenSaved(s, front, x);
      CodeAnswersOnce(s, front);
      StepStores(Run(s, front), last, x);
      StepKeepsMember(Run(s, front), last, x);
    }
  }

  /** An exchange has one token row at most; and of the rows stored for one code in any run, at most
      one is of an exchange that answered. */
  lemma OneStoredPairIsAnswered(s: State, steps: seq<Step>, a: TokenRow, b: TokenRow)
    requires Ok(s) && a in Run(s, steps).db.tokens && b in Run(s, steps).db.tokens
    ensures a.exchange == b.exchange ==> a == b
    ensures var s' := Run(s, steps);
            && a.exchange in s'.exchanges && b.exchange in s'.exchanges
            && (a.code == b.code && s'.exchanges[a.exchange].Answered? && s'.exchanges[b.exchange].Answered? ==> a == b)
  {
    CodeAnswersOnce(s, steps);
    assert TokenOk(Run(s, steps), a) && TokenOk(Run(s, steps), b);
  }

  /** But the loser of a race has stored its tokens before it fails: from any state where two
      exchanges of a code have saved, both keep their row and one answers. */
  lemma LoserHasStoredItsTokens(s: State, x: int, y: int)
    requires Ok(s) && x != y && x in s.exchanges && y in s.exchanges && s.exchanges[x].Saved? && s.exchanges[y].Saved?
    requires s.exchanges[x].pk == s.exchanges[y].pk && s.exchanges[x].pk in s.db.codes
    ensures var s' := Run(s, [Delete(x), Delete(y)]);
            && x in s'.exchanges && y in s'.exchanges && s'.exchanges[x].Answered? && s'.exchanges[y].Failed?
            && HasStored(s'.db, x) && HasStored(s'.db, y)
  {
    var s1 := Next(s, Delete(x));
    assert [Delete(x)][..0] == [] && [Delete(x), Delete(y)][..1] == [Delete(x)];
    assert Run(s, []) == s && Run(s, [Delete(x)]) == s1;
    assert Run(s, [Delete(x), Delete(y)]) == Next(s1, Delete(y));
    assert ExchangeOk(s.db, s.exchanges[x]) && ExchangeOk(s.db, s.exchanges[y]);
    assert HasStored(s.db, x) && HasStored(s.db, y);
    assert Next(s1, Delete(y)).db.tokens == s.db.tokens;
  }

  // --- nonces -------------------------------------------------------------------------------

  /** The step is an authorization request with this nonce that was let through. */
  ghost predicate Accepts(s: State, p: Step, client: string, nonce: string) {
    && p.Authorize? && p.client == client && p.nonce == Some(nonce)
    && MayAuthorize(s.db, p.code, client, p.member, p.nonce)
  }

  /** The step deletes the membership of every code row that carries the nonce, which is unspent. */
  ghost predicate Forgets(s: State, p: Step, client: string, nonce: string) {
    && p.Cascade? && (client, nonce) !in s.db.used && ExistsNonce(s.db, client, nonce)
    && forall pk :: Carries(s.db, pk, client, nonce) ==> s.db.codes[pk].member == p.member
  }

  /** The step records a nonce that had been forgotten: its code went while an exchange held it. */
  ghost predicate Relearns(s: State, p: Step, client: string, nonce: string) {
    && p.RecordNonce? && Ready(s, p) && !ExistsNonce(s.db, client, nonce)
    && s.exchanges[p.x].row.client == client && s.exchanges[p.x].row.nonce == Some(nonce)
  }

  /** A nonce that is known for a client stays known exactly when the step does not forget it. */
  lemma StepKeepsNonceExactlyWhen(s: State, p: Step, client: string, nonce: string)
    requires Ok(s) && nonce != "" && ExistsNonce(s.db, client, nonce)
    ensures ExistsNonce(Next(s, p).db, client, nonce) <==> !Forgets(s, p, client, nonce)
  {
    var s' := Next(s, p);
    if (client, nonce) !in s.db.used && !Forgets(s, p, client, nonce) {
      var pk :| Carries(s.db, pk, client, nonce) && (p.Cascade? ==> s.db.codes[pk].member != p.member);
      if p.Delete? && Ready(s, p) && s.exchanges[p.x].pk == pk { assert false; }
      assert Carries(s'.db, pk, client, nonce);
    }
    if Forgets(s, p, client, nonce) {
      forall pk ensures !Carries(s'.db, pk, client, nonce) {
        if Carries(s'.db, pk, client, nonce) { assert Carries(s.db, pk, client, nonce); }
      }
    }
  }

  /** One that is unknown becomes known exactly by an accepted request or by relearning it. */
  lemma StepLearnsNonceExactlyWhen(s: State, p: Step, client: string, nonce: string)
    requires Ok(s) && nonce != "" && !ExistsNonce(s.db, client, nonce)
    ensures ExistsNonce(Next(s, p).db, client, nonce) <==> Accepts(s, p, client, nonce) || Relearns(s, p, client, nonce)
    ensures !(Accepts(s, p, client, nonce) && Relearns(s, p, client, nonce))
  {
    var s' := Next(s, p);
    if Accepts(s, p, client, nonce) { assert Carries(s'.db, s.db.nextPk, client, nonce); }
    if ExistsNonce(s'.db, client, nonce) && (client, nonce) !in s'.db.used {
      var pk :| Carries(s'.db, pk, client, nonce);
      assert !Carries(s.db, pk, client, nonce);
    }
  }

  /** No step of the run forgets the nonce. */
  ghost predicate NeverForgets(s: State, steps: seq<Step>, client: string, nonce: string) {
    steps != [] ==> var front := steps[..|steps| - 1];
      NeverForgets(s, front, client, nonce) && !Forgets(Run(s, front), steps[|steps| - 1], client, nonce)
  }

  /** The nonce is known in every state of the run. */
  ghost predicate AlwaysKnown(s: State, steps: seq<Step>, client: string, nonce: string) {
    && ExistsNonce(Run(s, steps).db, client, nonce)
    && (steps != [] ==> AlwaysKnown(s, steps[..|steps| - 1], client, nonce))
  }

  /** Once known, a nonce is known throughout a run exactly when no step of it forgets the nonce. */
  lemma {:induction false} NonceStaysKnown(s: State, steps: seq<Step>, client: string, nonce: string)
    requires Ok(s) && nonce != "" && ExistsNonce(s.db, client, nonce)
    ensures AlwaysKnown(s, steps, client, nonce) <==> NeverForgets(s, steps, client, nonce)
  {
    if steps != [] {
      var front := steps[..|steps| - 1];
      NonceStaysKnown(s, front, client, nonce);
      CodeAnswersOnce(s, front);
      if AlwaysKnown(s, front, client, nonce) {
        StepKeepsNonceExactlyWhen(Run(s, front), steps[|steps| - 1], client, nonce);
      }
    }
  }

  function One(b: bool): nat { if b then 1 else 0 }

  ghost function Acceptances(s: State, steps: seq<Step>, client: string, nonce: string): nat {
    if steps == [] then 0 else var front := steps[..|steps| - 1];
      Acceptances(s, front, client, nonce) + One(Accepts(Run(s, front), steps[|steps| - 1], client, nonce))
  }

  ghost function Forgettings(s: State, steps: seq<Step>, client: string, nonce: string): nat {
    if steps == [] then 0 else var front := steps[..|steps| - 1];
      Forgettings(s, front, client, nonce) + One(Forgets(Run(s, front), steps[|steps| - 1], client, nonce))
  }

  ghost function Relearnings(s: State, steps: seq<Step>, client: string, nonce: string): nat {
    if steps == [] then 0 else var front := steps[..|steps| - 1];
      Relearnings(s, front, client, nonce) + One(Relearns(Run(s, front), steps[|steps| - 1], client, nonce))
  }

  lemma StepLedger(s: State, p: Step, client: string, nonce: string)
    requires Ok(s) && nonce != ""
    ensures One(ExistsNonce(Next(s, p).db, client, nonce)) + One(Forgets(s, p, client, nonce)) ==
            One(ExistsNonce(s.db, client, nonce)) + One(Accepts(s, p, client, nonce)) +
              One(Relearns(s, p, client, nonce))
  {
    if ExistsNonce(s.db, client, nonce) {
      StepKeepsNonceExactlyWhen(s, p, client, nonce);
    } else {
      StepLearnsNonceExactlyWhen(s, p, client, nonce);
      assert !Forgets(s, p, client, nonce);
    }
  }

  /** Every acceptance of a nonce over a run is accounted for: beyond the first there is one for
      each time it was forgotten and not relearned. */
  lemma {:induction false} NonceLedger(s: State, steps: seq<Step>, client: string, nonce: string)
    requires Ok(s) && nonce != ""
    ensures One(ExistsNonce(Run(s, steps).db, client, nonce)) + Forgettings(s, steps, client, nonce) ==
            One(ExistsNonce(s.db, client, nonce)) + Acceptances(s, steps, client, nonce) +
              Relearnings(s, steps, client, nonce)
  {
    if steps != [] {
      var front := steps[..|steps| - 1];
      NonceLedger(s, front, client, nonce);
      CodeAnswersOnce(s, front);
      StepLedger(Run(s, front), steps[|steps| - 1], client, nonce);
    }
  }

  lemma {:induction false} NoForgettings(s: State, steps: seq<Step>, client: string, nonce: string)
    ensures NeverForgets(s, steps, client, nonce) <==> Forgettings(s, steps, client, nonce) == 0
  {
    if steps != [] { NoForgettings(s, steps[..|steps| - 1], client, nonce); }
  }

  /** A nonce is accepted at most once per client in every run that never forgets it, and not at
      all when it is known already; a run in which it is accepted more often forgets it. */
  lemma NonceAcceptedOnce(s: State, steps: seq<Step>, client: string, nonce: string)
    requires Ok(s) && nonce != ""
    ensures NeverForgets(s, steps, client, nonce) ==>
              Acceptances(s, steps, client, nonce) <= if ExistsNonce(s.db, client, nonce) then 0 else 1
    ensures Acceptances(s, steps, client, nonce) <=
              Forgettings(s, steps, client, nonce) + if ExistsNonce(s.db, client, nonce) then 0 else 1
  {
    NonceLedger(s, steps, client, nonce);
    NoForgettings(s, steps, client, nonce);
  }

  /** After a forgetting step the next request with the nonce and a new code is let through: nothing
      short of excluding such steps keeps the nonce unique. */
  lemma ForgottenIsAcceptedAgain(s: State, p: Step, code: string, client: string, member: int, nonce: string)
    requires Ok(s) && nonce != "" && Forgets(s, p, client, nonce) && member !in s.db.deleted && member != p.member
    requires forall pk :: pk in s.db.codes ==> s.db.codes[pk].code != code
    ensures Accepts(Next(s, p), Authorize(code, client, member, Some(nonce)), client, nonce)
  {
    StepKeepsNonceExactlyWhen(s, p, client, nonce);
  }

  /** A run in which a nonce is accepted twice. */
  lemma CascadeForgetsANonce()
    ensures var steps := [Authorize("a", "app", 1, Some("n")), Cascade(1), Authorize("b", "app", 2, Some("n"))];
            Acceptances(State(EMPTY, map[]), steps, "app", "n") == 2
  {
    var s0 := State(EMPTY, map[]);
    var a, b, c := Authorize("a", "app", 1, Some("n")), Cascade(1), Authorize("b", "app", 2, Some("n"));
    var s1 := Next(s0, a);
    assert Accepts(s0, a, "app", "n") && Ok(s0);
    StepKeepsOk(s0, a);
    assert Carries(s1.db, 0, "app", "n");
    assert Forgets(s1, b, "app", "n");
    assert [a][..0] == [] && [a, b][..1] == [a] && [a, b, c][..2] == [a, b];
    assert Run(s0, []) == s0 && Run(s0, [a]) == s1 && Run(s0, [a, b]) == Next(s1, b);
    assert Acceptances(s0, [], "app", "n") == 0;
    assert Acceptances(s0, [a], "app", "n") == 1;
    assert Acceptances(s0, [a, b], "app", "n") == 1;
    assert "a" != "b";
    ForgottenIsAcceptedAgain(s1, b, "b", "app", 2, "n");
  }
}

/** The grant's methods on the tables, each the part of a step it stands for. */
module AuthorizationCodeGrant {
  import opened Rows
  import opened AuthorizationCodes

  class Tables {
    var codes: map<int, CodeRow>
    var used: set<(string, string)>
    var tokens: set<TokenRow>
    var deleted: set<int>
    var nextPk: int
    var now: int

    function Value(): Db
      reads this
    {
      Db(codes, used, tokens, deleted, nextPk, now)
    }

    constructor ()
      ensures Value() == EMPTY && CodesOk(Value())
    {
      codes, used, tokens, deleted, nextPk, now := map[], {}, {}, {}, 0, 0;
    }

    /** An authorization request as one step: the nonce is checked, the code saved. */
    method AuthorizeRequest(code: string, client: string, member: int, nonce: Option<string>) returns (ok: bool)
      requires CodesOk(Value())
      modifies this`codes, this`nextPk
      ensures CodesOk(Value()) && ok == MayAuthorize(old(Value()), code, client, member, nonce)
      ensures ok ==> nextPk == old(nextPk) + 1
      ensures ok ==> codes == old(codes)[old(nextPk) := CodeRow(code, client, member, nonce, now)]
      ensures !ok ==> Value() == old(Value())
      ensures forall exchanges ::
                State(Value(), exchanges) ==
                Next(State(old(Value()), exchanges), Authorize(code, client, member, nonce))
    {
      if HasNonce(nonce) {
        var known := ExistsNonceHere(client, nonce.value);
        if known { return false; }
      }
      if member in deleted || exists pk :: pk in codes && codes[pk].code == code { return false; }
      codes, nextPk := codes[nextPk := CodeRow(code, client, member, nonce, now)], nextPk + 1;
      return true;
    }

    /** `exists_nonce`: a request of this client with the nonce, and a new code, is let through
        exactly when the answer is no. */
    method ExistsNonceHere(client: string, nonce: string) returns (known: bool)
      ensures known == ExistsNonce(Value(), client, nonce)
      ensures nonce != "" ==>
                forall code, member | member !in deleted && (forall pk :: pk in codes ==> codes[pk].code != code) ::
                  (MayAuthorize(Value(), code, client, member, Some(nonce)) <==> !known)
    {
      if exists pk :: pk in codes && codes[pk].client == client && codes[pk].nonce == Some(nonce) {
        var pk :| pk in codes && codes[pk].client == client && codes[pk].nonce == Some(nonce);
        assert Carries(Value(), pk, client, nonce);
        return true;
      }
      return (client, nonce) in used;
    }

    /** `query_authorization_code` */
    method QueryAuthorizationCode(code: string, client: string) returns (e: Exchange)
      requires CodesOk(Value())
      ensures e == Queried(Value(), code, client)
      ensures e.Claimed? || e.Refused?
      ensures e.Claimed? ==> e.pk in codes && codes[e.pk] == e.row && InTime(e.row, code, client, now)
      ensures e.Claimed? <==> exists pk :: pk in codes && InTime(codes[pk], code, client, now)
    {
      if pk :| pk in codes && codes[pk].code == code && codes[pk].client == client {
        if Expired(codes[pk], now) {
          assert forall other :: Claimable(Value(), code, client, other) ==> other == pk;
          return Refused;
        }
        assert Claimable(Value(), code, client, pk);
        return Claimed(pk, codes[pk]);
      }
      assert forall pk :: !Claimable(Value(), code, client, pk);
      return Refused;
    }

    /** `authenticate_user` of the grant: the nonce is recorded before the code row goes, so that
        from here on it is known whatever becomes of the row. */
    method AuthenticateUser(x: int, e: Exchange)
      requires e.Claimed?
      modifies this`used
      ensures HasNonce(e.row.nonce) ==> ExistsNonce(Value(), e.row.client, e.row.nonce.value)
      ensures forall exchanges | x in exchanges && exchanges[x] == e ::
                State(Value(), exchanges[x := Authenticated(e.pk, e.row)]) ==
                  Next(State(old(Value()), exchanges), RecordNonce(x))
    {
      if e.row.nonce.Some? && e.row.nonce.value != "" {
        used := used + {(e.row.client, e.row.nonce.value)};
      }
    }

    /** `save_token`, as far as the exchange is concerned: a token refers to its membership. */
    method StoreToken(x: int, e: Exchange) returns (ok: bool)
      requires e.Authenticated?
      modifies this`tokens
      ensures ok ==> HasStored(Value(), x)
      ensures forall exchanges | x in exchanges && exchanges[x] == e ::
                State(Value(), exchanges[x := if ok then Saved(e.pk, e.row) else Failed(e.pk, e.row)]) ==
                Next(State(old(Value()), exchanges), SaveToken(x))
      ensures ok <==> e.row.member !in deleted
    {
      if e.row.member in deleted { return false; }
      tokens := tokens + {TokenRow(x, e.pk, e.row.member)};
      assert TokenRow(x, e.pk, e.row.member) in tokens;
      return true;
    }

    /** A membership is deleted: its codes and its tokens go with it. */
    method DeleteMember(member: int)
      modifies this`codes, this`tokens, this`deleted
      ensures forall exchanges :: State(Value(), exchanges) == Next(State(old(Value()), exchanges), Cascade(member))
    {
      codes := map pk | pk in codes && codes[pk].member != member :: codes[pk];
      tokens := set t | t in tokens && t.member != member;
      deleted := deleted + {member};
    }

    /** `delete_authorization_code`: it goes on to answer exactly when this exchange is the one that
        removed the row; afterwards no exchange can claim the code. */
    method DeleteAuthorizationCode(x: int, e: Exchange) returns (ok: bool)
      requires e.Saved?
      modifies this`codes
      ensures forall exchanges | x in exchanges && exchanges[x] == e ::
                State(Value(), exchanges[x := if ok then Answered(e.pk, e.row) else Failed(e.pk, e.row)]) ==
                Next(State(old(Value()), exchanges), Delete(x))
      ensures forall code, client :: !Claimable(Value(), code, client, e.pk)
    {
      ok := e.pk in codes;
      codes := codes - {e.pk};
    }
  }

  /** One request run through the methods alone, without interleaving: it answers exactly when
      the code is there, for this client and in time; then the code is gone, its nonce spent and
      its tokens stored. */
  method Exchanging(t: Tables, x: int, code: string, client: string) returns (answered: bool)
    requires CodesOk(t.Value())
    modifies t
    ensures answered <==> exists pk :: pk in old(t.codes) && InTime(old(t.codes)[pk], code, client, t.now)
    ensures answered ==> !exists pk :: pk in t.codes && InTime(t.codes[pk], code, client, t.now)
    ensures answered ==> HasStored(t.Value(), x)
    ensures t.now == old(t.now)
    ensures forall pk | pk in old(t.codes) && InTime(old(t.codes)[pk], code, client, t.now) ::
              HasNonce(old(t.codes)[pk].nonce) ==> (client, old(t.codes)[pk].nonce.value) in t.used
    ensures !answered ==> t.Value() == old(t.Value())
    ensures CodesOk(t.Value())
  {
    var e := t.QueryAuthorizationCode(code, client);
    if e.Refused? { return false; }
    ghost var claimed := map[x := e];
    assert x in claimed && claimed[x] == e;
    t.AuthenticateUser(x, e);
    ghost var s1 := Next(State(old(t.Value()), claimed), RecordNonce(x));
    var e1 := Authenticated(e.pk, e.row);
    ghost var authenticated := map[x := e1];
    assert x in authenticated && authenticated[x] == e1;
    var stored := t.StoreToken(x, e1);
    ghost var s2 := Next(State(s1.db, authenticated), SaveToken(x));
    var e2 := Saved(e.pk, e.row);
    ghost var saved := map[x := e2];
    assert x in saved && saved[x] == e2;
    answered := t.DeleteAuthorizationCode(x, e2);
    ghost var s3 := Next(State(s2.db, saved), Delete(x));
    assert s3.db == t.Value() && s3.exchanges[x].Answered?;
  }
}
