/** Refresh tokens: login, refresh and logout as a rotation machine over the token table. */
module Tokens {
  import opened Base

  /** The only token type the schema knows is the refresh token. */
  datatype Token = Token(user: Id, secret: string, expiresAt: Option<Time>, usedAt: Option<Time>,
                         revokedAt: Option<Time>)

  /** The primary key: a ULID drawn without entropy, so nothing but the millisecond it was made in. */
  type Key = int

  type Table = map<Key, Token>

  function KeyAt(now: Time): Key {
    now / 1_000_000
  }

  datatype AuthError = InvalidToken | UserNotFound | AccountDeleted | TokenRevoked | TokenExpired | SigningFailed
    | Internal

  /** `table` is what the call leaves behind; `issued` the secret handed out when it succeeds. */
  datatype AuthStep = Granted(table: Table, issued: string) | Denied(table: Table, error: AuthError)

  /** What the outside world does during one call: the clock, the next random secret, failures. */
  datatype Luck = Luck(now: Time, secret: string, lifetime: Time, revokeFails: bool, signFails: bool, storeFails: bool,
                       commitFails: bool)

  predicate Live(t: Token) {
    t.revokedAt == None
  }

  function RevokeAll(table: Table, user: Id, now: Time): Table {
    map k | k in table ::
      if table[k].user == user then table[k].(revokedAt := Some(now)) else table[k]
  }

  function Fresh(user: Id, luck: Luck): Token {
    Token(user, luck.secret, Some(luck.now + luck.lifetime), None, None)
  }

  /** The insert fails on a taken key and on a taken secret. */
  predicate Insertable(table: Table, luck: Luck) {
    !luck.storeFails && KeyAt(luck.now) !in table && forall k | k in table :: table[k].secret != luck.secret
  }

  // ----- GoogleLogin, for an account the identity token names -----

  /** No unit of work: what was revoked stays revoked when a later statement fails. */
  function Login(table: Table, user: Id, luck: Luck): AuthStep {
    if luck.revokeFails then Denied(table, Internal)
    else
      var revoked := RevokeAll(table, user, luck.now);
      if luck.signFails then Denied(revoked, SigningFailed)
      else if !Insertable(revoked, luck) then Denied(revoked, Internal)
      else Granted(revoked[KeyAt(luck.now) := Fresh(user, luck)], luck.secret)
  }

  function Logout(table: Table, user: Id, luck: Luck): AuthStep {
    if luck.revokeFails then Denied(table, Internal) else Granted(RevokeAll(table, user, luck.now), "")
  }

  // ----- Refresh -----

  predicate Holds(table: Table, k: Key, secret: string) {
    k in table && table[k].secret == secret
  }

  /** FindByToken, then the checks, then one unit of work that spends the token and stores its heir. */
  function Refresh(table: Table, found: Option<Key>, userExists: bool, luck: Luck): AuthStep
    requires found.Some? ==> found.value in table
  {
    if found == None then Denied(table, InvalidToken)
    else
      var k := found.value;
      var t := table[k];
      if t.revokedAt.Some? then Denied(table, TokenRevoked)
      else if t.expiresAt.Some? && luck.now > t.expiresAt.value then Denied(table, TokenExpired)
      else if !userExists then Denied(table, UserNotFound)
      else if luck.revokeFails then Denied(table, Internal)
      else if luck.signFails then Denied(table, SigningFailed)
      else
        var spent := table[k := t.(usedAt := Some(luck.now), revokedAt := Some(luck.now))];
        if !Insertable(spent, luck) || luck.commitFails then Denied(table, Internal)
        else Granted(spent[KeyAt(luck.now) := Fresh(t.user, luck)], luck.secret)
  }

  // ----- What every run keeps -----

  ghost predicate OneLive(table: Table) {
    forall j, k :: j in table && k in table && Live(table[j]) && Live(table[k]) && table[j].user == table[k].user ==>
      j == k
  }

  ghost predicate SecretsDiffer(table: Table) {
    forall j, k :: j in table && k in table && table[j].secret == table[k].secret ==> j == k
  }

  /** Tokens are never deleted, and a revoked one is never live again. */
  ghost predicate NoneRevived(table: Table, table': Table) {
    forall k :: k in table ==>
      k in table' && table'[k].user == table[k].user && table'[k].secret == table[k].secret
      && (table[k].revokedAt.Some? ==> table'[k].revokedAt.Some?)
  }

  ghost predicate Good(table: Table) {
    OneLive(table) && SecretsDiffer(table)
  }

  datatype Call =
    | DoLogin(user: Id, luck: Luck)
    | DoRefresh(presented: string, userExists: bool, luck: Luck)
    | DoLogout(user: Id, luck: Luck)

  ghost function Lookup(table: Table, secret: string): Option<Key> {
    if exists k :: Holds(table, k, secret) then
      var k :| Holds(table, k, secret);
      Some(k)
    else None
  }

  ghost function Do(table: Table, c: Call): AuthStep {
    match c
    case DoLogin(user, luck) => Login(table, user, luck)
    case DoRefresh(presented, userExists, luck) => Refresh(table, Lookup(table, presented), userExists, luck)
    case DoLogout(user, luck) => Logout(table, user, luck)
  }

  ghost function Run(table: Table, calls: seq<Call>): Table {
    if calls == [] then table
    else
      Do(Run(table, calls[..|calls| - 1]), calls[|calls| - 1]).table
  }

  lemma {:induction false} RevokeAllKeeps(table: Table, user: Id, now: Time)
    requires Good(table)
    ensures Good(RevokeAll(table, user, now)) && NoneRevived(table, RevokeAll(table, user, now))
    ensures forall k :: k in table && table[k].user == user ==> !Live(RevokeAll(table, user, now)[k])
  {
  }

  lemma {:induction false} InsertKeeps(table: Table, user: Id, luck: Luck)
    requires Good(table) && Insertable(table, luck)
    requires forall k :: k in table && table[k].user == user ==> !Live(table[k])
    ensures Good(table[KeyAt(luck.now) := Fresh(user, luck)])
    ensures NoneRevived(table, table[KeyAt(luck.now) := Fresh(user, luck)])
  {
  }

  lemma {:induction false} LoginKeeps(table: Table, user: Id, luck: Luck)
    requires Good(table)
    ensures Good(Login(table, user, luck).table) && NoneRevived(table, Login(table, user, luck).table)
  {
    RevokeAllKeeps(table, user, luck.now);
    if Insertable(RevokeAll(table, user, luck.now), luck) {
      InsertKeeps(RevokeAll(table, user, luck.now), user, luck);
    }
  }

  /** A granted refresh found the presented token live and unexpired, spent it and no other, and left its
      owner the new one alone. */
  lemma {:induction false} RefreshSpends(table: Table, k: Key, userExists: bool, luck: Luck)
    requires Good(table) && k in table && Refresh(table, Some(k), userExists, luck).Granted?
    ensures Live(table[k]) && !(table[k].expiresAt.Some? && luck.now > table[k].expiresAt.value)
    ensures var table' := Refresh(table, Some(k), userExists, luck).table;
      && table'.Keys == table.Keys + {KeyAt(luck.now)} && KeyAt(luck.now) !in table
      && table'[k].revokedAt == Some(luck.now)
      && (forall j :: j in table && j != k ==> table'[j] == table[j])
      && (forall j :: j in table' && table'[j].user == table[k].user ==> (Live(table'[j]) <==> j == KeyAt(luck.now)))
      && table'[KeyAt(luck.now)].secret == Refresh(table, Some(k), userExists, luck).issued
  {
  }

  lemma {:induction false} RefreshKeeps(table: Table, found: Option<Key>, userExists: bool, luck: Luck)
    requires Good(table) && (found.Some? ==> found.value in table)
    ensures Good(Refresh(table, found, userExists, luck).table)
    ensures NoneRevived(table, Refresh(table, found, userExists, luck).table)
  {
    if found.Some? && Refresh(table, found, userExists, luck).Granted? {
      var k := found.value;
      var spent := table[k := table[k].(usedAt := Some(luck.now), revokedAt := Some(luck.now))];
      assert Good(spent) && NoneRevived(table, spent);
      InsertKeeps(spent, table[k].user, luck);
    }
  }

  lemma {:induction false} DoKeeps(table: Table, c: Call)
    requires Good(table)
    ensures Good(Do(table, c).table) && NoneRevived(table, Do(table, c).table)
  {
    match c
    case DoLogin(user, luck) => LoginKeeps(table, user, luck);
    case DoRefresh(presented, userExists, luck) => RefreshKeeps(table, Lookup(table, presented), userExists, luck);
    case DoLogout(user, luck) => RevokeAllKeeps(table, user, luck.now);
  }

  /** In every run a user has at most one unrevoked refresh token, and a revoked token stays revoked. */
  lemma {:induction false} RunsRotate(table: Table, calls: seq<Call>)
    requires Good(table)
    ensures Good(Run(table, calls)) && NoneRevived(table, Run(table, calls))
  {
    if calls != [] {
      var n := |calls| - 1;
      RunsRotate(table, calls[..n]);
      DoKeeps(Run(table, calls[..n]), calls[n]);
    }
  }

  /** Once spent, a token never opens anything again in any later run. */
  lemma {:induction false} SpentStaysSpent(table: Table, calls: seq<Call>, k: Key, userExists: bool, luck: Luck)
    requires Good(table) && k in table && table[k].revokedAt.Some?
    ensures k in Run(table, calls)
    ensures Refresh(Run(table, calls), Some(k), userExists, luck) == Denied(Run(table, calls), TokenRevoked)
  {
    RunsRotate(table, calls);
  }

  /** Two logins in one millisecond: the second is refused although nothing failed, and the user who
      asked for it is left without any live token. */
  lemma {:induction false} SameMillisecond(table: Table, first: Id, second: Id, luck1: Luck, luck2: Luck)
    requires Good(table) && Login(table, first, luck1).Granted? && KeyAt(luck1.now) == KeyAt(luck2.now)
    requires !luck2.revokeFails
    ensures var t := Login(Login(table, first, luck1).table, second, luck2);
      t.Denied? && forall k :: k in t.table && t.table[k].user == second ==> !Live(t.table[k])
  {
    LoginKeeps(table, first, luck1);
    RevokeAllKeeps(Login(table, first, luck1).table, second, luck2.now);
  }

  // ----- What each call leaves in the table -----

  /** The tokens of other users, exactly as they were. */
  ghost predicate OthersUntouched(table: Table, table': Table, user: Id) {
    forall k :: k in table && table[k].user != user ==> k in table' && table'[k] == table[k]
  }

  /** The user's tokens as the revocation leaves them: stamped, and otherwise as they were. */
  ghost predicate OwnRevoked(table: Table, table': Table, user: Id, now: Time) {
    forall k :: k in table && table[k].user == user ==>
      k in table' && table'[k] == table[k].(revokedAt := Some(now))
  }

  /** The token handed out: the user's, with the new secret, for its lifetime, unused. */
  predicate HandedOut(table: Table, user: Id, luck: Luck) {
    var k := luck.now / 1_000_000;
    && k in table && table[k].user == user && table[k].secret == luck.secret
    && table[k].expiresAt == Some(luck.now + luck.lifetime) && table[k].usedAt == None && table[k].revokedAt == None
  }

  /** A login revokes the user's own tokens and nobody else's, unless that write fails, and adds the token
      it hands out and no other. */
  lemma {:induction false} LoginDoes(table: Table, user: Id, luck: Luck)
    ensures var s := Login(table, user, luck);
      && OthersUntouched(table, s.table, user)
      && (if luck.revokeFails then s.table == table else OwnRevoked(table, s.table, user, luck.now))
      && (s.Granted? ==> s.issued == luck.secret && HandedOut(s.table, user, luck))
      && s.table.Keys == (if s.Granted? then table.Keys + {luck.now / 1_000_000} else table.Keys)
  {
  }

  /** A logout revokes the user's own tokens and nobody else's. */
  lemma {:induction false} LogoutDoes(table: Table, user: Id, luck: Luck)
    ensures var s := Logout(table, user, luck);
      && OthersUntouched(table, s.table, user) && s.table.Keys == table.Keys
      && (s.Denied? <==> luck.revokeFails)
      && (if luck.revokeFails then s.table == table else OwnRevoked(table, s.table, user, luck.now))
  {
  }

  /** A refresh spends the presented token, hands out its heir and touches no other. */
  lemma {:induction false} RefreshDoes(table: Table, k: Key, userExists: bool, luck: Luck)
    requires k in table && Refresh(table, Some(k), userExists, luck).Granted?
    ensures var s := Refresh(table, Some(k), userExists, luck);
      && s.issued == luck.secret && HandedOut(s.table, table[k].user, luck) && luck.now / 1_000_000 !in table
      && s.table.Keys == table.Keys + {luck.now / 1_000_000}
      && s.table[k] == table[k].(usedAt := Some(luck.now), revokedAt := Some(luck.now))
      && (forall j :: j in table && j != k ==> s.table[j] == table[j])
  {
  }

  /** The calls that may end a live token: those of its user, and a refresh that presents its secret. */
  predicate Concerns(c: Call, t: Token) {
    match c
    case DoLogin(user, _) => user == t.user
    case DoLogout(user, _) => user == t.user
    case DoRefresh(presented, _, _) => presented == t.secret
  }

  lemma {:induction false} UnconcernedStays(table: Table, c: Call, k: Key)
    requires k in table && !Concerns(c, table[k])
    ensures k in Do(table, c).table && Do(table, c).table[k] == table[k]
  {
    match c
    case DoLogin(user, luck) => LoginDoes(table, user, luck);
    case DoLogout(user, luck) => LogoutDoes(table, user, luck);
    case DoRefresh(presented, userExists, luck) =>
      if Do(table, c).Granted? {
        var found := Lookup(table, presented).value;
        RefreshDoes(table, found, userExists, luck);
      } else if Lookup(table, presented).Some? {
        RefreshExactly(table, Lookup(table, presented).value, userExists, luck);
      }
  }

  /** Over any run a token stays exactly as it is, live if it was, until a call names its user or presents
      its secret: nobody is signed out by somebody else. */
  lemma {:induction false} LiveUntilConcerned(table: Table, calls: seq<Call>, k: Key)
    requires k in table && forall i :: 0 <= i < |calls| ==> !Concerns(calls[i], table[k])
    ensures k in Run(table, calls) && Run(table, calls)[k] == table[k]
  {
    if calls != [] {
      var n := |calls| - 1;
      LiveUntilConcerned(table, calls[..n], k);
      UnconcernedStays(Run(table, calls[..n]), calls[n], k);
    }
  }

  // ----- Exactly when a token is handed out -----

  predicate SecretTaken(table: Table, secret: string) {
    exists k | k in table :: table[k].secret == secret
  }

  /** Neither the statement nor the primary key nor the secret stands in the way of the insert. */
  predicate Admits(table: Table, luck: Luck) {
    !luck.storeFails && KeyAt(luck.now) !in table && !SecretTaken(table, luck.secret)
  }

  lemma {:induction false} InsertableExactly(table: Table, revised: Table, luck: Luck)
    requires revised.Keys == table.Keys && forall k :: k in table ==> revised[k].secret == table[k].secret
    ensures Insertable(revised, luck) <==> Admits(table, luck)
  {
    assert forall k :: k in table <==> k in revised;
  }

  /** A login is granted if and only if nothing fails, its millisecond has no token yet and its secret
      is new; one that is refused after the revocation leaves its user without a live token. */
  lemma {:induction false} LoginExactly(table: Table, user: Id, luck: Luck)
    ensures Login(table, user, luck).Granted? <==> !luck.revokeFails && !luck.signFails && Admits(table, luck)
    ensures Login(table, user, luck).Denied? && luck.revokeFails ==> Login(table, user, luck).table == table
    ensures Login(table, user, luck).Denied? && !luck.revokeFails ==>
      forall k :: k in Login(table, user, luck).table && Login(table, user, luck).table[k].user == user ==>
        !Live(Login(table, user, luck).table[k])
  {
    InsertableExactly(table, RevokeAll(table, user, luck.now), luck);
  }

  /** A refresh is granted if and only if the token is live and unexpired, its owner exists, nothing
      fails, the millisecond has no token yet and the secret is new; refused, it changes nothing. */
  lemma {:induction false} RefreshExactly(table: Table, k: Key, userExists: bool, luck: Luck)
    requires k in table
    ensures Refresh(table, Some(k), userExists, luck).Granted?
       <==> Live(table[k]) && !(table[k].expiresAt.Some? && luck.now > table[k].expiresAt.value) && userExists
            && !luck.revokeFails && !luck.signFails && !luck.commitFails && Admits(table, luck)
    ensures Refresh(table, Some(k), userExists, luck).Denied? ==>
      Refresh(table, Some(k), userExists, luck).table == table
  {
    InsertableExactly(table, table[k := table[k].(usedAt := Some(luck.now), revokedAt := Some(luck.now))], luck);
  }

  /** Call `j` of a run stored a token. */
  ghost predicate StoresAt(table: Table, calls: seq<Call>, j: nat) {
    j < |calls| && !calls[j].DoLogout? && Do(Run(table, calls[..j]), calls[j]).Granted?
  }

  /** The key was there from the start or is the millisecond of an earlier call that stored a token. */
  ghost predicate KeyUsed(table: Table, calls: seq<Call>, n: nat, key: Key) {
    key in table || exists j: nat :: j < n && StoresAt(table, calls, j) && KeyAt(calls[j].luck.now) == key
  }

  ghost predicate SecretUsed(table: Table, calls: seq<Call>, n: nat, secret: string) {
    SecretTaken(table, secret) || exists j: nat :: j < n && StoresAt(table, calls, j) && calls[j].luck.secret == secret
  }

  /** What one call adds to the table. */
  lemma {:induction false} DoStores(table: Table, c: Call, key: Key, secret: string)
    ensures var s := Do(table, c);
      var stores := !c.DoLogout? && s.Granted?;
      && (key in s.table <==> key in table || (stores && key == KeyAt(c.luck.now)))
      && (SecretTaken(s.table, secret) <==> SecretTaken(table, secret) || (stores && secret == c.luck.secret))
  {
    var s := Do(table, c);
    var stores := !c.DoLogout? && s.Granted?;
    forall k | k in table ensures k in s.table && s.table[k].secret == table[k].secret {
      DoKeepsSecrets(table, c, k);
    }
    assert stores ==> KeyAt(c.luck.now) in s.table && s.table[KeyAt(c.luck.now)].secret == c.luck.secret;
    assert forall k :: k in s.table ==> k in table || (stores && k == KeyAt(c.luck.now));
  }

  lemma {:induction false} DoKeepsSecrets(table: Table, c: Call, k: Key)
    requires k in table
    ensures k in Do(table, c).table && Do(table, c).table[k].secret == table[k].secret
  {
  }

  lemma {:induction false} UsedGrows(table: Table, calls: seq<Call>, n: nat, key: Key, secret: string)
    ensures KeyUsed(table, calls, n + 1, key)
       <==> KeyUsed(table, calls, n, key) || (StoresAt(table, calls, n) && KeyAt(calls[n].luck.now) == key)
    ensures SecretUsed(table, calls, n + 1, secret)
       <==> SecretUsed(table, calls, n, secret) || (StoresAt(table, calls, n) && calls[n].luck.secret == secret)
  {
  }

  lemma {:induction false} RunStores(table: Table, calls: seq<Call>, n: nat, key: Key, secret: string)
    requires n <= |calls|
    ensures key in Run(table, calls[..n]) <==> KeyUsed(table, calls, n, key)
    ensures SecretTaken(Run(table, calls[..n]), secret) <==> SecretUsed(table, calls, n, secret)
  {
    if n == 0 {
      assert calls[..0] == [];
    } else {
      RunStores(table, calls, n - 1, key, secret);
      UsedGrows(table, calls, n - 1, key, secret);
      assert calls[..n][..n - 1] == calls[..n - 1];
      DoStores(Run(table, calls[..n - 1]), calls[n - 1], key, secret);
    }
  }

  /** In any run a login is granted if and only if nothing fails and no earlier granted call had its
      millisecond or its secret. */
  lemma {:induction false} RunLoginExactly(table: Table, calls: seq<Call>, n: nat)
    requires n < |calls| && calls[n].DoLogin?
    ensures var luck := calls[n].luck;
      Do(Run(table, calls[..n]), calls[n]).Granted?
      <==> !luck.revokeFails && !luck.signFails && !luck.storeFails
           && !KeyUsed(table, calls, n, KeyAt(luck.now)) && !SecretUsed(table, calls, n, luck.secret)
  {
    RunStores(table, calls, n, KeyAt(calls[n].luck.now), calls[n].luck.secret);
    LoginExactly(Run(table, calls[..n]), calls[n].user, calls[n].luck);
  }

  predicate NothingFails(luck: Luck) {
    !luck.revokeFails && !luck.signFails && !luck.storeFails && !luck.commitFails
  }

  /** So when nothing fails, secrets are fresh and every granted call has its own millisecond, no login
      of the run is refused. */
  lemma {:induction false} EveryLoginGranted(calls: seq<Call>, n: nat)
    requires n < |calls| && calls[n].DoLogin? && NothingFails(calls[n].luck)
    requires forall j: nat :: j < n && StoresAt(map[], calls, j) ==>
      KeyAt(calls[j].luck.now) != KeyAt(calls[n].luck.now) && calls[j].luck.secret != calls[n].luck.secret
    ensures Do(Run(map[], calls[..n]), calls[n]).Granted?
  {
    RunLoginExactly(map[], calls, n);
  }

  /** Over any run: a granted refresh was asked for with the secret of a token that was live until then,
      and that secret opens nothing at any later point. */
  lemma {:induction false} RunsSpend(table: Table, calls: seq<Call>, n: nat, later: seq<Call>, userExists: bool,
                                     luck: Luck)
    requires Good(table) && n < |calls| && calls[n].DoRefresh? && Do(Run(table, calls[..n]), calls[n]).Granted?
    ensures exists k :: Holds(Run(table, calls[..n]), k, calls[n].presented) && Live(Run(table, calls[..n])[k])
    ensures var after := Run(Do(Run(table, calls[..n]), calls[n]).table, later);
      Do(after, DoRefresh(calls[n].presented, userExists, luck)) == Denied(after, TokenRevoked)
  {
    var before, c := Run(table, calls[..n]), calls[n];
    RunsRotate(table, calls[..n]);
    var k := Lookup(before, c.presented).value;
    RefreshSpends(before, k, c.userExists, c.luck);
    RefreshKeeps(before, Some(k), c.userExists, c.luck);
    var spent := Do(before, c).table;
    RunsRotate(spent, later);
    SpentStaysSpent(spent, later, k, userExists, luck);
    LookupIs(Run(spent, later), c.presented, k);
  }

  lemma {:induction false} LookupIs(table: Table, secret: string, k: Key)
    requires SecretsDiffer(table) && Holds(table, k, secret)
    ensures Lookup(table, secret) == Some(k)
  {
  }

  // ----- The service -----

  class AuthService {
    var tokens: Table

    constructor ()
      ensures tokens == map[] && Good(tokens)
    {
      tokens := map[];
    }

    /** RevokeByUserIdAndType stamps every refresh token of the user, already revoked ones again. */
    method RevokeByUser(user: Id, luck: Luck) returns (ok: bool)
      modifies this
      ensures ok == !luck.revokeFails
      ensures tokens == if ok then RevokeAll(old(tokens), user, luck.now) else old(tokens)
    {
      ok := !luck.revokeFails;
      if ok {
        tokens := RevokeAll(tokens, user, luck.now);
      }
    }

    method StoreToken(user: Id, luck: Luck) returns (ok: bool)
      modifies this
      ensures ok == Insertable(old(tokens), luck)
      ensures tokens == if ok then old(tokens)[KeyAt(luck.now) := Fresh(user, luck)] else old(tokens)
    {
      ok := Insertable(tokens, luck);
      if ok {
        tokens := tokens[KeyAt(luck.now) := Fresh(user, luck)];
      }
    }

    /** `account` is the user the validated identity token names: None when there is none, its flag tells
        whether it is trashed. */
    method GoogleLogin(account: Option<(Id, bool)>, luck: Luck) returns (r: AuthStep)
      modifies this
      ensures tokens == r.table
      ensures account == None ==> r == Denied(old(tokens), UserNotFound)
      ensures account.Some? && account.value.1 ==> r == Denied(old(tokens), AccountDeleted)
      ensures account.Some? && !account.value.1 ==> r == Login(old(tokens), account.value.0, luck)
      ensures account.Some? ==> OthersUntouched(old(tokens), tokens, account.value.0)
    {
      if account == None {
        return Denied(tokens, UserNotFound);
      }
      var (user, trashed) := account.value;
      if trashed {
        return Denied(tokens, AccountDeleted);
      }
      var revoked := RevokeByUser(user, luck);
      if !revoked {
        return Denied(tokens, Internal);
      }
      if luck.signFails {
        return Denied(tokens, SigningFailed);
      }
      var stored := StoreToken(user, luck);
      if !stored {
        return Denied(tokens, Internal);
      }
      return Granted(tokens, luck.secret);
    }

    /** `found` is the row FindByToken returns for the presented secret. */
    method RefreshToken(found: Option<Key>, userExists: bool, luck: Luck) returns (r: AuthStep)
      requires found.Some? ==> found.value in tokens
      modifies this
      ensures r == Refresh(old(tokens), found, userExists, luck) && tokens == r.table
    {
      if found == None {
        return Denied(tokens, InvalidToken);
      }
      var token := tokens[found.value];
      if token.revokedAt.Some? {
        return Denied(tokens, TokenRevoked);
      }
      if token.expiresAt.Some? && luck.now > token.expiresAt.value {
        return Denied(tokens, TokenExpired);
      }
      if !userExists {
        return Denied(tokens, UserNotFound);
      }
      var before := tokens;
      if luck.revokeFails {
        return Denied(tokens, Internal);
      }
      token := token.(usedAt := Some(luck.now));
      token := token.(revokedAt := Some(luck.now));
      tokens := tokens[found.value := token];
      if luck.signFails {
        tokens := before;
        return Denied(tokens, SigningFailed);
      }
      var stored := StoreToken(token.user, luck);
      if !stored || luck.commitFails {
        tokens := before;
        return Denied(tokens, Internal);
      }
      return Granted(tokens, luck.secret);
    }

    method SignOut(user: Id, luck: Luck) returns (r: AuthStep)
      modifies this
      ensures r == Logout(old(tokens), user, luck) && tokens == r.table
      ensures OthersUntouched(old(tokens), tokens, user)
    {
      var ok := RevokeByUser(user, luck);
      return if ok then Granted(tokens, "") else Denied(tokens, Internal);
    }
  }
}
