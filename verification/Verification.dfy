/** Verify: the live check of an uploaded file against the rows with its hash and the records the
    chain returns for them, and the re-reading of a cached verdict. */
module Verification {
  import opened Base
  import opened Credentials
  import opened Payload
  import opened Lifecycle
  import opened LifecycleInvariant
  import opened LifecycleRuns
  import R = Registry

  datatype Verdict =
    | Authentic | WasRevoked | HasExpired | PartyDisabled | HolderDisabled | IssuerDisabled | IntegrityWarning
    | Tampered | Suspicious | LowSimilarity | NotSimilar | NoIdentifiers | NoMatch

  /** `Confirmed` is an exact match on chain; `Unconfirmed` carries the integrity warning; `Fuzzy`
      hands over to the similarity search. */
  datatype Verification =
    | Confirmed(row: Credential, verdict: Verdict)
    | Unconfirmed(row: Credential)
    | ChainUnavailable
    | Remembered(verdict: Verdict, matched: Option<Credential>)
    | Fuzzy

  // ----- verifyExactCredentialMatches -----

  /** An account whose wallet go-ethereum parses to a non-zero address. */
  predicate HasWallet(users: Users, id: Id) {
    id in users && users[id].walletValid && users[id].address != 0
  }

  predicate MatchesExact(hash: Ascii, c: Credential, users: Users, r: R.Record) {
    && c.tokenId == Some(r.id) && c.fileHash == hash && r.hash == hash
    && c.id != "" && r.uri == c.id
    && c.issuer.Some? && HasWallet(users, c.holder) && HasWallet(users, c.issuer.value)
    && r.holder == users[c.holder].address && r.issuer == users[c.issuer.value].address
    && c.issuedAt != ZERO_TIME && r.issuedAt == IssuedAtToChain(c.issuedAt)
    && r.expiresAt == ExpiresAtToChain(c.expiresAt) && r.number == NumberToChain(c.number)
    && (c.revokedAt.Some? <==> r.revokedAt > 0)
  }

  /** The row and the record agree on every fact, each written out: the file, the row's own id, both
      wallets, the seconds of issue and expiry, the number, and whether they are revoked. */
  predicate Corroborates(hash: Ascii, c: Credential, users: Users, r: R.Record) {
    && c.tokenId == Some(r.id)
    && c.fileHash == hash && r.hash == hash && c.id != "" && r.uri == c.id
    && c.holder in users && users[c.holder].walletValid && r.holder == users[c.holder].address && r.holder != 0
    && c.issuer.Some? && c.issuer.value in users && users[c.issuer.value].walletValid
    && r.issuer == users[c.issuer.value].address && r.issuer != 0
    && c.issuedAt != ZERO_TIME && r.issuedAt == (c.issuedAt / 1_000_000_000) % 0x1_0000_0000_0000_0000
    && r.expiresAt == (if c.expiresAt == None then 0 else (c.expiresAt.value / 1_000_000_000) % 0x1_0000_0000_0000_0000)
    && r.number == (if c.number == None then "" else c.number.value)
    && (c.revokedAt == None <==> r.revokedAt == 0)
  }

  /** The comparison accepts exactly such a pair: one difference is enough to refuse it. */
  lemma {:induction false} ComparesEveryFact(hash: Ascii, c: Credential, users: Users, r: R.Record)
    ensures MatchesExact(hash, c, users, r) <==> Corroborates(hash, c, users, r)
  {
  }

  /** What a row needs for its facts to be comparable at all. */
  predicate Comparable(c: Credential, users: Users) {
    c.issuedAt != ZERO_TIME && HasWallet(users, c.holder) && c.issuer.Some? && HasWallet(users, c.issuer.value)
  }

  /** In a reachable world, a comparable activated row passes the comparison against the record at its
      token exactly when the two agree on revocation. */
  lemma {:induction false} ActivatedRowsMatch(w: World, id: Id)
    requires Inv(w) && id in w.rows && w.rows[id].activatedAt.Some?
    ensures var c := w.rows[id];
      && c.tokenId.Some? && c.tokenId.value in w.chain.records
      && (MatchesExact(c.fileHash, c, w.users, w.chain.records[c.tokenId.value])
          <==> (Comparable(c, w.users) && (c.revokedAt == None ==> !RecordRevoked(c, w.chain))))
  {
    assert Mirrors(w.rows[id], w.users, w.chain);
  }

  // ----- Choosing among the records of one hash -----

  /** credByTokenId: the last row with the token. */
  function Lookup(rows: seq<Credential>, t: TokenId): Option<Credential> {
    if rows == [] then None
    else if rows[|rows| - 1].tokenId == Some(t) then Some(rows[|rows| - 1])
    else Lookup(rows[..|rows| - 1], t)
  }

  predicate Hit(hash: Ascii, users: Users, rows: seq<Credential>, r: R.Record) {
    Lookup(rows, r.id).Some? && MatchesExact(hash, Lookup(rows, r.id).value, users, r)
  }

  /** An unrevoked record goes before a revoked one, then the later issue date counts. */
  predicate Outranks(r: R.Record, s: R.Record) {
    (r.revokedAt > 0 ==> s.revokedAt > 0) && (((r.revokedAt > 0) <==> (s.revokedAt > 0)) ==> r.issuedAt >= s.issuedAt)
  }

  ghost predicate IsBest(hash: Ascii, users: Users, rows: seq<Credential>, response: seq<R.Record>, k: nat) {
    && k < |response| && Hit(hash, users, rows, response[k])
    && forall j :: 0 <= j < |response| && Hit(hash, users, rows, response[j]) ==> Outranks(response[k], response[j])
  }

  ghost predicate NoHit(hash: Ascii, users: Users, rows: seq<Credential>, response: seq<R.Record>) {
    forall j :: 0 <= j < |response| ==> !Hit(hash, users, rows, response[j])
  }

  lemma {:induction false} LookupSnoc(rows: seq<Credential>, c: Credential, t: TokenId)
    ensures Lookup(rows + [c], t) == if c.tokenId == Some(t) then Some(c) else Lookup(rows, t)
  {
    assert (rows + [c])[..|rows|] == rows;
  }

  /** Row `i` is the last with the token of the record, and agrees with it. */
  ghost predicate Backs(hash: Ascii, users: Users, rows: seq<Credential>, r: R.Record, i: nat) {
    && i < |rows| && Corroborates(hash, rows[i], users, r)
    && forall j :: i < j < |rows| ==> rows[j].tokenId != Some(r.id)
  }

  lemma {:induction false} LookupIsLast(rows: seq<Credential>, t: TokenId)
    ensures Lookup(rows, t) == None <==> forall j :: 0 <= j < |rows| ==> rows[j].tokenId != Some(t)
    ensures forall i ::
      0 <= i < |rows| && rows[i].tokenId == Some(t) && (forall j :: i < j < |rows| ==> rows[j].tokenId != Some(t)) ==>
      Lookup(rows, t) == Some(rows[i])
    ensures Lookup(rows, t).Some? ==> exists i: nat :: LastWith(rows, t, i) && Lookup(rows, t) == Some(rows[i])
  {
    if rows != [] {
      var n := |rows| - 1;
      LookupIsLast(rows[..n], t);
      if rows[n].tokenId == Some(t) {
        assert LastWith(rows, t, n);
      } else if Lookup(rows[..n], t).Some? {
        var i: nat :| LastWith(rows[..n], t, i) && Lookup(rows[..n], t) == Some(rows[..n][i]);
        assert LastWith(rows, t, i);
      }
    }
  }

  ghost predicate LastWith(rows: seq<Credential>, t: TokenId, i: nat) {
    i < |rows| && rows[i].tokenId == Some(t) && forall j :: i < j < |rows| ==> rows[j].tokenId != Some(t)
  }

  /** A record decides for a row exactly when some row backs it. */
  lemma {:induction false} HitIsBacked(hash: Ascii, users: Users, rows: seq<Credential>, r: R.Record)
    ensures Hit(hash, users, rows, r) <==> exists i: nat :: Backs(hash, users, rows, r, i)
    ensures Hit(hash, users, rows, r) ==>
      exists i: nat :: Backs(hash, users, rows, r, i) && Lookup(rows, r.id) == Some(rows[i])
  {
    LookupIsLast(rows, r.id);
    if Lookup(rows, r.id).Some? {
      ComparesEveryFact(hash, Lookup(rows, r.id).value, users, r);
    }
    if Hit(hash, users, rows, r) {
      var i: nat :| LastWith(rows, r.id, i) && Lookup(rows, r.id) == Some(rows[i]);
      assert Backs(hash, users, rows, r, i);
    }
    if i: nat :| Backs(hash, users, rows, r, i) {
      ComparesEveryFact(hash, rows[i], users, r);
    }
  }

  method TokenTable(rows: seq<Credential>) returns (tokens: seq<TokenId>, table: map<TokenId, Credential>)
    ensures forall t :: t in table <==> Lookup(rows, t).Some?
    ensures forall t :: t in table ==> Lookup(rows, t) == Some(table[t])
    ensures tokens == TokensOf(rows)
  {
    tokens, table := [], map[];
    for i := 0 to |rows|
      invariant forall t :: t in table <==> Lookup(rows[..i], t).Some?
      invariant forall t :: t in table ==> Lookup(rows[..i], t) == Some(table[t])
      invariant tokens == TokensOf(rows[..i])
    {
      assert rows[..i + 1] == rows[..i] + [rows[i]];
      assert rows[..i + 1][..i] == rows[..i];
      forall t
        ensures Lookup(rows[..i + 1], t) == if rows[i].tokenId == Some(t) then Some(rows[i]) else Lookup(rows[..i], t)
      {
        LookupSnoc(rows[..i], rows[i], t);
      }
      if rows[i].tokenId.Some? {
        tokens := tokens + [rows[i].tokenId.value];
        table := table[rows[i].tokenId.value := rows[i]];
      }
    }
    assert rows[..|rows|] == rows;
  }

  method SelectBest(hash: Ascii, users: Users, rows: seq<Credential>, table: map<TokenId, Credential>,
                    response: seq<R.Record>)
    returns (best: Option<Credential>, revoked: bool)
    requires forall t :: t in table <==> Lookup(rows, t).Some?
    requires forall t :: t in table ==> Lookup(rows, t) == Some(table[t])
    ensures best == None <==> NoHit(hash, users, rows, response)
    ensures best.Some? ==> exists k: nat :: IsBest(hash, users, rows, response, k)
                                            && best == Lookup(rows, response[k].id)
                                            && revoked == (response[k].revokedAt > 0)
  {
    best, revoked := None, true;
    var bestAt := 0;
    for i := 0 to |response|
      invariant best == None <==> NoHit(hash, users, rows, response[..i])
      invariant best.Some? ==> IsBest(hash, users, rows, response[..i], bestAt)
      invariant best.Some? ==> best == Lookup(rows, response[bestAt].id) && revoked == (response[bestAt].revokedAt > 0)
    {
      ghost var before := response[..i];
      assert response[..i + 1] == before + [response[i]];
      var r := response[i];
      if r.id in table && MatchesExact(hash, table[r.id], users, r) {
        var isRevoked := r.revokedAt > 0;
        if best == None || (revoked && !isRevoked) || (revoked == isRevoked && r.issuedAt > response[bestAt].issuedAt) {
          best, bestAt, revoked := Some(table[r.id]), i, isRevoked;
        }
        assert Hit(hash, users, rows, response[..i + 1][i]);
      }
    }
    assert response[..|response|] == response;
  }

  // ----- The verdict -----

  predicate Gone(users: Users, id: Id) {
    id !in users || users[id].deletedAt.Some?
  }

  /** verifyApplyExpiry, then the parties; only an authentic verdict is refined. */
  function Refine(c: Credential, users: Users, now: Time): Verdict {
    var holderGone := Gone(users, c.holder);
    var issuerGone := c.issuer == None || Gone(users, c.issuer.value);
    if Lapsed(c, now) then HasExpired
    else if holderGone && issuerGone then PartyDisabled
    else if holderGone then HolderDisabled
    else if issuerGone then IssuerDisabled
    else Authentic
  }

  /** The verdict a row gets, case by case: revoked, then expired, then its parties, then authentic. A party
      is gone when it has no account or a trashed one. */
  predicate JudgedAs(c: Credential, verdict: Verdict, users: Users, now: Time) {
    var expired := c.expiresAt.Some? && c.expiresAt.value <= now;
    var standing := c.revokedAt == None && !expired;
    var holderThere := c.holder in users && users[c.holder].deletedAt == None;
    var issuerThere := c.issuer.Some? && c.issuer.value in users && users[c.issuer.value].deletedAt == None;
    && (verdict == WasRevoked <==> c.revokedAt.Some?)
    && (verdict == HasExpired <==> c.revokedAt == None && expired)
    && (verdict == PartyDisabled <==> standing && !holderThere && !issuerThere)
    && (verdict == HolderDisabled <==> standing && !holderThere && issuerThere)
    && (verdict == IssuerDisabled <==> standing && holderThere && !issuerThere)
    && (verdict == Authentic <==> standing && holderThere && issuerThere)
  }

  function LiveVerdict(c: Credential, revoked: bool, users: Users, now: Time): Verdict {
    if revoked then WasRevoked else Refine(c, users, now)
  }

  /** A stored verdict is served as it is, except that authentic is judged again on the row. */
  function CachedVerdict(verdict: Verdict, matched: Option<Credential>, users: Users, now: Time): Verdict {
    if verdict != Authentic then verdict
    else match matched
      case None => IntegrityWarning
      case Some(c) => if StatusOf(c, now) == Revoked then WasRevoked else Refine(c, users, now)
  }

  /** What the cache holds for an upload: a verdict and the row it was about, if any. */
  datatype CacheEntry = CacheEntry(verdict: Verdict, matched: Option<Id>)

  /** FindVerifiableById: rows that are not activated are invisible. */
  function Verifiable(rows: Rows, id: Option<Id>): Option<Credential> {
    if id.Some? && id.value in rows && rows[id.value].activatedAt.Some? then Some(rows[id.value]) else None
  }

  /** What the live check concludes, in terms of the rows found and the chain's answer. */
  ghost predicate Concludes(hash: Ascii, users: Users, rows: seq<Credential>, answer: Option<seq<R.Record>>, now: Time,
                            v: Verification) {
    && rows != []
    && (TokensOf(rows) == [] ==> v == Unconfirmed(rows[0]))
    && (TokensOf(rows) != [] && answer == None ==> v == ChainUnavailable)
    && (TokensOf(rows) != [] && answer.Some? ==> ConcludesFrom(hash, users, rows, answer.value, now, v))
  }

  ghost predicate ConcludesFrom(hash: Ascii, users: Users, rows: seq<Credential>, response: seq<R.Record>, now: Time,
                                v: Verification)
    requires rows != []
  {
    && (NoHit(hash, users, rows, response) ==> v == Unconfirmed(rows[0]))
    && (!NoHit(hash, users, rows, response) ==> exists k :: BacksVerdict(hash, users, rows, response, now, v, k))
  }

  ghost predicate BacksVerdict(hash: Ascii, users: Users, rows: seq<Credential>, response: seq<R.Record>, now: Time,
                               v: Verification, k: nat) {
    && IsBest(hash, users, rows, response, k)
    && v.Confirmed? && Some(v.row) == Lookup(rows, response[k].id)
    && v.verdict == LiveVerdict(v.row, response[k].revokedAt > 0, users, now)
  }

  /** Some record of the answer agrees with a row found, in every fact. */
  ghost predicate SomeBacked(hash: Ascii, users: Users, rows: seq<Credential>, response: seq<R.Record>) {
    exists k: nat, i: nat :: BackedAt(hash, users, rows, response, k, i)
  }

  ghost predicate BackedAt(hash: Ascii, users: Users, rows: seq<Credential>, response: seq<R.Record>, k: nat, i: nat) {
    k < |response| && Backs(hash, users, rows, response[k], i)
  }

  lemma {:induction false} NoHitIsUnbacked(hash: Ascii, users: Users, rows: seq<Credential>, response: seq<R.Record>)
    ensures NoHit(hash, users, rows, response) <==> !SomeBacked(hash, users, rows, response)
  {
    forall k: nat, i: nat | BackedAt(hash, users, rows, response, k, i) ensures Hit(hash, users, rows, response[k]) {
      HitIsBacked(hash, users, rows, response[k]);
    }
    if k: nat :| k < |response| && Hit(hash, users, rows, response[k]) {
      HitIsBacked(hash, users, rows, response[k]);
      var i: nat :| Backs(hash, users, rows, response[k], i);
      assert BackedAt(hash, users, rows, response, k, i);
    }
  }

  lemma {:induction false} TokensIfBacked(hash: Ascii, users: Users, rows: seq<Credential>, response: seq<R.Record>)
    ensures SomeBacked(hash, users, rows, response) ==> TokensOf(rows) != []
  {
    TokensAre(rows);
    if k: nat, i: nat :| BackedAt(hash, users, rows, response, k, i) {
      assert rows[i].tokenId == Some(response[k].id);
      assert response[k].id in TokensOf(rows);
    }
  }

  /** A confirmed verdict has a record that agrees with its row in every fact, and is judged on that row. */
  lemma {:induction false} ConfirmedIsBacked(hash: Ascii, users: Users, rows: seq<Credential>, response: seq<R.Record>,
                                             now: Time, v: Verification)
    requires Concludes(hash, users, rows, Some(response), now, v)
    ensures v.Confirmed? <==> SomeBacked(hash, users, rows, response)
    ensures !v.Confirmed? ==> v == Unconfirmed(rows[0])
    ensures v.Confirmed? ==> JudgedAs(v.row, v.verdict, users, now)
    ensures v.Confirmed? ==> exists k: nat, i: nat :: BackedAt(hash, users, rows, response, k, i) && v.row == rows[i]
  {
    TokensIfBacked(hash, users, rows, response);
    NoHitIsUnbacked(hash, users, rows, response);
    if TokensOf(rows) != [] && !NoHit(hash, users, rows, response) {
      var k: nat :| BacksVerdict(hash, users, rows, response, now, v, k);
      HitIsBacked(hash, users, rows, response[k]);
      var i: nat :| Backs(hash, users, rows, response[k], i) && Lookup(rows, response[k].id) == Some(rows[i]);
      assert BackedAt(hash, users, rows, response, k, i) && v.row == rows[i];
    }
  }

  /** One row, one record: confirmed if they agree in every fact, the integrity warning if they differ in any. */
  lemma {:induction false} OneDifferenceRefuses(hash: Ascii, users: Users, c: Credential, r: R.Record, now: Time,
                                                v: Verification)
    requires Concludes(hash, users, [c], Some([r]), now, v)
    ensures if Corroborates(hash, c, users, r) then v.Confirmed? && v.row == c else v == Unconfirmed(c)
  {
    ConfirmedIsBacked(hash, users, [c], [r], now, v);
    if Corroborates(hash, c, users, r) {
      assert BackedAt(hash, users, [c], [r], 0, 0);
    }
    if k: nat, i: nat :| BackedAt(hash, users, [c], [r], k, i) {
      assert k == 0 && i == 0;
    }
  }

  /** What a remembered verdict becomes: served as it is unless it says authentic; then judged on the row it
      was about, which must be activated, or an integrity warning when there is none. */
  predicate Recalls(entry: CacheEntry, rows: Rows, users: Users, now: Time, v: Verification) {
    var there := entry.matched.Some? && entry.matched.value in rows && rows[entry.matched.value].activatedAt.Some?;
    && v.Remembered?
    && v.matched == (if there then Some(rows[entry.matched.value]) else None)
    && (entry.verdict != Authentic ==> v.verdict == entry.verdict)
    && (entry.verdict == Authentic && !there ==> v.verdict == IntegrityWarning)
    && (entry.verdict == Authentic && there ==> JudgedAs(rows[entry.matched.value], v.verdict, users, now))
  }

  /** Verify up to the similarity search. `found` are the activated rows with the hash, in whatever
      order the table gives them; `answer` is the chain's, `None` when it cannot be reached. */
  method Verify(hash: Ascii, found: seq<Credential>, users: Users, answer: Option<seq<R.Record>>, now: Time,
                cached: Option<CacheEntry>, rows: Rows)
    returns (v: Verification)
    ensures found != [] ==> Concludes(hash, users, found, answer, now, v)
    ensures v.Confirmed? ==> answer.Some? && JudgedAs(v.row, v.verdict, users, now)
    ensures v.Confirmed? ==>
      exists k: nat, i: nat :: BackedAt(hash, users, found, answer.value, k, i) && v.row == found[i]
    ensures found != [] && answer.Some? && !SomeBacked(hash, users, found, answer.value) ==> v == Unconfirmed(found[0])
    ensures found == [] && cached == None ==> v == Fuzzy
    ensures found == [] && cached.Some? ==>
      v == Remembered(CachedVerdict(cached.value.verdict, Verifiable(rows, cached.value.matched), users, now),
                      Verifiable(rows, cached.value.matched))
    ensures found == [] && cached.Some? ==> Recalls(cached.value, rows, users, now, v)
  {
    if found != [] {
      v := CheckLive(hash, found, users, answer, now);
      if answer.Some? {
        ConfirmedIsBacked(hash, users, found, answer.value, now, v);
      }
      return;
    }
    if cached.Some? {
      var row := Verifiable(rows, cached.value.matched);
      return Remembered(CachedVerdict(cached.value.verdict, row, users, now), row);
    }
    return Fuzzy;
  }

  /** The live check, for at least one row found. */
  method CheckLive(hash: Ascii, found: seq<Credential>, users: Users, answer: Option<seq<R.Record>>, now: Time)
    returns (v: Verification)
    requires found != []
    ensures Concludes(hash, users, found, answer, now, v) && (answer == None ==> !v.Confirmed?)
  {
    var tokens, table := TokenTable(found);
    if tokens != [] {
      if answer == None {
        return ChainUnavailable;
      }
      var best, revoked := SelectBest(hash, users, found, table, answer.value);
      if best.Some? {
        var verdict := if revoked then WasRevoked else Authentic;
        if verdict == Authentic && Lapsed(best.value, now) {
          verdict := HasExpired;
        }
        if verdict == Authentic {
          var holderGone := Gone(users, best.value.holder);
          var issuerGone := best.value.issuer == None || Gone(users, best.value.issuer.value);
          if holderGone && issuerGone {
            verdict := PartyDisabled;
          } else if holderGone {
            verdict := HolderDisabled;
          } else if issuerGone {
            verdict := IssuerDisabled;
          }
        }
        v := Confirmed(best.value, verdict);
        ghost var k: nat :| IsBest(hash, users, found, answer.value, k)
                            && best == Lookup(found, answer.value[k].id)
                            && revoked == (answer.value[k].revokedAt > 0);
        assert BacksVerdict(hash, users, found, answer.value, now, v, k);
        return;
      }
    }
    return Unconfirmed(found[0]);
  }

  // ----- End to end -----

  /** `order` lists, once each and in any order, the activated rows with the hash (FindByFileHashes). */
  ghost predicate Finds(order: seq<Id>, rows: Rows, hash: Ascii) {
    && Distinct(order)
    && forall id :: id in order <==> id in rows && rows[id].activatedAt.Some? && rows[id].fileHash == hash
  }

  /** The chain answers with the records of the tokens asked for, in any order, repeated or not. */
  ghost predicate Answers(response: seq<R.Record>, tokens: seq<TokenId>, chain: R.Chain) {
    && (forall k :: 0 <= k < |response| ==>
          response[k].id in chain.records && response[k] == chain.records[response[k].id])
    && (forall t :: t in tokens && t in chain.records ==> exists k :: 0 <= k < |response| && response[k].id == t)
  }

  lemma {:induction false} LookupFinds(rows: Rows, order: seq<Id>, t: TokenId, id: Id)
    requires Distinct(order) && TokensUnique(rows) && (forall i :: 0 <= i < |order| ==> order[i] in rows)
    requires id in order && rows[id].tokenId == Some(t)
    ensures Lookup(Fetch(rows, order), t) == Some(rows[id])
  {
    var n := |order| - 1;
    assert Fetch(rows, order)[..n] == Fetch(rows, order[..n]);
    assert Fetch(rows, order)[n] == rows[order[n]];
    if order[n] != id {
      assert order == order[..n] + [order[n]];
      LookupFinds(rows, order[..n], t, id);
    }
  }

  lemma {:induction false} LookupIsRow(rows: Rows, order: seq<Id>, t: TokenId)
    requires forall i :: 0 <= i < |order| ==> order[i] in rows
    requires Lookup(Fetch(rows, order), t).Some?
    ensures exists id :: id in order && rows[id].tokenId == Some(t) && Lookup(Fetch(rows, order), t) == Some(rows[id])
  {
    var n := |order| - 1;
    assert Fetch(rows, order)[..n] == Fetch(rows, order[..n]);
    assert Fetch(rows, order)[n] == rows[order[n]];
    if rows[order[n]].tokenId != Some(t) {
      LookupIsRow(rows, order[..n], t);
      var id :| id in order[..n] && rows[id].tokenId == Some(t) && Lookup(Fetch(rows, order[..n]), t) == Some(rows[id]);
      assert id in order;
    }
  }

  /** The rows of one hash that the comparison accepts. */
  predicate Passes(w: World, id: Id, hash: Ascii) {
    && id in w.rows && w.rows[id].activatedAt.Some? && w.rows[id].fileHash == hash
    && Comparable(w.rows[id], w.users) && (w.rows[id].revokedAt == None ==> !RecordRevoked(w.rows[id], w.chain))
  }

  ghost predicate Upload(w: World, hash: Ascii, order: seq<Id>, response: seq<R.Record>) {
    Inv(w) && Finds(order, w.rows, hash) && order != [] && Answers(response, TokensOf(Fetch(w.rows, order)), w.chain)
  }

  lemma {:induction false} HitPasses(w: World, hash: Ascii, order: seq<Id>, response: seq<R.Record>, k: nat)
    requires Upload(w, hash, order, response) && k < |response| && Hit(hash, w.users, Fetch(w.rows, order), response[k])
    ensures exists id :: Passes(w, id, hash) && w.rows[id].tokenId == Some(response[k].id)
                         && Lookup(Fetch(w.rows, order), response[k].id) == Some(w.rows[id])
                         && (w.rows[id].revokedAt.Some? <==> response[k].revokedAt > 0)
  {
    assert forall i :: 0 <= i < |order| ==> order[i] in order;
    LookupIsRow(w.rows, order, response[k].id);
    var id :| id in order && w.rows[id].tokenId == Some(response[k].id)
              && Lookup(Fetch(w.rows, order), response[k].id) == Some(w.rows[id]);
    ActivatedRowsMatch(w, id);
    assert Passes(w, id, hash);
  }

  lemma {:induction false} PassesHit(w: World, hash: Ascii, order: seq<Id>, response: seq<R.Record>, id: Id)
    requires Upload(w, hash, order, response) && Passes(w, id, hash)
    ensures exists k :: 0 <= k < |response| && w.rows[id].tokenId == Some(response[k].id)
                        && Hit(hash, w.users, Fetch(w.rows, order), response[k])
                        && (w.rows[id].revokedAt.Some? <==> response[k].revokedAt > 0)
  {
    assert forall i :: 0 <= i < |order| ==> order[i] in order;
    ActivatedRowsMatch(w, id);
    var t := w.rows[id].tokenId.value;
    TokensAre(Fetch(w.rows, order));
    var i :| 0 <= i < |order| && order[i] == id;
    assert Fetch(w.rows, order)[i] == w.rows[id];
    assert t in TokensOf(Fetch(w.rows, order));
    var k :| 0 <= k < |response| && response[k].id == t;
    LookupFinds(w.rows, order, t, id);
  }

  /** The live check confirms an upload exactly when some row of its hash passes, and the verdict is
      revoked exactly when every row that passes is revoked; otherwise the row shown is the only
      unrevoked one. All of it whatever order the table and the chain answer in. */
  lemma {:induction false} LiveCheck(w: World, hash: Ascii, order: seq<Id>, response: seq<R.Record>, v: Verification)
    requires Upload(w, hash, order, response)
    requires Concludes(hash, w.users, Fetch(w.rows, order), Some(response), w.clock, v)
    ensures v.Confirmed? <==> exists id :: Passes(w, id, hash)
    ensures v.Confirmed? ==> exists id :: Passes(w, id, hash) && v.row == w.rows[id]
    ensures v.Confirmed? ==>
      (v.verdict == WasRevoked <==> forall id :: Passes(w, id, hash) ==> w.rows[id].revokedAt.Some?)
    ensures v.Confirmed? && v.verdict != WasRevoked ==>
      && v.verdict == Refine(v.row, w.users, w.clock)
      && forall id :: Passes(w, id, hash) && w.rows[id].revokedAt == None ==> v.row == w.rows[id]
    ensures !v.Confirmed? ==> v == Unconfirmed(w.rows[order[0]])
  {
    var rows := Fetch(w.rows, order);
    TokensThere(w, hash, order, response);
    if NoHit(hash, w.users, rows, response) {
      forall id ensures !Passes(w, id, hash) {
        if Passes(w, id, hash) {
          PassesHit(w, hash, order, response, id);
        }
      }
    } else {
      var k :| BacksVerdict(hash, w.users, rows, response, w.clock, v, k);
      ChoiceIsRight(w, hash, order, response, v, k);
    }
  }

  lemma {:induction false} TokensThere(w: World, hash: Ascii, order: seq<Id>, response: seq<R.Record>)
    requires Upload(w, hash, order, response)
    ensures TokensOf(Fetch(w.rows, order)) != []
  {
    assert order[0] in order;
    ActivatedRowsMatch(w, order[0]);
    TokensAre(Fetch(w.rows, order));
    assert Fetch(w.rows, order)[0].tokenId.Some?;
  }

  lemma {:induction false} ChoiceIsRight(w: World, hash: Ascii, order: seq<Id>, response: seq<R.Record>,
                                         v: Verification, k: nat)
    requires Upload(w, hash, order, response)
    requires BacksVerdict(hash, w.users, Fetch(w.rows, order), response, w.clock, v, k)
    ensures exists id :: Passes(w, id, hash) && v.row == w.rows[id]
    ensures v.verdict == WasRevoked <==> forall id :: Passes(w, id, hash) ==> w.rows[id].revokedAt.Some?
    ensures v.verdict != WasRevoked ==>
      && v.verdict == Refine(v.row, w.users, w.clock)
      && forall id :: Passes(w, id, hash) && w.rows[id].revokedAt == None ==> v.row == w.rows[id]
  {
    HitPasses(w, hash, order, response, k);
    var best :| Passes(w, best, hash) && Lookup(Fetch(w.rows, order), response[k].id) == Some(w.rows[best])
                && (w.rows[best].revokedAt.Some? <==> response[k].revokedAt > 0);
    forall id | Passes(w, id, hash) && w.rows[id].revokedAt == None
      ensures response[k].revokedAt == 0 && id == best
    {
      UnrevokedWins(w, hash, order, response, k, id);
      OneUnrevoked(w, id, best, hash);
    }
    RefineNotRevoked(v.row, w.users, w.clock);
  }

  lemma {:induction false} RefineNotRevoked(c: Credential, users: Users, now: Time)
    ensures Refine(c, users, now) != WasRevoked
  {
  }

  lemma {:induction false} UnrevokedWins(w: World, hash: Ascii, order: seq<Id>, response: seq<R.Record>, k: nat, id: Id)
    requires Upload(w, hash, order, response) && IsBest(hash, w.users, Fetch(w.rows, order), response, k)
    requires Passes(w, id, hash) && w.rows[id].revokedAt == None
    ensures response[k].revokedAt == 0
  {
    PassesHit(w, hash, order, response, id);
  }

  /** Two unrevoked activated rows never share a hash. */
  lemma {:induction false} OneUnrevoked(w: World, a: Id, b: Id, hash: Ascii)
    requires Inv(w) && Passes(w, a, hash) && Passes(w, b, hash)
    requires w.rows[a].revokedAt == None && w.rows[b].revokedAt == None
    ensures a == b
  {
    assert RowAllowed(w.rows[a], w.users) && RowAllowed(w.rows[b], w.users);
  }

  /** The row of an upload's verdict: one of those with the hash, the only unrevoked one if there is any. */
  ghost predicate ShowsRow(c: Credential, order: seq<Id>, rows: Rows)
    requires forall id :: id in order ==> id in rows
  {
    && (exists id :: id in order && c == rows[id])
    && (c.revokedAt.Some? <==> forall id :: id in order ==> rows[id].revokedAt.Some?)
    && (c.revokedAt == None ==> forall id :: id in order && rows[id].revokedAt == None ==> c == rows[id])
  }

  /** Where no revocation was lost and the rows are comparable: the exact bytes of an activated row
      are always confirmed; the verdict is revoked if and only if every activated row with the hash
      is revoked, and otherwise it is about the one that is not: expired first, then its parties. */
  lemma {:induction false} UploadVerdict(w: World, hash: Ascii, order: seq<Id>, response: seq<R.Record>,
                                         v: Verification)
    requires Upload(w, hash, order, response) && InStep(w)
    requires forall id :: id in order ==> Comparable(w.rows[id], w.users)
    requires Concludes(hash, w.users, Fetch(w.rows, order), Some(response), w.clock, v)
    ensures v.Confirmed? && ShowsRow(v.row, order, w.rows)
    ensures v.verdict == WasRevoked <==> forall id :: id in order ==> w.rows[id].revokedAt.Some?
    ensures v.verdict != WasRevoked ==> v.verdict == Refine(v.row, w.users, w.clock)
    ensures JudgedAs(v.row, v.verdict, w.users, w.clock)
  {
    forall id ensures Passes(w, id, hash) <==> id in order {
      if id in order {
        ActivatedRowsMatch(w, id);
      }
    }
    assert Passes(w, order[0], hash) by {
      assert order[0] in order;
    }
    LiveCheck(w, hash, order, response, v);
    var id :| Passes(w, id, hash) && v.row == w.rows[id];
    assert id in order;
    VerdictOf(w, order, v, id);
  }

  lemma {:induction false} VerdictOf(w: World, order: seq<Id>, v: Verification, id: Id)
    requires forall a :: a in order ==> a in w.rows
    requires v.Confirmed? && id in order && v.row == w.rows[id] && "" !in w.users
    requires v.row.issuer.Some?
    requires v.verdict == WasRevoked <==> forall a :: a in order ==> w.rows[a].revokedAt.Some?
    requires v.verdict != WasRevoked ==> v.verdict == Refine(v.row, w.users, w.clock)
    requires v.verdict != WasRevoked ==> forall a :: a in order && w.rows[a].revokedAt == None ==> v.row == w.rows[a]
    ensures ShowsRow(v.row, order, w.rows) && JudgedAs(v.row, v.verdict, w.users, w.clock)
  {
    if v.verdict != WasRevoked {
      var a :| a in order && w.rows[a].revokedAt == None;
      assert v.row == w.rows[a];
    }
  }

  /** The same over every run in which no mined revocation is lost, failed mints and lost approvals included. */
  lemma {:induction false} EndToEnd(w: World, actions: seq<Action>, hash: Ascii, order: seq<Id>,
                                    response: seq<R.Record>, v: Verification)
    requires Initial(w) && forall i :: 0 <= i < |actions| ==> !LosesRevocation(actions[i])
    requires Finds(order, Run(w, actions).rows, hash) && order != []
    requires forall id :: id in order ==>
      id in Run(w, actions).rows && Comparable(Run(w, actions).rows[id], Run(w, actions).users)
    requires Answers(response, TokensOf(Fetch(Run(w, actions).rows, order)), Run(w, actions).chain)
    requires Concludes(hash, Run(w, actions).users, Fetch(Run(w, actions).rows, order), Some(response),
                       Run(w, actions).clock, v)
    ensures v.Confirmed? && ShowsRow(v.row, order, Run(w, actions).rows)
    ensures v.verdict == WasRevoked <==> forall id :: id in order ==> Run(w, actions).rows[id].revokedAt.Some?
    ensures v.verdict != WasRevoked ==> v.verdict == Refine(v.row, Run(w, actions).users, Run(w, actions).clock)
    ensures JudgedAs(v.row, v.verdict, Run(w, actions).users, Run(w, actions).clock)
  {
    ReachableWorlds(w, []);
    ReachableWorlds(w, actions);
    RunsStayInStep(w, actions);
    UploadVerdict(Run(w, actions), hash, order, response, v);
  }

  /** A row whose revocation was lost never is the row of a confirmed verdict again. */
  lemma {:induction false} StuckNeverConfirmed(w: World, hash: Ascii, order: seq<Id>, response: seq<R.Record>,
                                               v: Verification, id: Id)
    requires Upload(w, hash, order, response) && Stuck(w, id)
    requires Concludes(hash, w.users, Fetch(w.rows, order), Some(response), w.clock, v)
    ensures v.Confirmed? ==> v.row != w.rows[id]
  {
    LiveCheck(w, hash, order, response, v);
    if v.Confirmed? {
      var a :| Passes(w, a, hash) && v.row == w.rows[a];
      assert a == id ==> !Passes(w, a, hash);
      assert w.rows[a].id == a && w.rows[id].id == id;
    }
  }

  /** A remembered authentic verdict is served only for an activated row that is still unrevoked and
      unexpired with both parties present; every other remembered verdict is served unchanged. */
  lemma {:induction false} CacheNeverStale(rows: Rows, entry: CacheEntry, users: Users, now: Time)
    ensures var row := Verifiable(rows, entry.matched);
      var served := CachedVerdict(entry.verdict, row, users, now);
      && (entry.verdict != Authentic ==> served == entry.verdict)
      && (served == Authentic <==>
            entry.verdict == Authentic && row.Some? && row.value.activatedAt.Some? && row.value.revokedAt == None
            && !Lapsed(row.value, now) && !Gone(users, row.value.holder)
            && row.value.issuer.Some? && !Gone(users, row.value.issuer.value))
  {
    if Verifiable(rows, entry.matched).Some? {
      var c := Verifiable(rows, entry.matched).value;
      assert StatusOf(c, now) == Revoked <==> c.revokedAt.Some?;
    }
  }

  /** Over runs: a verdict remembered for an activated row is served as authentic at a later point if and
      only if it was authentic and by then the row is unrevoked and unexpired with both parties present.
      Being activated cannot be lost in between. */
  lemma {:induction false} CacheOverRuns(w: World, before: seq<Action>, after: seq<Action>, entry: CacheEntry)
    requires Initial(w) && entry.matched.Some? && entry.matched.value in Run(w, before).rows
    requires Run(w, before).rows[entry.matched.value].activatedAt.Some?
    ensures entry.matched.value in Run(Run(w, before), after).rows
    ensures var later := Run(Run(w, before), after);
      var c := later.rows[entry.matched.value];
      var served := CachedVerdict(entry.verdict, Verifiable(later.rows, entry.matched), later.users, later.clock);
      if entry.verdict == Authentic then JudgedAs(c, served, later.users, later.clock) else served == entry.verdict
  {
    LifecycleSafety(w, before, after, entry.matched.value);
    ReachableWorlds(w, before);
    RunKeeps(Run(w, before), after);
    var later := Run(Run(w, before), after);
    CacheNeverStale(later.rows, entry, later.users, later.clock);
    assert "" !in later.users;
  }
}
