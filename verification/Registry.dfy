/** The CredentialRegistry contract as the services see it. The Solidity body is not part of the
    repository; what is assumed of it is written out here: batches are all-or-nothing, a hash that
    is already issued is refused, so are unknown and already revoked ids, and only `revokedAt` of
    a record ever changes. */
module Registry {
  import opened Base
  import opened Payload

  datatype HashStatus = Absent | Issued | Revoked

  datatype Record = Record(
    id: TokenId,
    holder: Address,
    issuer: Address,
    hash: Ascii,
    uri: Id,
    issuedAt: nat,
    expiresAt: nat,
    number: string,
    revokedAt: nat
  )

  datatype Issuance = Issuance(holder: Address, hash: Ascii, uri: Id, issuedAt: nat, expiresAt: nat, number: string)

  datatype Chain = Chain(records: map<TokenId, Record>, statuses: map<Ascii, HashStatus>, nonces: map<Address, Word>)

  function StatusOf(c: Chain, hash: Ascii): HashStatus {
    if hash in c.statuses then c.statuses[hash] else Absent
  }

  function NonceOf(c: Chain, a: Address): Word {
    if a in c.nonces then c.nonces[a] else 0
  }

  function RecordOf(issuer: Address, nonce: Word, it: Issuance): Record {
    Record(TokenOf(issuer, nonce, it.holder, it.hash), it.holder, issuer, it.hash, it.uri,
           it.issuedAt, it.expiresAt, it.number, 0)
  }

  /** One item of a batch. */
  function IssueOne(c: Chain, r: Record): Option<Chain> {
    if StatusOf(c, r.hash) == Issued || r.id in c.records then None
    else Some(c.(records := c.records[r.id := r], statuses := c.statuses[r.hash := Issued]))
  }

  function IssueAll(c: Chain, batch: seq<Record>): Option<Chain> {
    if batch == [] then Some(c)
    else match IssueAll(c, batch[..|batch| - 1])
         case None => None
         case Some(c') => IssueOne(c', batch[|batch| - 1])
  }

  /** batchIssueCredentialsWithSignature: all of the batch or nothing, and the nonce is spent. */
  function IssueBatch(c: Chain, issuer: Address, batch: seq<Record>): Option<Chain> {
    if NonceOf(c, issuer) + 1 >= WORD_LIMIT then None
    else match IssueAll(c, batch)
         case None => None
         case Some(c') => Some(c'.(nonces := c.nonces[issuer := NonceOf(c, issuer) + 1]))
  }

  function RevokeOne(c: Chain, t: TokenId, at: nat): Option<Chain> {
    if t !in c.records || c.records[t].revokedAt > 0 then None
    else Some(c.(records := c.records[t := c.records[t].(revokedAt := at)],
                 statuses := c.statuses[c.records[t].hash := Revoked]))
  }

  function RevokeAll(c: Chain, tokens: seq<TokenId>, at: nat): Option<Chain> {
    if tokens == [] then Some(c)
    else match RevokeAll(c, tokens[..|tokens| - 1], at)
         case None => None
         case Some(c') => RevokeOne(c', tokens[|tokens| - 1], at)
  }

  /** batchRevokeCredentialsWithSignature. */
  function RevokeBatch(c: Chain, revoker: Address, tokens: seq<TokenId>, at: nat): Option<Chain> {
    var nonce := NonceOf(c, revoker);
    if nonce + 1 >= WORD_LIMIT || at == 0 then None
    else match RevokeAll(c, tokens, at)
         case None => None
         case Some(c') => Some(c'.(nonces := c.nonces[revoker := nonce + 1]))
  }

  // ----- What the contract keeps -----

  predicate Live(c: Chain, t: TokenId) {
    t in c.records && c.records[t].revokedAt == 0
  }

  predicate Holds(c: Chain, t: TokenId, hash: Ascii) {
    Live(c, t) && c.records[t].hash == hash
  }

  /** Records are stored under their id; a hash is issued exactly while one unrevoked record holds it. */
  ghost predicate Sound(c: Chain) {
    && (forall t :: t in c.records ==> c.records[t].id == t)
    && (forall t, h :: Holds(c, t, h) ==> StatusOf(c, h) == Issued)
    && (forall h :: StatusOf(c, h) == Issued ==> exists t :: Holds(c, t, h))
    && (forall t, u, h :: Holds(c, t, h) && Holds(c, u, h) ==> t == u)
  }

  /** Every record of `c` is still there, unchanged. */
  ghost predicate Extends(c: Chain, c': Chain) {
    forall t :: t in c.records ==> t in c'.records && c'.records[t] == c.records[t]
  }

  lemma {:induction false} IssueOneSound(c: Chain, r: Record)
    requires Sound(c) && r.revokedAt == 0 && IssueOne(c, r).Some?
    ensures Sound(IssueOne(c, r).value) && Extends(c, IssueOne(c, r).value)
  {
    var c' := IssueOne(c, r).value;
    forall t, h ensures Holds(c', t, h) <==> (if t == r.id then h == r.hash else Holds(c, t, h)) {
    }
    forall h | StatusOf(c', h) == Issued ensures exists t :: Holds(c', t, h) {
      if h == r.hash {
        assert Holds(c', r.id, h);
      } else {
        assert StatusOf(c, h) == Issued;
        var t :| Holds(c, t, h);
        assert Holds(c', t, h);
      }
    }
  }

  /** The record of one item is new in `c'` and written exactly as asked. */
  predicate Added(c: Chain, c': Chain, r: Record) {
    r.id !in c.records && r.id in c'.records && c'.records[r.id] == r
  }

  predicate InBatch(t: TokenId, batch: seq<Record>) {
    exists i :: 0 <= i < |batch| && t == batch[i].id
  }

  /** `c'` is `c` with exactly the records of the batch added. */
  ghost predicate Minted(c: Chain, c': Chain, batch: seq<Record>) {
    && Extends(c, c')
    && (forall i :: 0 <= i < |batch| ==> Added(c, c', batch[i]))
    && (forall t :: t in c'.records ==> t in c.records || InBatch(t, batch))
  }

  lemma {:induction false} MintedStep(c: Chain, c1: Chain, c': Chain, batch: seq<Record>)
    requires batch != [] && Minted(c, c1, batch[..|batch| - 1])
    requires IssueOne(c1, batch[|batch| - 1]) == Some(c')
    ensures Minted(c, c', batch)
  {
    var n := |batch| - 1;
    var front := batch[..n];
    forall i | 0 <= i < |batch| ensures Added(c, c', batch[i]) {
      if i < n {
        assert front[i] == batch[i];
        assert Added(c, c1, front[i]);
      }
    }
    forall t | t in c'.records && t !in c.records ensures InBatch(t, batch) {
      if t == batch[n].id {
        assert InBatch(t, batch);
      } else {
        assert InBatch(t, front);
        var i :| 0 <= i < |front| && t == front[i].id;
        assert batch[i] == front[i];
      }
    }
  }

  ghost predicate Unrevoked(batch: seq<Record>) {
    forall i :: 0 <= i < |batch| ==> batch[i].revokedAt == 0
  }

  /** A minted batch adds exactly the requested records and leaves every earlier record as it was. */
  lemma {:induction false} IssueAllMints(c: Chain, batch: seq<Record>)
    requires Sound(c) && Unrevoked(batch) && IssueAll(c, batch).Some?
    ensures Sound(IssueAll(c, batch).value)
    ensures Minted(c, IssueAll(c, batch).value, batch)
  {
    if batch != [] {
      var n := |batch| - 1;
      IssueAllMints(c, batch[..n]);
      var c1 := IssueAll(c, batch[..n]).value;
      IssueOneSound(c1, batch[n]);
      MintedStep(c, c1, IssueAll(c, batch).value, batch);
    }
  }

  /** The ids of an accepted batch differ from one another. */
  lemma {:induction false} IssuedIdsDiffer(c: Chain, batch: seq<Record>, i: nat, j: nat)
    requires Sound(c) && Unrevoked(batch) && IssueAll(c, batch).Some? && i < j < |batch|
    ensures batch[i].id != batch[j].id
  {
    var n := |batch| - 1;
    if j < n {
      assert batch[..n][i] == batch[i] && batch[..n][j] == batch[j];
      IssuedIdsDiffer(c, batch[..n], i, j);
    } else {
      IssueAllMints(c, batch[..n]);
      assert Added(c, IssueAll(c, batch[..n]).value, batch[..n][i]);
    }
  }

  lemma {:induction false} RestampNonce(c: Chain, nonces: map<Address, Word>)
    requires Sound(c)
    ensures Sound(c.(nonces := nonces))
  {
    var c' := c.(nonces := nonces);
    forall t, h ensures Holds(c', t, h) <==> Holds(c, t, h) {
    }
    forall h | StatusOf(c', h) == Issued ensures exists t :: Holds(c', t, h) {
      assert StatusOf(c, h) == Issued;
      var t :| Holds(c, t, h);
      assert Holds(c', t, h);
    }
  }

  /** The signer's nonce is one higher, everybody else's is what it was. */
  ghost predicate NonceSpent(c: Chain, c': Chain, signer: Address) {
    forall a :: NonceOf(c', a) == NonceOf(c, a) + if a == signer then 1 else 0
  }

  lemma {:induction false} IssueBatchMints(c: Chain, issuer: Address, batch: seq<Record>)
    requires Sound(c) && Unrevoked(batch) && IssueBatch(c, issuer, batch).Some?
    ensures Sound(IssueBatch(c, issuer, batch).value)
    ensures Minted(c, IssueBatch(c, issuer, batch).value, batch)
    ensures NonceSpent(c, IssueBatch(c, issuer, batch).value, issuer)
  {
    IssueAllMints(c, batch);
    MintedRestamped(c, IssueAll(c, batch).value, batch, c.nonces[issuer := NonceOf(c, issuer) + 1]);
  }

  lemma {:induction false} MintedRestamped(c: Chain, c1: Chain, batch: seq<Record>, nonces: map<Address, Word>)
    requires Sound(c1) && Minted(c, c1, batch)
    ensures Sound(c1.(nonces := nonces)) && Minted(c, c1.(nonces := nonces), batch)
  {
    RestampNonce(c1, nonces);
    forall i | 0 <= i < |batch| ensures Added(c, c1.(nonces := nonces), batch[i]) {
      assert Added(c, c1, batch[i]);
    }
  }

  /** A hash that is already issued stops the whole batch. */
  lemma {:induction false} IssuedHashRefused(c: Chain, batch: seq<Record>, k: nat)
    requires Sound(c) && Unrevoked(batch) && k < |batch| && StatusOf(c, batch[k].hash) == Issued
    ensures IssueAll(c, batch) == None
  {
    var n := |batch| - 1;
    if k < n {
      assert batch[..n][k] == batch[k];
      IssuedHashRefused(c, batch[..n], k);
    } else if IssueAll(c, batch[..n]).Some? {
      IssueAllMints(c, batch[..n]);
      var c1 := IssueAll(c, batch[..n]).value;
      var t :| Holds(c, t, batch[n].hash);
      assert Holds(c1, t, batch[n].hash);
    }
  }

  // ----- Revocation -----

  /** `c'` is `c` with exactly the listed records, all unrevoked before, stamped as revoked. */
  ghost predicate Stamped(c: Chain, c': Chain, tokens: seq<TokenId>, at: nat) {
    && c'.records.Keys == c.records.Keys
    && (forall t :: t in tokens ==> Live(c, t))
    && (forall t :: t in c.records ==>
          c'.records[t] == if t in tokens then c.records[t].(revokedAt := at) else c.records[t])
  }

  lemma {:induction false} RevokeOneSound(c: Chain, t: TokenId, at: nat)
    requires Sound(c) && at > 0 && RevokeOne(c, t, at).Some?
    ensures Sound(RevokeOne(c, t, at).value)
  {
    var c' := RevokeOne(c, t, at).value;
    var gone := c.records[t].hash;
    assert Holds(c, t, gone);
    forall u, h ensures Holds(c', u, h) <==> u != t && Holds(c, u, h) {
    }
    forall h | StatusOf(c', h) == Issued ensures exists u :: Holds(c', u, h) {
      assert StatusOf(c, h) == Issued;
      var u :| Holds(c, u, h);
      assert Holds(c', u, h);
    }
  }

  lemma {:induction false} StampedStep(c: Chain, c1: Chain, c': Chain, tokens: seq<TokenId>, at: nat)
    requires tokens != [] && at > 0 && Stamped(c, c1, tokens[..|tokens| - 1], at)
    requires RevokeOne(c1, tokens[|tokens| - 1], at) == Some(c')
    ensures Stamped(c, c', tokens, at)
  {
    var n := |tokens| - 1;
    assert forall t :: t in tokens <==> t in tokens[..n] || t == tokens[n];
  }

  lemma {:induction false} RevokeAllStamps(c: Chain, tokens: seq<TokenId>, at: nat)
    requires Sound(c) && at > 0 && RevokeAll(c, tokens, at).Some?
    ensures Sound(RevokeAll(c, tokens, at).value)
    ensures Stamped(c, RevokeAll(c, tokens, at).value, tokens, at)
  {
    if tokens != [] {
      var n := |tokens| - 1;
      RevokeAllStamps(c, tokens[..n], at);
      var c1 := RevokeAll(c, tokens[..n], at).value;
      RevokeOneSound(c1, tokens[n], at);
      StampedStep(c, c1, RevokeAll(c, tokens, at).value, tokens, at);
    }
  }

  lemma {:induction false} RevokeBatchStamps(c: Chain, revoker: Address, tokens: seq<TokenId>, at: nat)
    requires Sound(c) && RevokeBatch(c, revoker, tokens, at).Some?
    ensures at > 0 && Sound(RevokeBatch(c, revoker, tokens, at).value)
    ensures Stamped(c, RevokeBatch(c, revoker, tokens, at).value, tokens, at)
    ensures NonceSpent(c, RevokeBatch(c, revoker, tokens, at).value, revoker)
  {
    RevokeAllStamps(c, tokens, at);
    RestampNonce(RevokeAll(c, tokens, at).value, c.nonces[revoker := NonceOf(c, revoker) + 1]);
  }
}
