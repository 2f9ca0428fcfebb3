/** What one action may change, proved once for every action, and what follows for whole runs:
    decided rows are frozen, a revoked record is never unrevoked, a record without a row blocks its
    file for good. */
module LifecycleRuns {
  import opened Base
  import opened Credentials
  import opened Payload
  import opened Lifecycle
  import opened LifecycleInvariant
  import R = Registry

  // ----- One step -----

  /** Reviewed, or expired before it was. */
  predicate Decided(c: Credential, now: Time) {
    c.activatedAt.Some? || c.rejectedAt.Some? || Lapsed(c, now)
  }

  /** Only revocation and extraction may still touch the row, and only an activated row is revoked, once. */
  predicate Frozen(c: Credential, c': Credential) {
    && c' == c.(revoker := c'.revoker, revokedAt := c'.revokedAt, extractEnqueuedAt := c'.extractEnqueuedAt,
                extractedAt := c'.extractedAt, extractFailedAt := c'.extractFailedAt, extractError := c'.extractError,
                updatedAt := c'.updatedAt)
    && (c.revokedAt.Some? ==> c'.revokedAt == c.revokedAt && c'.revoker == c.revoker)
    && (c'.revokedAt.Some? ==> c.activatedAt.Some?)
  }

  predicate RowStep(c: Credential, c': Credential, now: Time) {
    && c'.id == c.id && c'.holder == c.holder && c'.submitter == c.submitter
    && c'.fileHash == c.fileHash && c'.fileUri == c.fileUri
    && (Decided(c, now) ==> Frozen(c, c'))
  }

  ghost predicate RowsStep(rows: Rows, rows': Rows, now: Time) {
    forall id :: id in rows ==> id in rows' && RowStep(rows[id], rows'[id], now)
  }

  predicate RecordStep(r: R.Record, r': R.Record) {
    r' == r.(revokedAt := r'.revokedAt) && (r.revokedAt > 0 ==> r' == r)
  }

  /** Records stay; new ones are unrevoked and their hash was free. */
  ghost predicate RecordsStep(chain: R.Chain, chain': R.Chain) {
    && (forall t :: t in chain.records ==> t in chain'.records && RecordStep(chain.records[t], chain'.records[t]))
    && (forall t :: t in chain'.records && t !in chain.records ==>
          chain'.records[t].revokedAt == 0 && R.StatusOf(chain, chain'.records[t].hash) != R.Issued)
  }

  predicate Dies(t: TokenId, chain: R.Chain, chain': R.Chain) {
    R.Live(chain, t) && !R.Live(chain', t)
  }

  predicate Owned(rows: Rows, t: TokenId) {
    exists id | id in rows :: rows[id].tokenId == Some(t)
  }

  ghost predicate OnlyOwnedDie(rows: Rows, chain: R.Chain, chain': R.Chain) {
    forall t :: Dies(t, chain, chain') ==> Owned(rows, t)
  }

  /** A token a row did not have names a record that did not exist. */
  ghost predicate TokensNew(rows: Rows, rows': Rows, chain: R.Chain) {
    forall id :: id in rows' && rows'[id].tokenId.Some? ==>
      (id in rows && rows[id].tokenId == rows'[id].tokenId) || rows'[id].tokenId.value !in chain.records
  }

  ghost predicate ActivationsUnissued(rows: Rows, rows': Rows, chain: R.Chain) {
    forall id :: id in rows' && rows'[id].activatedAt.Some? ==>
      (id in rows && rows[id].activatedAt.Some?) || R.StatusOf(chain, rows'[id].fileHash) != R.Issued
  }

  predicate LiveToken(c: Credential, chain: R.Chain) {
    c.tokenId.Some? && R.Live(chain, c.tokenId.value)
  }

  ghost predicate RevocationsLive(rows: Rows, rows': Rows, chain: R.Chain) {
    forall id :: id in rows && id in rows' && rows[id].revokedAt == None && rows'[id].revokedAt.Some? ==>
      LiveToken(rows[id], chain)
  }

  /** A record that is revoked belongs to a row that says so. */
  ghost predicate DeathsShown(rows: Rows, rows': Rows, chain: R.Chain, chain': R.Chain) {
    forall id :: id in rows && id in rows' ==>
      LiveToken(rows[id], chain) && Dies(rows[id].tokenId.value, chain, chain') ==> rows'[id].revokedAt.Some?
  }

  ghost predicate NotesStep(notes: Notes, notes': Notes) {
    forall k :: k in notes ==> k in notes' && notes'[k] == notes[k]
  }

  /** `lost` marks a revocation that is mined while its unit of work is not committed. */
  ghost predicate Transition(w: World, w': World, lost: bool) {
    && RowsStep(w.rows, w'.rows, w.clock)
    && RecordsStep(w.chain, w'.chain)
    && OnlyOwnedDie(w.rows, w.chain, w'.chain)
    && TokensNew(w.rows, w'.rows, w.chain)
    && ActivationsUnissued(w.rows, w'.rows, w.chain)
    && RevocationsLive(w.rows, w'.rows, w.chain)
    && (!lost ==> DeathsShown(w.rows, w'.rows, w.chain, w'.chain))
    && NotesStep(w.notes, w'.notes)
    && w.clock <= w'.clock
  }

  predicate LosesRevocation(a: Action) {
    a.DoRevoke? && (a.fault == MinedUnseen || a.fault == CommitFails)
  }

  // ----- Steps that leave the chain alone -----

  /** Rows change without being activated, revoked or given a token; new rows start pending. */
  ghost predicate Plain(rows: Rows, rows': Rows) {
    forall id :: id in rows' ==>
      if id in rows then PlainRow(rows[id], rows'[id])
      else rows'[id].tokenId == None && rows'[id].activatedAt == None
  }

  predicate PlainRow(c: Credential, c': Credential) {
    c'.tokenId == c.tokenId && c'.activatedAt == c.activatedAt && c'.revokedAt == c.revokedAt
  }

  lemma {:induction false} PlainSteps(w: World, w': World)
    requires w'.chain == w.chain && RowsStep(w.rows, w'.rows, w.clock) && Plain(w.rows, w'.rows)
    requires NotesStep(w.notes, w'.notes) && w.clock <= w'.clock
    ensures Transition(w, w', false)
  {
  }

  lemma {:induction false} Stutters(w: World, w': World)
    requires Inv(w) && w'.rows == w.rows && w'.notes == w.notes && w'.chain == w.chain && w.clock <= w'.clock
    ensures Transition(w, w', false)
  {
    RowsStay(w.rows, w.clock, w);
    PlainSteps(w, w');
  }

  lemma {:induction false} RowsStay(rows: Rows, now: Time, w: World)
    requires Inv(w) && rows == w.rows
    ensures RowsStep(rows, rows, now)
  {
    forall id | id in rows ensures RowStep(rows[id], rows[id], now) {
      assert RowOk(rows[id]);
    }
  }

  lemma {:induction false} RecordedSteps(notes: Notes, creds: seq<Credential>, kind: NoteKind, now: Time)
    ensures NotesStep(notes, RecordNotes(notes, creds, kind, now))
  {
    RecordAdds(notes, creds, kind, now);
  }

  // ----- Mints -----

  lemma {:induction false} AcceptedHashesFree(chain: R.Chain, issuer: Address, batch: seq<R.Record>)
    requires R.Sound(chain) && R.Unrevoked(batch) && R.IssueBatch(chain, issuer, batch).Some?
    ensures forall i :: 0 <= i < |batch| ==> R.StatusOf(chain, batch[i].hash) != R.Issued
  {
    forall i | 0 <= i < |batch| ensures R.StatusOf(chain, batch[i].hash) != R.Issued {
      if R.StatusOf(chain, batch[i].hash) == R.Issued {
        R.IssuedHashRefused(chain, batch, i);
      }
    }
  }

  /** A chain that gained exactly a batch of records with free hashes. */
  ghost predicate Gained(chain: R.Chain, chain': R.Chain) {
    RecordsStep(chain, chain') && forall t :: !Dies(t, chain, chain')
  }

  lemma {:induction false} MintedGains(chain: R.Chain, chain': R.Chain, batch: seq<R.Record>)
    requires R.Minted(chain, chain', batch) && R.Unrevoked(batch)
    requires forall i :: 0 <= i < |batch| ==> R.StatusOf(chain, batch[i].hash) != R.Issued
    ensures Gained(chain, chain')
  {
    forall t | t in chain'.records && t !in chain.records
      ensures chain'.records[t].revokedAt == 0 && R.StatusOf(chain, chain'.records[t].hash) != R.Issued
    {
      assert R.InBatch(t, batch);
      var i :| 0 <= i < |batch| && t == batch[i].id;
      assert R.Added(chain, chain', batch[i]);
    }
  }

  ghost predicate MintGains(w: World, creds: seq<Credential>, m: Mint) {
    && Gained(w.chain, m.chain)
    && (m.rows.Some? ==> forall i :: 0 <= i < |creds| ==> R.StatusOf(w.chain, creds[i].fileHash) != R.Issued)
  }

  lemma {:induction false} MintCallGains(chain: R.Chain, signer: Address, batch: seq<R.Record>)
    requires R.Sound(chain) && R.Unrevoked(batch) && R.IssueBatch(chain, signer, batch).Some?
    ensures Gained(chain, R.IssueBatch(chain, signer, batch).value)
    ensures forall i :: 0 <= i < |batch| ==> R.StatusOf(chain, batch[i].hash) != R.Issued
  {
    R.IssueBatchMints(chain, signer, batch);
    AcceptedHashesFree(chain, signer, batch);
    MintedGains(chain, R.IssueBatch(chain, signer, batch).value, batch);
  }

  lemma {:induction false} AfterMintGains(w: World, rows: Rows, chain: R.Chain, creds: seq<Credential>,
                                          records: seq<R.Record>, fault: Fault)
    requires |records| == |creds| && Gained(w.chain, chain)
    requires forall i :: 0 <= i < |creds| ==> R.StatusOf(w.chain, creds[i].fileHash) != R.Issued
    ensures MintGains(w, creds, AfterMint(w, rows, chain, creds, records, fault))
  {
    assert AfterMint(w, rows, chain, creds, records, fault).chain == chain;
  }

  lemma {:induction false} SameChainGains(chain: R.Chain)
    ensures Gained(chain, chain)
  {
  }

  lemma {:induction false} MintStep(w: World, rows: Rows, signer: Address, creds: seq<Credential>, fault: Fault)
    requires R.Sound(w.chain)
    ensures MintGains(w, creds, MintCredentials(w, rows, signer, creds, fault))
  {
    var records := RecordsFor(creds, w.users, signer, R.NonceOf(w.chain, signer));
    if creds == [] || fault == CallFails || R.IssueBatch(w.chain, signer, records) == None {
      SameChainGains(w.chain);
    } else {
      RecordsUnrevoked(creds, w.users, signer, R.NonceOf(w.chain, signer));
      MintCallGains(w.chain, signer, records);
      forall i | 0 <= i < |creds| ensures R.StatusOf(w.chain, creds[i].fileHash) != R.Issued {
        assert records[i].hash == creds[i].fileHash;
      }
      AfterMintGains(w, rows, R.IssueBatch(w.chain, signer, records).value, creds, records, fault);
    }
  }

  /** A unit of work that was rolled back after its mint. */
  lemma {:induction false} RolledBackSteps(w: World, w': World)
    requires Inv(w) && w'.rows == w.rows && w'.notes == w.notes && w'.clock == w.clock && Gained(w.chain, w'.chain)
    ensures Transition(w, w', false)
  {
    RowsStay(w.rows, w.clock, w);
  }

  /** Every row either is as it was, or carries a new record's token and a hash that was free. */
  ghost predicate Endowed(rows: Rows, rows': Rows, chain: R.Chain) {
    forall id :: id in rows' ==> (id in rows && rows'[id] == rows[id]) || EndowedRow(rows'[id], chain)
  }

  predicate EndowedRow(c: Credential, chain: R.Chain) {
    && c.tokenId.Some? && c.tokenId.value !in chain.records
    && R.StatusOf(chain, c.fileHash) != R.Issued && c.revokedAt == None
  }

  lemma {:induction false} MintCommitSteps(w: World, w': World)
    requires w'.clock == w.clock && Gained(w.chain, w'.chain) && NotesStep(w.notes, w'.notes)
    requires RowsStep(w.rows, w'.rows, w.clock) && Endowed(w.rows, w'.rows, w.chain)
    ensures Transition(w, w', false)
  {
  }

  lemma {:induction false} SettleSteps(w: World, notes: Notes, m: Mint, fault: Fault)
    requires Inv(w) && Gained(w.chain, m.chain) && NotesStep(w.notes, notes)
    requires m.rows.Some? ==> RowsStep(w.rows, m.rows.value, w.clock) && Endowed(w.rows, m.rows.value, w.chain)
    ensures Transition(w, Settle(w, notes, m, fault).world, false)
  {
    var w' := Settle(w, notes, m, fault).world;
    if w'.rows == w.rows && w'.notes == w.notes {
      RolledBackSteps(w, w');
    } else {
      MintCommitSteps(w, w');
    }
  }

  // ----- Approve -----

  lemma {:induction false} AcceptedUndecided(targets: seq<Credential>, now: Time, usable: set<Id>)
    requires ApproveRefusal(targets, now, usable) == None
    ensures forall i :: 0 <= i < |targets| ==> !Decided(targets[i], now)
  {
    if targets != [] {
      AcceptedUndecided(targets[1..], now, usable);
      assert forall i :: 0 < i < |targets| ==> targets[i] == targets[1..][i - 1];
    }
  }

  lemma {:induction false} NotRefusedUndecided(targets: seq<Credential>, now: Time)
    requires RejectRefusal(targets, now) == None
    ensures forall i :: 0 <= i < |targets| ==> !Decided(targets[i], now)
  {
    if targets != [] {
      NotRefusedUndecided(targets[1..], now);
      assert forall i :: 0 < i < |targets| ==> targets[i] == targets[1..][i - 1];
    }
  }

  ghost predicate Undecided(rows: Rows, order: seq<Id>, now: Time) {
    forall i :: 0 <= i < |order| ==> order[i] in rows && IsPending(rows[order[i]]) && !Decided(rows[order[i]], now)
  }

  lemma {:induction false} FetchUndecided(rows: Rows, order: seq<Id>, now: Time)
    requires ScanOf(order, rows)
    requires forall i :: 0 <= i < |order| ==> IsPending(Fetch(rows, order)[i]) && !Decided(Fetch(rows, order)[i], now)
    ensures Undecided(rows, order, now)
  {
    forall i | 0 <= i < |order| ensures IsPending(rows[order[i]]) && !Decided(rows[order[i]], now) {
      assert Fetch(rows, order)[i] == rows[order[i]];
    }
  }

  /** The row's own facts are never rewritten: an undecided row keeps its identity, another row is as it was. */
  lemma {:induction false} ActivatedSteps(w: World, rows': Rows, order: seq<Id>, actor: Id, records: seq<R.Record>)
    requires Inv(w) && |records| == |order| && Activated(w.rows, rows', order, actor, records)
    requires Undecided(w.rows, order, w.clock)
    ensures RowsStep(w.rows, rows', w.clock)
  {
    forall id | id in w.rows ensures RowStep(w.rows[id], rows'[id], w.clock) {
      if id in order {
        var i :| 0 <= i < |order| && order[i] == id;
        assert ActivatedRow(w.rows[order[i]], rows'[order[i]], actor, records[i].id);
      } else {
        assert RowOk(w.rows[id]);
      }
    }
  }

  lemma {:induction false} ActivatedEndowed(rows: Rows, rows': Rows, order: seq<Id>, actor: Id, records: seq<R.Record>,
                                            chain: R.Chain, chain': R.Chain, now: Time)
    requires |records| == |order| && Activated(rows, rows', order, actor, records) && Undecided(rows, order, now)
    requires R.Minted(chain, chain', records)
    requires forall i :: 0 <= i < |order| ==> R.StatusOf(chain, rows[order[i]].fileHash) != R.Issued
    ensures Endowed(rows, rows', chain)
  {
    forall id | id in rows' && rows'[id] != rows[id] ensures EndowedRow(rows'[id], chain) {
      var i :| 0 <= i < |order| && order[i] == id;
      assert ActivatedRow(rows[order[i]], rows'[order[i]], actor, records[i].id);
      assert R.Added(chain, chain', records[i]);
    }
  }

  lemma {:induction false} ApproveMintSteps(w: World, rows1: Rows, order: seq<Id>, actor: Id, fault: Fault)
    requires Inv(w) && ScanOf(order, w.rows) && Undecided(w.rows, order, w.clock)
    requires Approving(w.rows, rows1, order, w.clock, actor) && SchemaHolds(rows1, w.users)
    ensures Transition(w, Settle(w, RecordNotes(w.notes, Fetch(w.rows, order), ApprovedNote, w.clock),
                                 MintCredentials(w, rows1, AddressOf(w.users, actor), Fetch(rows1, order), fault),
                                 fault).world, false)
  {
    var signer := AddressOf(w.users, actor);
    var creds := Fetch(rows1, order);
    var records := RecordsFor(creds, w.users, signer, R.NonceOf(w.chain, signer));
    var m := MintCredentials(w, rows1, signer, creds, fault);
    MintShape(w, rows1, signer, creds, fault);
    MintStep(w, rows1, signer, creds, fault);
    RecordedSteps(w.notes, Fetch(w.rows, order), ApprovedNote, w.clock);
    if m.rows.Some? {
      TokenWrite(rows1, order, creds, records, w.clock);
      ApprovedSteps(w, rows1, m.rows.value, order, actor, records, m.chain);
    }
    SettleSteps(w, RecordNotes(w.notes, Fetch(w.rows, order), ApprovedNote, w.clock), m, fault);
  }

  lemma {:induction false} ApprovedSteps(w: World, rows1: Rows, rows2: Rows, order: seq<Id>, actor: Id,
                                         records: seq<R.Record>, chain': R.Chain)
    requires Inv(w) && Undecided(w.rows, order, w.clock)
    requires Approving(w.rows, rows1, order, w.clock, actor) && Tokened(rows1, rows2, order, records, w.clock)
    requires R.Minted(w.chain, chain', records)
    requires forall i :: 0 <= i < |order| ==> R.StatusOf(w.chain, Fetch(rows1, order)[i].fileHash) != R.Issued
    ensures RowsStep(w.rows, rows2, w.clock) && Endowed(w.rows, rows2, w.chain)
  {
    ApprovalWrites(w.rows, rows1, rows2, order, w.clock, actor, records);
    ActivatedSteps(w, rows2, order, actor, records);
    forall i | 0 <= i < |order| ensures R.StatusOf(w.chain, w.rows[order[i]].fileHash) != R.Issued {
      assert Fetch(rows1, order)[i].fileHash == w.rows[order[i]].fileHash;
    }
    ActivatedEndowed(w.rows, rows2, order, actor, records, w.chain, chain', w.clock);
  }

  lemma {:induction false} ApproveWriteSteps(w: World, order: seq<Id>, actor: Id, fault: Fault)
    requires Inv(w) && ScanOf(order, w.rows) && actor in w.users && Undecided(w.rows, order, w.clock)
    ensures Transition(w, ApproveWrite(w, order, actor, fault).world, false)
  {
    var rows1 := UpdateRows(w.rows, ApprovalUpdates(Fetch(w.rows, order), w.clock, actor), w.clock);
    if fault == StoreFails || fault == NotesFail || !SchemaHolds(rows1, w.users) {
      Stutters(w, w);
    } else {
      ApprovalWrite(w.rows, order, w.clock, actor);
      ApproveMintSteps(w, rows1, order, actor, fault);
    }
  }

  lemma {:induction false} ApproveSteps(w: World, ids: seq<Id>, order: seq<Id>, actor: Id, usable: set<Id>,
                                        fault: Fault)
    requires Inv(w) && IsScan(order, ids, w.rows) && actor in w.users
    ensures Transition(w, Approve(w, ids, order, actor, usable, fault).world, false)
  {
    if SomeMissing(ids, w.rows) || ApproveRefusal(Fetch(w.rows, order), w.clock, usable).Some? {
      Stutters(w, w);
    } else {
      ScanIsScan(order, ids, w.rows);
      AcceptedArePending(Fetch(w.rows, order), w.clock, usable);
      AcceptedUndecided(Fetch(w.rows, order), w.clock, usable);
      FetchUndecided(w.rows, order, w.clock);
      ApproveWriteSteps(w, order, actor, fault);
    }
  }

  // ----- Reject -----

  lemma {:induction false} RejectedSteps(w: World, rows': Rows, order: seq<Id>)
    requires Inv(w) && ChangedBy(w.rows, rows', order, RejectedRow) && Undecided(w.rows, order, w.clock)
    ensures RowsStep(w.rows, rows', w.clock) && Plain(w.rows, rows')
  {
    forall id | id in w.rows ensures RowStep(w.rows[id], rows'[id], w.clock) && PlainRow(w.rows[id], rows'[id]) {
      if id in order {
        ChangedAt(w.rows, rows', order, RejectedRow, id);
      } else {
        assert RowOk(w.rows[id]);
      }
    }
  }

  lemma {:induction false} RejectWriteSteps(w: World, order: seq<Id>, actor: Id, reasons: map<Id, string>, fault: Fault)
    requires Inv(w) && ScanOf(order, w.rows) && Undecided(w.rows, order, w.clock)
    ensures Transition(w, RejectWrite(w, order, actor, reasons, fault).world, false)
  {
    var rows' := UpdateRows(w.rows, RejectionUpdates(Fetch(w.rows, order), w.clock, actor, reasons), w.clock);
    if fault != NoFault || !SchemaHolds(rows', w.users) {
      Stutters(w, w);
    } else {
      RejectionWrite(w.rows, order, w.clock, actor, reasons);
      RejectedSteps(w, rows', order);
      RecordedSteps(w.notes, Fetch(w.rows, order), RejectedNote, w.clock);
      PlainSteps(w, RejectWrite(w, order, actor, reasons, fault).world);
    }
  }

  lemma {:induction false} RejectSteps(w: World, ids: seq<Id>, order: seq<Id>, actor: Id, reasons: map<Id, string>,
                                       fault: Fault)
    requires Inv(w) && IsScan(order, ids, w.rows)
    ensures Transition(w, Reject(w, ids, order, actor, reasons, fault).world, false)
  {
    if SomeMissing(ids, w.rows) || RejectRefusal(Fetch(w.rows, order), w.clock).Some? {
      Stutters(w, w);
    } else {
      ScanIsScan(order, ids, w.rows);
      NotRefusedArePending(Fetch(w.rows, order), w.clock);
      NotRefusedUndecided(Fetch(w.rows, order), w.clock);
      FetchUndecided(w.rows, order, w.clock);
      RejectWriteSteps(w, order, actor, reasons, fault);
    }
  }

  // ----- Revoke -----

  lemma {:induction false} StampedRecords(chain: R.Chain, chain': R.Chain, tokens: seq<TokenId>, at: nat)
    requires R.Stamped(chain, chain', tokens, at)
    ensures RecordsStep(chain, chain')
    ensures forall t :: Dies(t, chain, chain') ==> t in tokens
  {
  }

  lemma {:induction false} TokensOwned(rows: Rows, order: seq<Id>, t: TokenId)
    requires ScanOf(order, rows) && t in TokensOf(Fetch(rows, order))
    ensures exists i :: 0 <= i < |order| && rows[order[i]].tokenId == Some(t)
    ensures Owned(rows, t)
  {
    TokensAre(Fetch(rows, order));
    var i :| 0 <= i < |order| && Fetch(rows, order)[i].tokenId == Some(t);
    assert rows[order[i]].tokenId == Some(t);
  }

  lemma {:induction false} RevokedSteps(w: World, rows': Rows, order: seq<Id>)
    requires Inv(w) && ChangedBy(w.rows, rows', order, RevokedRow)
    requires forall i :: 0 <= i < |order| ==> IsRevocable(w.rows[order[i]])
    ensures RowsStep(w.rows, rows', w.clock)
  {
    forall id | id in w.rows ensures RowStep(w.rows[id], rows'[id], w.clock) {
      if id in order {
        ChangedAt(w.rows, rows', order, RevokedRow, id);
        var i :| 0 <= i < |order| && order[i] == id;
        assert IsRevocable(w.rows[order[i]]);
      } else {
        assert RowOk(w.rows[id]);
      }
    }
  }

  /** No row is activated or given a token. */
  ghost predicate Unendowed(rows: Rows, rows': Rows) {
    forall id :: id in rows' ==>
      id in rows && rows'[id].tokenId == rows[id].tokenId && rows'[id].activatedAt == rows[id].activatedAt
  }

  lemma {:induction false} RevokedUnendowed(rows: Rows, rows': Rows, order: seq<Id>)
    requires ChangedBy(rows, rows', order, RevokedRow)
    ensures Unendowed(rows, rows')
  {
    forall id | id in rows'
      ensures rows'[id].tokenId == rows[id].tokenId && rows'[id].activatedAt == rows[id].activatedAt
    {
      if id in order {
        ChangedAt(rows, rows', order, RevokedRow, id);
      }
    }
  }

  lemma {:induction false} RevocationsWereLive(rows: Rows, rows': Rows, order: seq<Id>, chain: R.Chain,
                                               tokens: seq<TokenId>)
    requires ChangedBy(rows, rows', order, RevokedRow) && tokens == TokensOf(Fetch(rows, order))
    requires forall t :: t in tokens ==> R.Live(chain, t)
    requires forall i :: 0 <= i < |order| ==> rows[order[i]].tokenId.Some?
    ensures RevocationsLive(rows, rows', chain)
  {
    TokensAre(Fetch(rows, order));
    forall id | id in rows && rows[id].revokedAt == None && rows'[id].revokedAt.Some?
      ensures LiveToken(rows[id], chain)
    {
      var i :| 0 <= i < |order| && order[i] == id;
      assert Fetch(rows, order)[i] == rows[id];
    }
  }

  lemma {:induction false} DeathsAreShown(rows: Rows, rows': Rows, users: Users, order: seq<Id>, chain: R.Chain,
                                          chain': R.Chain)
    requires ChangedBy(rows, rows', order, RevokedRow) && TokensUnique(rows)
    requires forall t :: Dies(t, chain, chain') ==> t in TokensOf(Fetch(rows, order))
    ensures DeathsShown(rows, rows', chain, chain')
  {
    forall id | id in rows && LiveToken(rows[id], chain) && Dies(rows[id].tokenId.value, chain, chain')
      ensures rows'[id].revokedAt.Some?
    {
      var t := rows[id].tokenId.value;
      TokensOwned(rows, order, t);
      var i :| 0 <= i < |order| && rows[order[i]].tokenId == Some(t);
      assert order[i] == id;
      ChangedAt(rows, rows', order, RevokedRow, id);
    }
  }

  lemma {:induction false} TargetsTokened(w: World, order: seq<Id>)
    requires Inv(w) && ScanOf(order, w.rows)
    requires forall i :: 0 <= i < |order| ==> IsRevocable(w.rows[order[i]])
    ensures forall i :: 0 <= i < |order| ==> w.rows[order[i]].tokenId.Some?
  {
    forall i | 0 <= i < |order| ensures w.rows[order[i]].tokenId.Some? {
      assert RowOk(w.rows[order[i]]);
    }
  }

  /** The mined revocation, committed. */
  lemma {:induction false} RevokeCommitSteps(w: World, w': World, order: seq<Id>, tokens: seq<TokenId>, at: nat)
    requires Inv(w) && ChangedBy(w.rows, w'.rows, order, RevokedRow) && tokens == TokensOf(Fetch(w.rows, order))
    requires forall i :: 0 <= i < |order| ==> IsRevocable(w.rows[order[i]])
    requires R.Stamped(w.chain, w'.chain, tokens, at) && NotesStep(w.notes, w'.notes) && w'.clock == w.clock
    ensures Transition(w, w', false)
  {
    StampedRecords(w.chain, w'.chain, tokens, at);
    forall t | Dies(t, w.chain, w'.chain) ensures Owned(w.rows, t) {
      TokensOwned(w.rows, order, t);
    }
    RevokedSteps(w, w'.rows, order);
    RevokedUnendowed(w.rows, w'.rows, order);
    TargetsTokened(w, order);
    RevocationsWereLive(w.rows, w'.rows, order, w.chain, tokens);
    DeathsAreShown(w.rows, w'.rows, w.users, order, w.chain, w'.chain);
  }

  /** The mined revocation, lost. */
  lemma {:induction false} RevokeLostSteps(w: World, chain: R.Chain, order: seq<Id>, tokens: seq<TokenId>, at: nat)
    requires Inv(w) && ScanOf(order, w.rows) && tokens == TokensOf(Fetch(w.rows, order))
    requires R.Stamped(w.chain, chain, tokens, at)
    ensures Transition(w, w.(chain := chain), true)
  {
    RowsStay(w.rows, w.clock, w);
    StampedRecords(w.chain, chain, tokens, at);
    forall t | Dies(t, w.chain, chain) ensures Owned(w.rows, t) {
      TokensOwned(w.rows, order, t);
    }
  }

  lemma {:induction false} NothingStamped(chain: R.Chain)
    ensures R.Stamped(chain, chain, [], 0)
  {
  }

  lemma {:induction false} RevokeMinedSteps(w: World, done: World, order: seq<Id>, revoker: Address, blockTime: nat)
    requires Inv(w) && ScanOf(order, w.rows) && ChangedBy(w.rows, done.rows, order, RevokedRow)
    requires forall i :: 0 <= i < |order| ==> IsRevocable(w.rows[order[i]])
    requires NotesStep(w.notes, done.notes) && done.clock == w.clock
    requires R.RevokeBatch(w.chain, revoker, TokensOf(Fetch(w.rows, order)), blockTime).Some?
    ensures var chain := R.RevokeBatch(w.chain, revoker, TokensOf(Fetch(w.rows, order)), blockTime).value;
      Transition(w, w.(chain := chain), true) && Transition(w, done.(chain := chain), false)
  {
    var tokens := TokensOf(Fetch(w.rows, order));
    var chain := R.RevokeBatch(w.chain, revoker, tokens, blockTime).value;
    R.RevokeBatchStamps(w.chain, revoker, tokens, blockTime);
    RevokeLostSteps(w, chain, order, tokens, blockTime);
    RevokeCommitSteps(w, done.(chain := chain), order, tokens, blockTime);
  }

  /** Where the chain call leads, whatever the two worlds are. */
  lemma {:induction false} RevokeOnChainSteps(w: World, done: World, tokens: seq<TokenId>, revoker: Address,
                                              blockTime: nat, fault: Fault)
    requires Transition(w, w, false)
    requires tokens == [] ==> Transition(w, done, false)
    requires tokens != [] && R.RevokeBatch(w.chain, revoker, tokens, blockTime).Some? ==>
      var chain := R.RevokeBatch(w.chain, revoker, tokens, blockTime).value;
      Transition(w, w.(chain := chain), true) && Transition(w, done.(chain := chain), false)
    ensures Transition(w, RevokeOnChain(w, done, tokens, revoker, blockTime, fault).world,
                       fault == MinedUnseen || fault == CommitFails)
  {
  }

  lemma {:induction false} RevokeCallSteps(w: World, done: World, order: seq<Id>, revoker: Address, blockTime: nat,
                                           fault: Fault)
    requires Inv(w) && ScanOf(order, w.rows) && ChangedBy(w.rows, done.rows, order, RevokedRow)
    requires forall i :: 0 <= i < |order| ==> IsRevocable(w.rows[order[i]])
    requires NotesStep(w.notes, done.notes) && done.clock == w.clock && done.chain == w.chain
    ensures Transition(w, RevokeOnChain(w, done, TokensOf(Fetch(w.rows, order)), revoker, blockTime, fault).world,
                       fault == MinedUnseen || fault == CommitFails)
  {
    var tokens := TokensOf(Fetch(w.rows, order));
    if tokens == [] {
      NothingStamped(w.chain);
      RevokeCommitSteps(w, done, order, tokens, 0);
    } else if R.RevokeBatch(w.chain, revoker, tokens, blockTime).Some? {
      RevokeMinedSteps(w, done, order, revoker, blockTime);
    }
    Stutters(w, w);
    RevokeOnChainSteps(w, done, tokens, revoker, blockTime, fault);
  }

  lemma {:induction false} RevokeWriteSteps(w: World, order: seq<Id>, actor: Id, grounds: map<Id, Option<string>>,
                                            blockTime: nat, fault: Fault)
    requires Inv(w) && ScanOf(order, w.rows)
    requires forall i :: 0 <= i < |order| ==> IsRevocable(w.rows[order[i]])
    ensures Transition(w, RevokeWrite(w, order, actor, grounds, blockTime, fault).world,
                       fault == MinedUnseen || fault == CommitFails)
  {
    var rows' := UpdateRows(w.rows, RevocationUpdates(Fetch(w.rows, order), w.clock, actor, grounds), w.clock);
    if fault == StoreFails || fault == NotesFail || !SchemaHolds(rows', w.users) {
      Stutters(w, w);
    } else {
      RevocationWrite(w.rows, order, w.clock, actor, grounds);
      RecordedSteps(w.notes, Fetch(w.rows, order), RevokedNote, w.clock);
      var done := w.(rows := rows', notes := RecordNotes(w.notes, Fetch(w.rows, order), RevokedNote, w.clock));
      RevokeCallSteps(w, done, order, AddressOf(w.users, actor), blockTime, fault);
    }
  }

  lemma {:induction false} RevokeSteps(w: World, ids: seq<Id>, order: seq<Id>, actor: Id,
                                       grounds: map<Id, Option<string>>,
                                       blockTime: nat, fault: Fault)
    requires Inv(w) && IsScan(order, ids, w.rows)
    ensures Transition(w, Revoke(w, ids, order, actor, grounds, blockTime, fault).world,
                       fault == MinedUnseen || fault == CommitFails)
  {
    if SomeMissing(ids, w.rows) || AnyRevoked(Fetch(w.rows, order)) || AnyNotApproved(Fetch(w.rows, order)) {
      Stutters(w, w);
    } else {
      ScanIsScan(order, ids, w.rows);
      RevocableTargets(w.rows, order);
      RevokeWriteSteps(w, order, actor, grounds, blockTime, fault);
    }
  }

  // ----- Issue and Submit -----

  lemma {:induction false} IssuedSteps(w: World, rows2: Rows, creds: seq<Credential>, records: seq<R.Record>,
                                       chain': R.Chain)
    requires Inv(w) && IssuedRows(w.rows, rows2, creds, records) && R.Minted(w.chain, chain', records)
    requires forall i :: 0 <= i < |creds| ==>
      R.StatusOf(w.chain, creds[i].fileHash) != R.Issued && Born(creds[i], RegisteredNote)
    ensures RowsStep(w.rows, rows2, w.clock) && Endowed(w.rows, rows2, w.chain)
  {
    RowsStay(w.rows, w.clock, w);
    forall id | id in rows2 && id !in w.rows ensures EndowedRow(rows2[id], w.chain) {
      var i :| 0 <= i < |creds| && creds[i].id == id;
      assert IssuedRow(creds[i], rows2[creds[i].id], records[i].id);
      assert R.Added(w.chain, chain', records[i]);
    }
  }

  lemma {:induction false} IssueMintSteps(w: World, rows1: Rows, creds: seq<Credential>, actor: Id, fault: Fault)
    requires Inv(w) && KeysFree(w.rows, creds) && Stocked(w.rows, rows1, creds) && SchemaHolds(rows1, w.users)
    requires forall i :: 0 <= i < |creds| ==> Born(creds[i], RegisteredNote)
    ensures Transition(w, Settle(w, RecordNotes(w.notes, creds, RegisteredNote, w.clock),
                                 MintCredentials(w, rows1, AddressOf(w.users, actor), creds, fault),
                                 fault).world, false)
  {
    var signer := AddressOf(w.users, actor);
    var records := RecordsFor(creds, w.users, signer, R.NonceOf(w.chain, signer));
    var m := MintCredentials(w, rows1, signer, creds, fault);
    MintShape(w, rows1, signer, creds, fault);
    MintStep(w, rows1, signer, creds, fault);
    RecordedSteps(w.notes, creds, RegisteredNote, w.clock);
    if m.rows.Some? {
      CredIds(creds, w.rows, rows1);
      TokenWrite(rows1, IdsOf(creds), creds, records, w.clock);
      IssuedWrites(w.rows, rows1, m.rows.value, creds, records, w.clock);
      IssuedSteps(w, m.rows.value, creds, records, m.chain);
    }
    SettleSteps(w, RecordNotes(w.notes, creds, RegisteredNote, w.clock), m, fault);
  }

  lemma {:induction false} IssueWriteSteps(w: World, creds: seq<Credential>, actor: Id, fault: Fault)
    requires Inv(w)
    requires KeysFree(w.rows, creds) ==> forall i :: 0 <= i < |creds| ==> Prepared(creds[i], RegisteredNote)
    ensures Transition(w, IssueWrite(w, creds, actor, fault).world, false)
  {
    if fault == StoreFails || fault == NotesFail || !KeysFree(w.rows, creds) ||
       !SchemaHolds(StoreRows(w.rows, creds), w.users) {
      Stutters(w, w);
    } else {
      StoreAdds(w.rows, creds);
      StockedHolders(w.rows, StoreRows(w.rows, creds), creds, w.users, RegisteredNote);
      IssueMintSteps(w, StoreRows(w.rows, creds), creds, actor, fault);
    }
  }

  lemma {:induction false} IssueSteps(w: World, items: seq<Item>, newIds: seq<Id>, uris: seq<string>, actor: Id,
                                      catalog: Catalog, fault: Fault)
    requires Inv(w) && |newIds| == |items| && |uris| == |items|
    ensures Transition(w, Issue(w, items, newIds, uris, actor, catalog, fault).world, false)
  {
    if !IssueAccepted(w, items, catalog) || fault == StorageFails {
      Stutters(w, w);
    } else {
      PreparedItems(items, newIds, uris, actor, w.clock, true, w.rows);
      IssueWriteSteps(w, Prepare(items, newIds, uris, actor, w.clock, true), actor, fault);
    }
  }

  lemma {:induction false} SubmittedSteps(w: World, rows1: Rows, creds: seq<Credential>)
    requires Inv(w) && Stocked(w.rows, rows1, creds)
    requires forall i :: 0 <= i < |creds| ==> Prepared(creds[i], ApprovedNote)
    ensures RowsStep(w.rows, rows1, w.clock) && Plain(w.rows, rows1)
  {
    RowsStay(w.rows, w.clock, w);
    forall id | id in rows1 && id !in w.rows ensures rows1[id].tokenId == None && rows1[id].activatedAt == None {
      var i :| 0 <= i < |creds| && creds[i].id == id;
    }
  }

  lemma {:induction false} SubmitWriteSteps(w: World, creds: seq<Credential>, fault: Fault)
    requires Inv(w)
    requires KeysFree(w.rows, creds) ==> forall i :: 0 <= i < |creds| ==> Prepared(creds[i], ApprovedNote)
    ensures Transition(w, SubmitWrite(w, creds, fault).world, false)
  {
    if fault != NoFault || !KeysFree(w.rows, creds) || !SchemaHolds(StoreRows(w.rows, creds), w.users) {
      Stutters(w, w);
    } else {
      StoreAdds(w.rows, creds);
      SubmittedSteps(w, StoreRows(w.rows, creds), creds);
      PlainSteps(w, w.(rows := StoreRows(w.rows, creds)));
    }
  }

  lemma {:induction false} SubmitSteps(w: World, items: seq<Item>, newIds: seq<Id>, uris: seq<string>, actor: Id,
                                       catalog: Catalog, fault: Fault)
    requires Inv(w) && |newIds| == |items| && |uris| == |items|
    ensures Transition(w, Submit(w, items, newIds, uris, actor, catalog, fault).world, false)
  {
    if !SubmitAccepted(w, items, catalog) {
      Stutters(w, w);
    } else {
      PreparedItems(items, newIds, uris, actor, w.clock, false, w.rows);
      SubmitWriteSteps(w, Prepare(items, newIds, uris, actor, w.clock, false), fault);
    }
  }

  // ----- Update, extraction, accounts -----

  lemma {:induction false} ExtractOnlySteps(w: World, rows': Rows, jobs: seq<Id>)
    requires Inv(w) && AllExtractOnly(w.rows, rows')
    ensures Transition(w, w.(rows := rows', jobs := jobs), false)
  {
    forall id | id in w.rows ensures RowStep(w.rows[id], rows'[id], w.clock) && PlainRow(w.rows[id], rows'[id]) {
      assert ExtractOnly(w.rows[id], rows'[id]) && RowOk(w.rows[id]);
    }
    PlainSteps(w, w.(rows := rows', jobs := jobs));
  }

  lemma {:induction false} RestampExtractOnly(w: World, rows1: Rows, id: Id)
    requires Inv(w) && AllExtractOnly(w.rows, rows1) && Keyed(rows1) && id in w.rows
    ensures AllExtractOnly(w.rows, UpdateRows(rows1, [FailureStamp(w.rows[id], w.clock, REENQUEUE_FAILED)], w.clock))
  {
    var stamp := FailureStamp(w.rows[id], w.clock, REENQUEUE_FAILED);
    ExtractWrite(rows1, [stamp], w.clock);
    ExtractOnlyTwice(w.rows, rows1, UpdateRows(rows1, [stamp], w.clock));
  }

  /** The rows after the enqueue: as reset, or with one of them stamped again. */
  lemma {:induction false} ReEnqueued(w: World, rows1: Rows, order: seq<Id>, fault: Fault)
    requires Inv(w) && AllExtractOnly(w.rows, rows1) && Keyed(rows1)
    requires forall id :: id in order ==> id in w.rows
    ensures var w' := ReEnqueue(w, rows1, order, fault).world;
      AllExtractOnly(w.rows, w'.rows) && w' == w.(rows := w'.rows, jobs := w'.jobs)
  {
    if fault.EnqueueFails? && fault.at < |order| {
      RestampExtractOnly(w, rows1, order[fault.at]);
    }
  }

  lemma {:induction false} ReEnqueueSteps(w: World, rows1: Rows, order: seq<Id>, fault: Fault)
    requires Inv(w) && AllExtractOnly(w.rows, rows1) && Keyed(rows1)
    requires forall id :: id in order ==> id in w.rows
    ensures Transition(w, ReEnqueue(w, rows1, order, fault).world, false)
  {
    ReEnqueued(w, rows1, order, fault);
    var w' := ReEnqueue(w, rows1, order, fault).world;
    ExtractOnlySteps(w, w'.rows, w'.jobs);
  }

  lemma {:induction false} ReExtractSteps(w: World, ids: seq<Id>, order: seq<Id>, fault: Fault)
    requires Inv(w) && IsScan(order, ids, w.rows)
    ensures Transition(w, ReExtract(w, ids, order, fault).world, false)
  {
    var s := ReExtract(w, ids, order, fault);
    if s.world == w {
      Stutters(w, w);
    } else {
      ClearedExtractOnly(w.rows, order, w.clock);
      ReEnqueueSteps(w, ClearOutcome(w.rows, order, w.clock), order, fault);
    }
  }

  lemma {:induction false} EditedRowStep(c: Credential, edits: seq<Edit>, now: Time)
    requires RowOk(c)
    requires forall i :: 0 <= i < |edits| && edits[i].id == c.id ==> StatusOf(c, now) == Pending
    ensures RowStep(c, Touched(c, EditPatches(edits), now), now) && PlainRow(c, Touched(c, EditPatches(edits), now))
  {
    EditedRow(c, edits, now);
  }

  lemma {:induction false} EditedSteps(w: World, edits: seq<Edit>)
    requires Inv(w)
    requires forall i :: 0 <= i < |edits| ==> edits[i].id in w.rows && StatusOf(w.rows[edits[i].id], w.clock) == Pending
    ensures Transition(w, w.(rows := UpdateRows(w.rows, EditPatches(edits), w.clock)), false)
  {
    var rows' := UpdateRows(w.rows, EditPatches(edits), w.clock);
    forall id | id in w.rows ensures RowStep(w.rows[id], rows'[id], w.clock) && PlainRow(w.rows[id], rows'[id]) {
      EditedRowStep(w.rows[id], edits, w.clock);
    }
    PlainSteps(w, w.(rows := rows'));
  }

  lemma {:induction false} UpdateWriteSteps(w: World, edits: seq<Edit>, fault: Fault)
    requires Inv(w)
    requires forall i :: 0 <= i < |edits| ==> edits[i].id in w.rows && StatusOf(w.rows[edits[i].id], w.clock) == Pending
    ensures Transition(w, UpdateWrite(w, edits, fault).world, false)
  {
    if fault != NoFault || !SchemaHolds(UpdateRows(w.rows, EditPatches(edits), w.clock), w.users) {
      Stutters(w, w);
    } else {
      EditedSteps(w, edits);
    }
  }

  lemma {:induction false} UpdateSteps(w: World, edits: seq<Edit>, catalog: Catalog, fault: Fault)
    requires Inv(w)
    ensures Transition(w, Update(w, edits, catalog, fault).world, false)
  {
    if (exists i :: 0 <= i < |edits| && edits[i].id !in w.rows) || UpdateRefusal(w, edits, catalog).Some? {
      Stutters(w, w);
    } else {
      EditedWerePending(w, edits, catalog);
      UpdateWriteSteps(w, edits, fault);
      Stutters(w, w);
    }
  }

  // ----- Every action -----

  /** No action changes more than a transition may. */
  lemma {:induction false} DoSteps(w: World, a: Action)
    requires Inv(w) && Enabled(w, a)
    ensures Transition(w, Do(w, a).world, LosesRevocation(a))
  {
    match a
    case DoApprove(ids, order, actor, usable, fault) => ApproveSteps(w, ids, order, actor, usable, fault);
    case DoReject(ids, order, actor, reasons, fault) => RejectSteps(w, ids, order, actor, reasons, fault);
    case DoRevoke(ids, order, actor, grounds, blockTime, fault) =>
      RevokeSteps(w, ids, order, actor, grounds, blockTime, fault);
    case DoIssue(items, newIds, uris, actor, catalog, fault) =>
      IssueSteps(w, items, newIds, uris, actor, catalog, fault);
    case DoSubmit(items, newIds, uris, actor, catalog, fault) =>
      SubmitSteps(w, items, newIds, uris, actor, catalog, fault);
    case DoUpdate(edits, catalog, fault) => UpdateSteps(w, edits, catalog, fault);
    case DoReExtract(ids, order, fault) => ReExtractSteps(w, ids, order, fault);
    case WorkerStamp(stamp) =>
      ExtractWrite(w.rows, [stamp], w.clock);
      ExtractOnlySteps(w, UpdateRows(w.rows, [stamp], w.clock), w.jobs);
    case Accounts(users) => Stutters(w, w.(users := users));
    case Tick(now) => Stutters(w, w.(clock := now));
  }

  // ----- Whole runs -----

  lemma {:induction false} RowStepsCompose(c: Credential, c1: Credential, c2: Credential, now: Time, now1: Time)
    requires RowStep(c, c1, now) && RowStep(c1, c2, now1) && now <= now1
    ensures RowStep(c, c2, now)
  {
  }

  /** Over a run rows stay, decided rows are frozen, and notifications keep what they were. */
  lemma {:induction false} RunSteps(w: World, actions: seq<Action>)
    requires Inv(w)
    ensures RowsStep(w.rows, Run(w, actions).rows, w.clock)
    ensures w.clock <= Run(w, actions).clock
    ensures NotesStep(w.notes, Run(w, actions).notes)
  {
    if actions == [] {
      RowsStay(w.rows, w.clock, w);
    } else {
      var a := actions[|actions| - 1];
      var w1 := Run(w, actions[..|actions| - 1]);
      RunSteps(w, actions[..|actions| - 1]);
      RunKeeps(w, actions[..|actions| - 1]);
      if Enabled(w1, a) {
        DoSteps(w1, a);
        ComposeRows(w.rows, w1.rows, Do(w1, a).world.rows, w.clock, w1.clock);
      }
    }
  }

  lemma {:induction false} ComposeRows(rows: Rows, rows1: Rows, rows2: Rows, now: Time, now1: Time)
    requires RowsStep(rows, rows1, now) && RowsStep(rows1, rows2, now1) && now <= now1
    ensures RowsStep(rows, rows2, now)
  {
    forall id | id in rows ensures id in rows2 && RowStep(rows[id], rows2[id], now) {
      RowStepsCompose(rows[id], rows1[id], rows2[id], now, now1);
    }
  }

  /** The facts that activation fixes. */
  predicate SameCore(c: Credential, c': Credential) {
    && c'.id == c.id && c'.holder == c.holder && c'.fileHash == c.fileHash && c'.fileUri == c.fileUri
    && c'.submitter == c.submitter && c'.issuer == c.issuer && c'.tokenId == c.tokenId
    && c'.organization == c.organization && c'.kind == c.kind && c'.number == c.number && c'.name == c.name
    && c'.meta == c.meta && c'.issuedAt == c.issuedAt && c'.expiresAt == c.expiresAt
    && c'.activatedAt == c.activatedAt && c'.rejectedAt == c.rejectedAt
  }

  /** Safety of the lifecycle between any two points of any run: the states exclude one another as
      they should, an activated row's facts never change, a rejection and a revocation are final,
      and a row that expires unreviewed is never reviewed. */
  lemma {:induction false} LifecycleSafety(w: World, before: seq<Action>, after: seq<Action>, id: Id)
    requires Initial(w) && id in Run(w, before).rows
    ensures id in Run(Run(w, before), after).rows
    ensures var c := Run(w, before).rows[id];
      var c' := Run(Run(w, before), after).rows[id];
      && (c.activatedAt == None || c.rejectedAt == None)
      && (c.revokedAt.Some? ==> c.activatedAt.Some?)
      && (c.activatedAt.Some? ==> c.issuer.Some? && c.tokenId.Some?)
      && c'.holder == c.holder && c'.fileHash == c.fileHash
      && (c.activatedAt.Some? ==> SameCore(c, c'))
      && (c.rejectedAt.Some? ==> SameCore(c, c') && c'.revokedAt == None)
      && (c.revokedAt.Some? ==> c'.revokedAt == c.revokedAt)
      && (c.activatedAt == None && Lapsed(c, Run(w, before).clock) ==> SameCore(c, c') && c'.revokedAt == None)
  {
    ReachableWorlds(w, before);
    RunSteps(Run(w, before), after);
    var w1 := Run(w, before);
    assert RowOk(w1.rows[id]) && RowAllowed(w1.rows[id], w1.users);
    assert RowStep(w1.rows[id], Run(w1, after).rows[id], w1.clock);
  }

  /** Exactly one notification per event: an activated row has one of registered and approved, a
      rejected row its rejection, a revoked row its revocation, and nothing else is ever announced. */
  lemma {:induction false} NotifiedExactlyOnce(w: World, actions: seq<Action>, id: Id)
    requires Initial(w) && id in Run(w, actions).rows
    ensures var notes := Run(w, actions).notes;
      var c := Run(w, actions).rows[id];
      && (c.activatedAt.Some? ==> (NoteFor(c, RegisteredNote) in notes <==> NoteFor(c, ApprovedNote) !in notes))
      && (c.activatedAt == None ==> NoteFor(c, RegisteredNote) !in notes && NoteFor(c, ApprovedNote) !in notes)
      && (NoteFor(c, RejectedNote) in notes <==> c.rejectedAt.Some?)
      && (NoteFor(c, RevokedNote) in notes <==> c.revokedAt.Some?)
      && (forall k :: k in notes && k.credential == id ==> k.user == c.holder)
  {
    ReachableWorlds(w, actions);
    var w' := Run(w, actions);
    assert Announced(w'.notes, w'.rows[id]);
    NoEventNoNote(w'.rows, w'.notes, id);
    forall k | k in w'.notes && k.credential == id ensures k.user == w'.rows[id].holder {
      assert Justified(w'.rows, k);
    }
  }

  // ----- Revocations, kept and lost -----

  /** A record is revoked only if its row is. */
  ghost predicate InStep(w: World) {
    forall id :: id in w.rows && RecordRevoked(w.rows[id], w.chain) ==> w.rows[id].revokedAt.Some?
  }

  lemma {:induction false} TokenKnown(w: World, id: Id)
    requires Inv(w) && id in w.rows && w.rows[id].tokenId.Some?
    ensures w.rows[id].activatedAt.Some? && w.rows[id].tokenId.value in w.chain.records
  {
    assert RowOk(w.rows[id]);
    assert Mirrors(w.rows[id], w.users, w.chain);
  }

  lemma {:induction false} DeathIsShown(w: World, w': World, id: Id)
    requires Inv(w) && InStep(w) && Transition(w, w', false) && id in w.rows && id in w'.rows
    requires w.rows[id].tokenId.Some? && w'.rows[id].tokenId == w.rows[id].tokenId
    requires RecordRevoked(w'.rows[id], w'.chain)
    ensures w'.rows[id].revokedAt.Some?
  {
    var t := w.rows[id].tokenId.value;
    TokenKnown(w, id);
    assert RowStep(w.rows[id], w'.rows[id], w.clock);
    assert RecordStep(w.chain.records[t], w'.chain.records[t]);
    assert w.chain.records[t].revokedAt == 0 ==> Dies(t, w.chain, w'.chain);
  }

  lemma {:induction false} StaysInStep(w: World, w': World)
    requires Inv(w) && Inv(w') && InStep(w) && Transition(w, w', false)
    ensures InStep(w')
  {
    forall id | id in w'.rows && RecordRevoked(w'.rows[id], w'.chain) ensures w'.rows[id].revokedAt.Some? {
      if id in w.rows && w.rows[id].tokenId == w'.rows[id].tokenId {
        DeathIsShown(w, w', id);
      }
    }
  }

  /** As long as no mined revocation is lost, rows and records agree on what is revoked. */
  lemma {:induction false} RunsStayInStep(w: World, actions: seq<Action>)
    requires Inv(w) && InStep(w)
    requires forall i :: 0 <= i < |actions| ==> !LosesRevocation(actions[i])
    ensures InStep(Run(w, actions))
  {
    if actions != [] {
      var a := actions[|actions| - 1];
      var w1 := Run(w, actions[..|actions| - 1]);
      RunsStayInStep(w, actions[..|actions| - 1]);
      RunKeeps(w, actions[..|actions| - 1]);
      if Enabled(w1, a) {
        DoSteps(w1, a);
        DoKeeps(w1, a);
        StaysInStep(w1, Do(w1, a).world);
      }
    }
  }

  /** Revoked on chain, not in the database. */
  predicate Stuck(w: World, id: Id) {
    id in w.rows && w.rows[id].activatedAt.Some? && w.rows[id].revokedAt == None && RecordRevoked(w.rows[id], w.chain)
  }

  lemma {:induction false} StuckStays(w: World, w': World, lost: bool, id: Id)
    requires Inv(w) && Stuck(w, id) && Transition(w, w', lost)
    ensures Stuck(w', id)
  {
    assert RowStep(w.rows[id], w'.rows[id], w.clock);
    var t := w.rows[id].tokenId.value;
    assert RecordStep(w.chain.records[t], w'.chain.records[t]);
    assert !LiveToken(w.rows[id], w.chain);
  }

  /** A revocation that was mined and lost is never completed: the contract refuses to revoke the
      record again, so no later action of any run marks the row. */
  lemma {:induction false} LostRevocationStays(w: World, actions: seq<Action>, id: Id)
    requires Inv(w) && Stuck(w, id)
    ensures Stuck(Run(w, actions), id)
  {
    if actions != [] {
      var a := actions[|actions| - 1];
      var w1 := Run(w, actions[..|actions| - 1]);
      LostRevocationStays(w, actions[..|actions| - 1], id);
      RunKeeps(w, actions[..|actions| - 1]);
      if Enabled(w1, a) {
        DoSteps(w1, a);
        StuckStays(w1, Do(w1, a).world, LosesRevocation(a), id);
      }
    }
  }

  lemma {:induction false} LostCall(w: World, done: World, tokens: seq<TokenId>, revoker: Address, blockTime: nat,
                                    fault: Fault)
    requires done.chain == w.chain
    ensures var s := RevokeOnChain(w, done, tokens, revoker, blockTime, fault);
      s.outcome.Failed? && s.world.chain != w.chain ==>
        && R.RevokeBatch(w.chain, revoker, tokens, blockTime) == Some(s.world.chain)
        && s.world == w.(chain := s.world.chain)
  {
  }

  lemma {:induction false} RevokedBatchSticks(w: World, chain: R.Chain, order: seq<Id>, revoker: Address,
                                              blockTime: nat, k: nat)
    requires Inv(w) && ScanOf(order, w.rows) && k < |order|
    requires forall i :: 0 <= i < |order| ==> IsRevocable(w.rows[order[i]])
    requires R.RevokeBatch(w.chain, revoker, TokensOf(Fetch(w.rows, order)), blockTime) == Some(chain)
    ensures Stuck(w.(chain := chain), order[k])
  {
    R.RevokeBatchStamps(w.chain, revoker, TokensOf(Fetch(w.rows, order)), blockTime);
    TargetsStamped(w, order, chain, blockTime);
  }

  lemma {:induction false} LostCallSticks(w: World, done: World, order: seq<Id>, revoker: Address, blockTime: nat,
                                          fault: Fault, k: nat)
    requires Inv(w) && ScanOf(order, w.rows) && k < |order| && done.chain == w.chain
    requires forall i :: 0 <= i < |order| ==> IsRevocable(w.rows[order[i]])
    ensures var s := RevokeOnChain(w, done, TokensOf(Fetch(w.rows, order)), revoker, blockTime, fault);
      s.outcome.Failed? && s.world.chain != w.chain ==> Stuck(s.world, order[k])
  {
    var s := RevokeOnChain(w, done, TokensOf(Fetch(w.rows, order)), revoker, blockTime, fault);
    LostCall(w, done, TokensOf(Fetch(w.rows, order)), revoker, blockTime, fault);
    if s.outcome.Failed? && s.world.chain != w.chain {
      RevokedBatchSticks(w, s.world.chain, order, revoker, blockTime, k);
    }
  }

  lemma {:induction false} LostRevocationSticks(w: World, ids: seq<Id>, order: seq<Id>, actor: Id,
                                                grounds: map<Id, Option<string>>,
                                                blockTime: nat, fault: Fault, k: nat)
    requires Inv(w) && IsScan(order, ids, w.rows) && k < |order|
    ensures var s := Revoke(w, ids, order, actor, grounds, blockTime, fault);
      s.outcome.Failed? && s.world.chain != w.chain ==> Stuck(s.world, order[k])
  {
    ScanIsScan(order, ids, w.rows);
    if !SomeMissing(ids, w.rows) && !AnyRevoked(Fetch(w.rows, order)) && !AnyNotApproved(Fetch(w.rows, order)) {
      RevocableTargets(w.rows, order);
      var rows' := UpdateRows(w.rows, RevocationUpdates(Fetch(w.rows, order), w.clock, actor, grounds), w.clock);
      var done := w.(rows := rows', notes := RecordNotes(w.notes, Fetch(w.rows, order), RevokedNote, w.clock));
      LostCallSticks(w, done, order, AddressOf(w.users, actor), blockTime, fault, k);
    }
  }

  // ----- Mints that outlive their unit of work -----

  /** A live record that no row names. */
  predicate Orphan(w: World, t: TokenId) {
    R.Live(w.chain, t) && !Owned(w.rows, t)
  }

  /** No row that was not activated in `w` is activated in `w'` over a file with this hash. */
  ghost predicate NoneActivated(rows: Rows, rows': Rows, hash: Ascii) {
    forall id :: id in rows' && rows'[id].activatedAt.Some? && rows'[id].fileHash == hash ==>
      id in rows && rows[id].activatedAt.Some?
  }

  lemma {:induction false} OrphanStays(w: World, w': World, lost: bool, t: TokenId)
    requires Inv(w) && Orphan(w, t) && Transition(w, w', lost)
    ensures Orphan(w', t) && w'.chain.records[t].hash == w.chain.records[t].hash
    ensures NoneActivated(w.rows, w'.rows, w.chain.records[t].hash)
  {
    assert RecordStep(w.chain.records[t], w'.chain.records[t]);
    assert !Dies(t, w.chain, w'.chain);
    assert R.Holds(w.chain, t, w.chain.records[t].hash);
  }

  /** An orphan blocks its file: in no later world of any run is another row over it activated. */
  lemma {:induction false} OrphanBlocksHash(w: World, actions: seq<Action>, t: TokenId)
    requires Inv(w) && Orphan(w, t)
    ensures Orphan(Run(w, actions), t) && Run(w, actions).chain.records[t].hash == w.chain.records[t].hash
    ensures NoneActivated(w.rows, Run(w, actions).rows, w.chain.records[t].hash)
  {
    if actions != [] {
      var a := actions[|actions| - 1];
      var w1 := Run(w, actions[..|actions| - 1]);
      OrphanBlocksHash(w, actions[..|actions| - 1], t);
      RunKeeps(w, actions[..|actions| - 1]);
      if Enabled(w1, a) {
        DoSteps(w1, a);
        OrphanStays(w1, Do(w1, a).world, LosesRevocation(a), t);
      }
    }
  }

  lemma {:induction false} MintedAreOrphans(w: World, w': World, records: seq<R.Record>, k: nat)
    requires Inv(w) && w'.rows == w.rows && R.Minted(w.chain, w'.chain, records) && R.Unrevoked(records)
    requires k < |records|
    ensures Orphan(w', records[k].id) && w'.chain.records[records[k].id] == records[k]
  {
    assert R.Added(w.chain, w'.chain, records[k]);
    if Owned(w.rows, records[k].id) {
      var id :| id in w.rows && w.rows[id].tokenId == Some(records[k].id);
      TokenKnown(w, id);
    }
  }

  ghost predicate OrphanOver(w: World, hash: Ascii) {
    exists t :: Orphan(w, t) && w.chain.records[t].hash == hash
  }

  /** A failed step that touched the chain left an orphan over this hash, and no row changed. */
  ghost predicate LeavesOrphan(w: World, s: Step, hash: Ascii) {
    s.outcome.Failed? ==> s.world.rows == w.rows && (s.world.chain != w.chain ==> OrphanOver(s.world, hash))
  }

  lemma {:induction false} OrphanHashBlocked(w: World, actions: seq<Action>, hash: Ascii)
    requires Inv(w) && OrphanOver(w, hash)
    ensures OrphanOver(Run(w, actions), hash) && NoneActivated(w.rows, Run(w, actions).rows, hash)
  {
    var t :| Orphan(w, t) && w.chain.records[t].hash == hash;
    OrphanBlocksHash(w, actions, t);
  }

  lemma {:induction false} AfterMintChain(w: World, rows: Rows, chain: R.Chain, creds: seq<Credential>,
                                          records: seq<R.Record>, fault: Fault)
    requires |creds| == |records|
    ensures AfterMint(w, rows, chain, creds, records, fault).chain == chain
  {
  }

  /** The chain after a mint either is the old one or carries the whole batch. */
  lemma {:induction false} MintedOrNot(w: World, rows: Rows, signer: Address, creds: seq<Credential>, fault: Fault)
    ensures var chain := MintCredentials(w, rows, signer, creds, fault).chain;
      var records := RecordsFor(creds, w.users, signer, R.NonceOf(w.chain, signer));
      chain == w.chain || R.IssueBatch(w.chain, signer, records) == Some(chain)
  {
    var records := RecordsFor(creds, w.users, signer, R.NonceOf(w.chain, signer));
    if R.IssueBatch(w.chain, signer, records).Some? {
      AfterMintChain(w, rows, R.IssueBatch(w.chain, signer, records).value, creds, records, fault);
    }
  }

  lemma {:induction false} BatchOrphans(w: World, w': World, signer: Address, creds: seq<Credential>, k: nat)
    requires Inv(w) && w'.rows == w.rows && k < |creds|
    requires R.IssueBatch(w.chain, signer, RecordsFor(creds, w.users, signer, R.NonceOf(w.chain, signer)))
       == Some(w'.chain)
    ensures OrphanOver(w', creds[k].fileHash)
  {
    var records := RecordsFor(creds, w.users, signer, R.NonceOf(w.chain, signer));
    RecordsUnrevoked(creds, w.users, signer, R.NonceOf(w.chain, signer));
    R.IssueBatchMints(w.chain, signer, records);
    MintedAreOrphans(w, w', records, k);
    assert records[k].hash == creds[k].fileHash;
  }

  /** A unit of work that fails after its mint leaves an orphan over every file of its batch. */
  lemma {:induction false} LostMintOrphans(w: World, rows: Rows, notes: Notes, signer: Address, creds: seq<Credential>,
                                           fault: Fault, k: nat)
    requires Inv(w) && k < |creds|
    ensures var s := Settle(w, notes, MintCredentials(w, rows, signer, creds, fault), fault);
      LeavesOrphan(w, s, creds[k].fileHash)
  {
    var s := Settle(w, notes, MintCredentials(w, rows, signer, creds, fault), fault);
    MintedOrNot(w, rows, signer, creds, fault);
    if s.outcome.Failed? && s.world.chain != w.chain {
      BatchOrphans(w, s.world, signer, creds, k);
    }
  }

  lemma {:induction false} LostApprovalMint(w: World, rows1: Rows, order: seq<Id>, actor: Id, fault: Fault, k: nat)
    requires Inv(w) && Approving(w.rows, rows1, order, w.clock, actor) && k < |order|
    ensures var s := Settle(w, RecordNotes(w.notes, Fetch(w.rows, order), ApprovedNote, w.clock),
                            MintCredentials(w, rows1, AddressOf(w.users, actor), Fetch(rows1, order), fault), fault);
      LeavesOrphan(w, s, w.rows[order[k]].fileHash)
  {
    assert Fetch(rows1, order)[k].fileHash == w.rows[order[k]].fileHash;
    LostMintOrphans(w, rows1, RecordNotes(w.notes, Fetch(w.rows, order), ApprovedNote, w.clock),
                    AddressOf(w.users, actor),
                    Fetch(rows1, order), fault, k);
  }

  lemma {:induction false} LostApprovalOrphans(w: World, order: seq<Id>, actor: Id, fault: Fault, k: nat)
    requires Inv(w) && ScanOf(order, w.rows) && actor in w.users && k < |order|
    ensures var s := ApproveWrite(w, order, actor, fault);
      LeavesOrphan(w, s, w.rows[order[k]].fileHash)
  {
    var rows1 := UpdateRows(w.rows, ApprovalUpdates(Fetch(w.rows, order), w.clock, actor), w.clock);
    if fault == StoreFails || fault == NotesFail || !SchemaHolds(rows1, w.users) {
      assert ApproveWrite(w, order, actor, fault) == Step(w, Failed(Internal));
    } else {
      ApprovalWrite(w.rows, order, w.clock, actor);
      LostApprovalMint(w, rows1, order, actor, fault, k);
    }
  }

  lemma {:induction false} LostApprovalTarget(w: World, ids: seq<Id>, order: seq<Id>, actor: Id, usable: set<Id>,
                                              fault: Fault, k: nat)
    requires Inv(w) && IsScan(order, ids, w.rows) && actor in w.users && k < |order|
    ensures var s := Approve(w, ids, order, actor, usable, fault);
      s.outcome.Failed? && s.world.chain != w.chain ==>
        order[k] in w.rows && IsPending(w.rows[order[k]]) && s.world.rows == w.rows
        && OrphanOver(s.world, w.rows[order[k]].fileHash)
  {
    ScanIsScan(order, ids, w.rows);
    if !SomeMissing(ids, w.rows) && ApproveRefusal(Fetch(w.rows, order), w.clock, usable) == None {
      LostApprovalOrphans(w, order, actor, fault, k);
      AcceptedArePending(Fetch(w.rows, order), w.clock, usable);
      assert Fetch(w.rows, order)[k] == w.rows[order[k]];
    }
  }

  lemma {:induction false} LostIssueOrphans(w: World, creds: seq<Credential>, actor: Id, fault: Fault, k: nat)
    requires Inv(w) && k < |creds|
    ensures var s := IssueWrite(w, creds, actor, fault);
      s.outcome.Failed? && s.world.chain != w.chain ==> s.world.rows == w.rows && OrphanOver(s.world, creds[k].fileHash)
  {
    LostMintOrphans(w, StoreRows(w.rows, creds), RecordNotes(w.notes, creds, RegisteredNote, w.clock),
                    AddressOf(w.users, actor),
                    creds, fault, k);
  }

  // ----- Token ids of one batch -----

  /** A batch that validation accepts asks for pairwise different tokens, whatever the nonce. */
  lemma {:induction false} AcceptedTokensDistinct(w: World, items: seq<Item>, newIds: seq<Id>, uris: seq<string>,
                                                  actor: Id,
                                                  catalog: Catalog, nonce: Word, i: nat, j: nat)
    requires |newIds| == |items| && |uris| == |items| && IssueAccepted(w, items, catalog) && i < j < |items|
    ensures var records := RecordsFor(Prepare(items, newIds, uris, actor, w.clock, true), w.users,
                                      AddressOf(w.users, actor), nonce);
      records[i].id != records[j].id
  {
    var signer := AddressOf(w.users, actor);
    var a := Issuing(items[i], newIds[i], uris[i], actor, w.clock);
    var b := Issuing(items[j], newIds[j], uris[j], actor, w.clock);
    var first := TokenOf(signer, nonce, AddressOf(w.users, a.holder), a.fileHash);
    var second := TokenOf(signer, nonce, AddressOf(w.users, b.holder), b.fileHash);
    if first == second {
      TokenOfInjective(signer, nonce, AddressOf(w.users, a.holder), a.fileHash, signer, nonce,
                       AddressOf(w.users, b.holder), b.fileHash);
    }
  }
}
