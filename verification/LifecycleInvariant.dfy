/** What every run of the lifecycle keeps: the schema, the derived states, the chain mirroring every
    activated row, and one notification per event, whatever fails and wherever. */
module LifecycleInvariant {
  import opened Base
  import opened Credentials
  import opened Payload
  import opened Lifecycle
  import R = Registry
  import Sql = CaseSql

  // ----- The invariant -----

  predicate RowOk(c: Credential) {
    && (c.revokedAt.Some? ==> c.activatedAt.Some?)
    && (c.activatedAt.Some? ==> c.issuer.Some? && c.tokenId.Some?)
    && (c.activatedAt == None ==> c.tokenId == None)
    && c.fileUri.Some?
  }

  ghost predicate RowsOk(rows: Rows) {
    forall id :: id in rows ==> RowOk(rows[id])
  }

  /** The facts of a record that verification compares, apart from revocation. */
  predicate SameFacts(c: Credential, users: Users, r: R.Record) {
    && r.uri == c.id
    && r.hash == c.fileHash
    && r.holder == AddressOf(users, c.holder)
    && c.issuer.Some? && r.issuer == AddressOf(users, c.issuer.value)
    && (c.issuedAt != ZERO_TIME ==> r.issuedAt == IssuedAtToChain(c.issuedAt))
    && r.expiresAt == ExpiresAtToChain(c.expiresAt)
    && r.number == NumberToChain(c.number)
  }

  /** The record under the row's token id carries the row's facts, and is revoked when the row is. */
  predicate Mirrors(c: Credential, users: Users, chain: R.Chain) {
    && c.tokenId.Some? && c.tokenId.value in chain.records
    && SameFacts(c, users, chain.records[c.tokenId.value])
    && (c.revokedAt.Some? ==> chain.records[c.tokenId.value].revokedAt > 0)
  }

  ghost predicate AllMirrored(rows: Rows, users: Users, chain: R.Chain) {
    forall id :: id in rows && rows[id].activatedAt.Some? ==> Mirrors(rows[id], users, chain)
  }

  predicate Event(kind: NoteKind, c: Credential) {
    match kind
    case RegisteredNote => c.activatedAt.Some?
    case ApprovedNote => c.activatedAt.Some?
    case RejectedNote => c.rejectedAt.Some?
    case RevokedNote => c.revokedAt.Some?
  }

  /** A notification tells the holder of an event that happened and was committed. */
  predicate Justified(rows: Rows, k: NoteKey) {
    k.credential in rows && rows[k.credential].holder == k.user && Event(k.kind, rows[k.credential])
  }

  /** Each event of a row has its notification, and activation has exactly one of the two kinds. */
  predicate Announced(notes: Notes, c: Credential) {
    && (c.revokedAt.Some? ==> NoteFor(c, RevokedNote) in notes)
    && (c.rejectedAt.Some? ==> NoteFor(c, RejectedNote) in notes)
    && (c.activatedAt.Some? ==> (NoteFor(c, RegisteredNote) in notes <==> NoteFor(c, ApprovedNote) !in notes))
  }

  ghost predicate NotesExact(rows: Rows, notes: Notes) {
    && (forall k :: k in notes ==> Justified(rows, k))
    && (forall id :: id in rows ==> Announced(notes, rows[id]))
  }

  ghost predicate Inv(w: World) {
    && "" !in w.users && "" !in w.rows
    && Keyed(w.rows)
    && SchemaHolds(w.rows, w.users)
    && RowsOk(w.rows)
    && R.Sound(w.chain)
    && AllMirrored(w.rows, w.users, w.chain)
    && NotesExact(w.rows, w.notes)
  }

  // ----- Updates of distinct rows -----

  ghost predicate DistinctBatch(batch: seq<Credential>) {
    forall i, j :: 0 <= i < j < |batch| ==> batch[i].id != batch[j].id
  }

  lemma {:induction false} NotNamed(row: Credential, batch: seq<Credential>)
    requires forall i :: 0 <= i < |batch| ==> batch[i].id != row.id
    ensures PatchRow(row, batch) == row
  {
    if batch != [] {
      NotNamed(row, batch[1..]);
    }
  }

  lemma {:induction false} OnePatch(row: Credential, batch: seq<Credential>, k: nat)
    requires DistinctBatch(batch) && k < |batch| && batch[k].id == row.id
    ensures PatchRow(row, batch) == ApplyPatch(row, batch[k])
  {
    if k == 0 {
      NotNamed(row, batch[1..]);
    } else {
      OnePatch(row, batch[1..], k - 1);
    }
  }

  /** A batch of distinct records that each provide something patches its rows one by one. */
  lemma {:induction false} UpdateEach(rows: Rows, batch: seq<Credential>, now: Time)
    requires Keyed(rows) && DistinctBatch(batch)
    requires forall i :: 0 <= i < |batch| ==> Provided(batch[i]) != map[]
    ensures var rows' := UpdateRows(rows, batch, now);
      rows'.Keys == rows.Keys &&
      (forall i :: 0 <= i < |batch| && batch[i].id in rows ==>
        rows'[batch[i].id] == ApplyPatch(rows[batch[i].id], batch[i]).(updatedAt := Some(Stored(now)))) &&
      (forall id :: id in rows && !Names(batch, id) ==> rows'[id] == rows[id])
  {
    var rows' := UpdateRows(rows, batch, now);
    forall i | 0 <= i < |batch| && batch[i].id in rows
      ensures rows'[batch[i].id] == ApplyPatch(rows[batch[i].id], batch[i]).(updatedAt := Some(Stored(now)))
    {
      assert Provided(batch[i]) != map[];
      assert Names(batch, batch[i].id);
      OnePatch(rows[batch[i].id], batch, i);
    }
  }

  lemma {:induction false} Provides(p: Credential, col: Sql.Column)
    requires col in COLUMNS && HasColumn(p, col)
    ensures Provided(p) != map[]
  {
    assert col in Provided(p);
  }

  // ----- Notes -----

  predicate AddsNote(creds: seq<Credential>, kind: NoteKind, k: NoteKey) {
    exists i :: 0 <= i < |creds| && creds[i].id != "" && creds[i].holder != "" && NoteFor(creds[i], kind) == k
  }

  /** Recording adds exactly the keys of the batch; a notification that is there already keeps its
      creation time and its read state. */
  lemma {:induction false} RecordAdds(notes: Notes, creds: seq<Credential>, kind: NoteKind, now: Time)
    ensures var notes' := RecordNotes(notes, creds, kind, now);
      (forall k :: k in notes' <==> k in notes || AddsNote(creds, kind, k)) &&
      (forall k :: k in notes ==> notes'[k] == notes[k]) &&
      (forall k :: k in notes' && k !in notes ==> notes'[k] == Note(now, None))
  {
    if creds != [] {
      var n := |creds| - 1;
      RecordAdds(notes, creds[..n], kind, now);
      forall k ensures AddsNote(creds, kind, k)
                  <==> AddsNote(creds[..n], kind, k)
                       || (creds[n].id != "" && creds[n].holder != "" && NoteFor(creds[n], kind) == k)
      {
        AddsNoteSnoc(creds, kind, k);
      }
    }
  }

  lemma {:induction false} AddsNoteSnoc(creds: seq<Credential>, kind: NoteKind, k: NoteKey)
    requires creds != []
    ensures var n := |creds| - 1;
      AddsNote(creds, kind, k) <==>
        (AddsNote(creds[..n], kind, k) || (creds[n].id != "" && creds[n].holder != "" && NoteFor(creds[n], kind) == k))
  {
    var n := |creds| - 1;
    if AddsNote(creds, kind, k) {
      var i :| 0 <= i < |creds| && creds[i].id != "" && creds[i].holder != "" && NoteFor(creds[i], kind) == k;
      if i < n {
        assert creds[..n][i] == creds[i];
      }
    }
    if AddsNote(creds[..n], kind, k) {
      var i :| 0 <= i < n && creds[..n][i].id != "" && creds[..n][i].holder != "" && NoteFor(creds[..n][i], kind) == k;
      assert creds[i] == creds[..n][i];
    }
  }

  // ----- Approve -----

  /** `rows'` is `rows` with every target activated under the token of its record. */
  ghost predicate Activated(rows: Rows, rows': Rows, order: seq<Id>, actor: Id, records: seq<R.Record>)
    requires |records| == |order|
  {
    && rows'.Keys == rows.Keys
    && (forall i :: 0 <= i < |order| ==> order[i] in rows)
    && (forall i :: 0 <= i < |order| ==> ActivatedRow(rows[order[i]], rows'[order[i]], actor, records[i].id))
    && (forall id :: id in rows && id !in order ==> rows'[id] == rows[id])
  }

  predicate ActivatedRow(c: Credential, c': Credential, actor: Id, token: TokenId) {
    && c'.activatedAt.Some?
    && c' == c.(activatedAt := c'.activatedAt, issuer := Some(actor), extractEnqueuedAt := c'.extractEnqueuedAt,
                tokenId := Some(token), updatedAt := c'.updatedAt)
  }

  predicate IsPending(c: Credential) {
    c.activatedAt == None && c.rejectedAt == None && c.revokedAt == None
  }

  lemma {:induction false} AcceptedArePending(targets: seq<Credential>, now: Time, usable: set<Id>)
    requires ApproveRefusal(targets, now, usable) == None
    ensures forall i :: 0 <= i < |targets| ==> IsPending(targets[i])
  {
    if targets != [] {
      AcceptedArePending(targets[1..], now, usable);
      assert forall i :: 0 < i < |targets| ==> targets[i] == targets[1..][i - 1];
    }
  }

  lemma {:induction false} NotRefusedArePending(targets: seq<Credential>, now: Time)
    requires RejectRefusal(targets, now) == None
    ensures forall i :: 0 <= i < |targets| ==> IsPending(targets[i])
  {
    if targets != [] {
      NotRefusedArePending(targets[1..], now);
      assert forall i :: 0 < i < |targets| ==> targets[i] == targets[1..][i - 1];
    }
  }

  ghost predicate ScanOf(order: seq<Id>, rows: Rows) {
    Distinct(order) && forall i :: 0 <= i < |order| ==> order[i] in rows
  }

  lemma {:induction false} ApprovalPatch(row: Credential, now: Time, actor: Id)
    requires actor != ""
    ensures Provided(ApprovalUpdate(row.id, now, actor)) != map[]
    ensures ApplyPatch(row, ApprovalUpdate(row.id, now, actor))
         == row.(activatedAt := Some(Stored(now)), issuer := Some(actor), extractEnqueuedAt := Some(Stored(now)))
  {
    Provides(ApprovalUpdate(row.id, now, actor), Sql.ACTIVATED_AT);
  }

  /** `rows1` is `rows` after the approval update and before the tokens are written. */
  ghost predicate Approving(rows: Rows, rows1: Rows, order: seq<Id>, now: Time, actor: Id) {
    && Keyed(rows1) && rows1.Keys == rows.Keys && ScanOf(order, rows1) && ScanOf(order, rows)
    && (forall i :: 0 <= i < |order| ==>
         rows1[order[i]] == rows[order[i]].(activatedAt := Some(Stored(now)), issuer := Some(actor),
                                           extractEnqueuedAt := Some(Stored(now)), updatedAt := Some(Stored(now))))
    && (forall id :: id in rows && id !in order ==> rows1[id] == rows[id])
  }

  lemma {:induction false} ApprovalWrite(rows: Rows, order: seq<Id>, now: Time, actor: Id)
    requires Keyed(rows) && ScanOf(order, rows) && actor != ""
    ensures Approving(rows, UpdateRows(rows, ApprovalUpdates(Fetch(rows, order), now, actor), now), order, now, actor)
  {
    var batch := ApprovalUpdates(Fetch(rows, order), now, actor);
    forall i | 0 <= i < |order|
      ensures batch[i] == ApprovalUpdate(order[i], now, actor) && Provided(batch[i]) != map[]
      ensures ApplyPatch(rows[order[i]], batch[i])
           == rows[order[i]].(activatedAt := Some(Stored(now)), issuer := Some(actor),
                              extractEnqueuedAt := Some(Stored(now)))
    {
      assert Fetch(rows, order)[i].id == order[i];
      ApprovalPatch(rows[order[i]], now, actor);
    }
    UpdateEach(rows, batch, now);
    NamesOrder(batch, order);
  }

  lemma {:induction false} NamesOrder(batch: seq<Credential>, order: seq<Id>)
    requires |batch| == |order| && forall i :: 0 <= i < |batch| ==> batch[i].id == order[i]
    ensures forall id :: Names(batch, id) <==> id in order
  {
    forall id ensures Names(batch, id) <==> id in order {
      if id in order {
        var i :| 0 <= i < |order| && order[i] == id;
        assert batch[i].id == id;
      }
    }
  }

  lemma {:induction false} TokenPatch(row: Credential, token: TokenId)
    ensures ApplyPatch(row, Blank(row.id).(tokenId := Some(token))) == row.(tokenId := Some(token))
  {
  }

  /** `rows2` is `rows1` with each row's token written. */
  ghost predicate Tokened(rows1: Rows, rows2: Rows, order: seq<Id>, records: seq<R.Record>, now: Time) {
    && |records| == |order|
    && Keyed(rows2) && rows2.Keys == rows1.Keys && ScanOf(order, rows1)
    && (forall i :: 0 <= i < |order| ==>
         rows2[order[i]] == rows1[order[i]].(tokenId := Some(records[i].id), updatedAt := Some(Stored(now))))
    && (forall id :: id in rows1 && id !in order ==> rows2[id] == rows1[id])
  }

  lemma {:induction false} TokenWrite(rows: Rows, order: seq<Id>, creds: seq<Credential>, records: seq<R.Record>,
                                      now: Time)
    requires Keyed(rows) && ScanOf(order, rows) && |creds| == |order| == |records|
    requires forall i :: 0 <= i < |order| ==> creds[i].id == order[i]
    ensures Tokened(rows, UpdateRows(rows, TokenUpdates(creds, records), now), order, records, now)
  {
    var batch := TokenUpdates(creds, records);
    forall i | 0 <= i < |batch|
      ensures Provided(batch[i]) != map[] && batch[i].id == order[i]
      ensures ApplyPatch(rows[order[i]], batch[i]) == rows[order[i]].(tokenId := Some(records[i].id))
    {
      Provides(batch[i], Sql.TOKEN_ID);
      TokenPatch(rows[order[i]], records[i].id);
    }
    UpdateEach(rows, batch, now);
    NamesOrder(batch, order);
  }

  /** The two writes of an approval together. */
  lemma {:induction false} ApprovalWrites(rows: Rows, rows1: Rows, rows2: Rows, order: seq<Id>, now: Time, actor: Id,
                                          records: seq<R.Record>)
    requires Approving(rows, rows1, order, now, actor) && Tokened(rows1, rows2, order, records, now)
    ensures Activated(rows, rows2, order, actor, records)
  {
  }

  lemma {:induction false} ExtendsMirrors(c: Credential, users: Users, chain: R.Chain, chain': R.Chain)
    requires Mirrors(c, users, chain) && R.Extends(chain, chain')
    ensures Mirrors(c, users, chain')
  {
  }

  lemma {:induction false} ActivatedMirrors(rows: Rows, rows': Rows, order: seq<Id>, actor: Id, records: seq<R.Record>,
                         users: Users, chain: R.Chain, chain': R.Chain)
    requires |records| == |order| && ScanOf(order, rows) && Activated(rows, rows', order, actor, records)
    requires R.Minted(chain, chain', records) && AllMirrored(rows, users, chain)
    requires forall i :: 0 <= i < |order| ==> IsPending(rows[order[i]])
    requires forall i :: 0 <= i < |order| ==> SameFacts(rows'[order[i]], users, records[i])
    ensures AllMirrored(rows', users, chain')
  {
    forall id | id in rows' && rows'[id].activatedAt.Some? ensures Mirrors(rows'[id], users, chain') {
      if id in order {
        var i :| 0 <= i < |order| && order[i] == id;
        assert R.Added(chain, chain', records[i]);
        assert ActivatedRow(rows[order[i]], rows'[order[i]], actor, records[i].id);
      } else {
        ExtendsMirrors(rows[id], users, chain, chain');
      }
    }
  }

  lemma {:induction false} ActivatedRowsOk(rows: Rows, rows': Rows, order: seq<Id>, actor: Id, records: seq<R.Record>)
    requires |records| == |order| && Activated(rows, rows', order, actor, records)
    requires RowsOk(rows)
    requires forall i :: 0 <= i < |order| ==> IsPending(rows[order[i]])
    ensures RowsOk(rows')
  {
    forall id | id in rows' ensures RowOk(rows'[id]) {
      if id in order {
        var i :| 0 <= i < |order| && order[i] == id;
        assert ActivatedRow(rows[order[i]], rows'[order[i]], actor, records[i].id);
      }
    }
  }

  // ----- Notes of one event on pending or approved targets -----

  /** The targets of a batch changed in place: same holder, `kind` has now happened to them, and
      nothing that had happened before is undone. */
  ghost predicate Advanced(rows: Rows, rows': Rows, order: seq<Id>, kind: NoteKind) {
    && rows'.Keys == rows.Keys
    && (forall id :: id in rows ==> rows'[id].holder == rows[id].holder && rows'[id].id == rows[id].id)
    && (forall id :: id in rows && id !in order ==> rows'[id] == rows[id])
    && (forall i :: 0 <= i < |order| ==> order[i] in rows && AdvancedRow(rows[order[i]], rows'[order[i]], kind))
  }

  predicate AdvancedRow(c: Credential, c': Credential, kind: NoteKind) {
    match kind
    case RegisteredNote => false
    case ApprovedNote => IsPending(c) && c'.activatedAt.Some? && c'.rejectedAt == None && c'.revokedAt == None
    case RejectedNote => IsPending(c) && c'.activatedAt == None && c'.rejectedAt.Some? && c'.revokedAt == None
    case RevokedNote => c.activatedAt.Some? && c'.activatedAt.Some? && c.rejectedAt == None && c'.rejectedAt == None
                        && c.revokedAt == None && c'.revokedAt.Some?
  }

  lemma {:induction false} FetchAdds(rows: Rows, order: seq<Id>, kind: NoteKind, k: NoteKey)
    requires Keyed(rows) && ScanOf(order, rows) && "" !in rows
    requires forall id :: id in rows ==> rows[id].holder != ""
    ensures AddsNote(Fetch(rows, order), kind, k)
       <==> (k.kind == kind && k.credential in order && k.credential in rows && k.user == rows[k.credential].holder)
  {
    if k.credential in order {
      var i :| 0 <= i < |order| && order[i] == k.credential;
      assert Fetch(rows, order)[i] == rows[order[i]];
    }
  }

  lemma {:induction false} AdvancedNotes(rows: Rows, rows': Rows, notes: Notes, order: seq<Id>, kind: NoteKind,
                                         now: Time)
    requires Keyed(rows) && ScanOf(order, rows) && "" !in rows
    requires forall id :: id in rows ==> rows[id].holder != ""
    requires NotesExact(rows, notes) && Advanced(rows, rows', order, kind)
    ensures NotesExact(rows', RecordNotes(notes, Fetch(rows, order), kind, now))
  {
    var notes' := RecordNotes(notes, Fetch(rows, order), kind, now);
    RecordAdds(notes, Fetch(rows, order), kind, now);
    forall k | k in notes' ensures Justified(rows', k) {
      FetchAdds(rows, order, kind, k);
      if k in notes {
        assert Justified(rows, k);
      }
      if k.credential in order {
        AdvancedAt(rows, rows', order, kind, k.credential);
      }
    }
    forall id | id in rows' ensures Announced(notes', rows'[id]) {
      forall q: NoteKind ensures NoteFor(rows'[id], q) in notes'
                            <==> NoteFor(rows[id], q) in notes || (q == kind && id in order)
      {
        FetchAdds(rows, order, kind, NoteFor(rows[id], q));
      }
      assert Announced(notes, rows[id]);
      if id in order {
        AdvancedAt(rows, rows', order, kind, id);
        NoEventNoNote(rows, notes, id);
      }
    }
  }

  lemma {:induction false} AdvancedAt(rows: Rows, rows': Rows, order: seq<Id>, kind: NoteKind, id: Id)
    requires Advanced(rows, rows', order, kind) && id in order
    ensures id in rows && AdvancedRow(rows[id], rows'[id], kind)
  {
    var i :| 0 <= i < |order| && order[i] == id;
  }

  lemma {:induction false} NoEventNoNote(rows: Rows, notes: Notes, id: Id)
    requires NotesExact(rows, notes) && id in rows && Keyed(rows)
    ensures forall q: NoteKind :: NoteFor(rows[id], q) in notes ==> Event(q, rows[id])
  {
    forall q: NoteKind | NoteFor(rows[id], q) in notes ensures Event(q, rows[id]) {
      assert Justified(rows, NoteFor(rows[id], q));
    }
  }

  // ----- Minting inside a unit of work -----

  lemma {:induction false} RecordForSame(c: Credential, users: Users, actor: Id, nonce: Word)
    requires c.issuer == Some(actor)
    ensures SameFacts(c, users, RecordFor(c, users, AddressOf(users, actor), nonce))
    ensures RecordFor(c, users, AddressOf(users, actor), nonce).revokedAt == 0
  {
  }

  lemma {:induction false} RecordsUnrevoked(creds: seq<Credential>, users: Users, signer: Address, nonce: Word)
    ensures R.Unrevoked(RecordsFor(creds, users, signer, nonce))
  {
    var records := RecordsFor(creds, users, signer, nonce);
    forall i | 0 <= i < |records| ensures records[i].revokedAt == 0 {
      assert records[i] == RecordFor(creds[i], users, signer, nonce);
    }
  }

  /** Whatever happens during a mint, earlier records survive; when the unit of work may go on, the
      chain gained exactly the records and each row its token. */
  ghost predicate MintResult(w: World, rows: Rows, creds: seq<Credential>, records: seq<R.Record>, m: Mint) {
    && R.Sound(m.chain) && R.Extends(w.chain, m.chain)
    && |records| == |creds|
    && (m.rows.Some? ==>
          m.rows.value == UpdateRows(rows, TokenUpdates(creds, records), w.clock)
          && SchemaHolds(m.rows.value, w.users) && R.Minted(w.chain, m.chain, records))
  }

  lemma {:induction false} AfterMintShape(w: World, rows: Rows, chain: R.Chain, creds: seq<Credential>,
                                          records: seq<R.Record>, fault: Fault)
    requires |creds| == |records| && R.Sound(chain) && R.Minted(w.chain, chain, records)
    ensures MintResult(w, rows, creds, records, AfterMint(w, rows, chain, creds, records, fault))
  {
  }

  lemma {:induction false} MintShape(w: World, rows: Rows, signer: Address, creds: seq<Credential>, fault: Fault)
    requires R.Sound(w.chain) && SchemaHolds(rows, w.users)
    ensures MintResult(w, rows, creds, RecordsFor(creds, w.users, signer, R.NonceOf(w.chain, signer)),
                       MintCredentials(w, rows, signer, creds, fault))
  {
    var records := RecordsFor(creds, w.users, signer, R.NonceOf(w.chain, signer));
    if creds == [] {
      assert UpdateRows(rows, TokenUpdates(creds, records), w.clock) == rows;
    } else if fault != CallFails {
      RecordsUnrevoked(creds, w.users, signer, R.NonceOf(w.chain, signer));
      MintCallShape(w, rows, signer, creds, records, fault);
    }
  }

  lemma {:induction false} MintCallShape(w: World, rows: Rows, signer: Address, creds: seq<Credential>,
                                         records: seq<R.Record>, fault: Fault)
    requires R.Sound(w.chain) && |creds| == |records| && R.Unrevoked(records)
    ensures R.IssueBatch(w.chain, signer, records).Some? ==>
      MintResult(w, rows, creds, records,
                 AfterMint(w, rows, R.IssueBatch(w.chain, signer, records).value, creds, records, fault))
  {
    if R.IssueBatch(w.chain, signer, records).Some? {
      R.IssueBatchMints(w.chain, signer, records);
      AfterMintShape(w, rows, R.IssueBatch(w.chain, signer, records).value, creds, records, fault);
    }
  }

  /** A chain that only grew leaves the invariant alone. */
  lemma {:induction false} GrownChainKeeps(w: World, chain: R.Chain, jobs: seq<Id>)
    requires Inv(w) && R.Sound(chain) && R.Extends(w.chain, chain)
    ensures Inv(w.(chain := chain, jobs := jobs))
  {
    forall id | id in w.rows && w.rows[id].activatedAt.Some? ensures Mirrors(w.rows[id], w.users, chain) {
      ExtendsMirrors(w.rows[id], w.users, w.chain, chain);
    }
  }

  lemma {:induction false} HoldersNamed(w: World)
    requires Inv(w)
    ensures forall id :: id in w.rows ==> w.rows[id].holder != ""
  {
    forall id | id in w.rows ensures w.rows[id].holder != "" {
      assert RowAllowed(w.rows[id], w.users);
    }
  }

  lemma {:induction false} ScanIsScan(order: seq<Id>, ids: seq<Id>, rows: Rows)
    requires IsScan(order, ids, rows)
    ensures ScanOf(order, rows)
  {
    forall i | 0 <= i < |order| ensures order[i] in rows {
      assert order[i] in order;
    }
  }

  lemma {:induction false} ActivatedAdvances(rows: Rows, rows': Rows, order: seq<Id>, actor: Id, records: seq<R.Record>)
    requires |records| == |order| && Activated(rows, rows', order, actor, records)
    requires forall i :: 0 <= i < |order| ==> IsPending(rows[order[i]])
    ensures Advanced(rows, rows', order, ApprovedNote)
  {
    forall id | id in rows ensures rows'[id].holder == rows[id].holder && rows'[id].id == rows[id].id {
      if id in order {
        var i :| 0 <= i < |order| && order[i] == id;
        assert ActivatedRow(rows[order[i]], rows'[order[i]], actor, records[i].id);
      }
    }
    forall i | 0 <= i < |order| ensures order[i] in rows && AdvancedRow(rows[order[i]], rows'[order[i]], ApprovedNote) {
      assert ActivatedRow(rows[order[i]], rows'[order[i]], actor, records[i].id);
    }
  }

  /** The commit of an approval. */
  lemma {:induction false} ApprovalCommitKeeps(w: World, rows': Rows, order: seq<Id>, actor: Id,
                                               records: seq<R.Record>, chain: R.Chain, jobs: seq<Id>)
    requires Inv(w) && ScanOf(order, w.rows) && |records| == |order|
    requires forall i :: 0 <= i < |order| ==> IsPending(w.rows[order[i]])
    requires Keyed(rows') && Activated(w.rows, rows', order, actor, records) && SchemaHolds(rows', w.users)
    requires R.Sound(chain) && R.Minted(w.chain, chain, records)
    requires forall i :: 0 <= i < |order| ==> SameFacts(rows'[order[i]], w.users, records[i])
    ensures Inv(w.(rows := rows', notes := RecordNotes(w.notes, Fetch(w.rows, order), ApprovedNote, w.clock),
                   chain := chain, jobs := jobs))
  {
    HoldersNamed(w);
    ActivatedMirrors(w.rows, rows', order, actor, records, w.users, w.chain, chain);
    ActivatedRowsOk(w.rows, rows', order, actor, records);
    ActivatedAdvances(w.rows, rows', order, actor, records);
    AdvancedNotes(w.rows, rows', w.notes, order, ApprovedNote, w.clock);
  }

  lemma {:induction false} ApprovedFacts(rows: Rows, rows1: Rows, rows2: Rows, order: seq<Id>, now: Time, users: Users,
                                         actor: Id, nonce: Word,
                      records: seq<R.Record>)
    requires Approving(rows, rows1, order, now, actor) && Tokened(rows1, rows2, order, records, now)
    requires records == RecordsFor(Fetch(rows1, order), users, AddressOf(users, actor), nonce)
    ensures forall i :: 0 <= i < |order| ==> SameFacts(rows2[order[i]], users, records[i])
  {
    forall i | 0 <= i < |order| ensures SameFacts(rows2[order[i]], users, records[i]) {
      var c := rows1[order[i]];
      assert records[i] == RecordFor(Fetch(rows1, order)[i], users, AddressOf(users, actor), nonce);
      RecordForSame(c, users, actor, nonce);
      TokenKeepsFacts(c, rows2[order[i]], users, records[i]);
    }
  }

  lemma {:induction false} TokenKeepsFacts(c: Credential, c': Credential, users: Users, r: R.Record)
    requires c' == c.(tokenId := c'.tokenId, updatedAt := c'.updatedAt)
    ensures SameFacts(c', users, r) == SameFacts(c, users, r)
  {
  }

  lemma {:induction false} SettleKeeps(w: World, notes: Notes, m: Mint, fault: Fault)
    requires Inv(w.(chain := m.chain, jobs := m.jobs))
    requires m.rows.Some? ==> Inv(w.(chain := m.chain, jobs := m.jobs, rows := m.rows.value, notes := notes))
    ensures Inv(Settle(w, notes, m, fault).world)
  {
  }

  /** The committed rows of an approval whose mint went through. */
  lemma {:induction false} ApprovalMintedKeeps(w: World, rows1: Rows, rows2: Rows, order: seq<Id>, actor: Id,
                                               nonce: Word,
                            records: seq<R.Record>, chain: R.Chain, jobs: seq<Id>)
    requires Inv(w) && ScanOf(order, w.rows)
    requires forall i :: 0 <= i < |order| ==> IsPending(w.rows[order[i]])
    requires Approving(w.rows, rows1, order, w.clock, actor) && Tokened(rows1, rows2, order, records, w.clock)
    requires SchemaHolds(rows2, w.users) && R.Sound(chain) && R.Minted(w.chain, chain, records)
    requires records == RecordsFor(Fetch(rows1, order), w.users, AddressOf(w.users, actor), nonce)
    ensures Inv(w.(rows := rows2, notes := RecordNotes(w.notes, Fetch(w.rows, order), ApprovedNote, w.clock),
                   chain := chain, jobs := jobs))
  {
    ApprovalWrites(w.rows, rows1, rows2, order, w.clock, actor, records);
    ApprovedFacts(w.rows, rows1, rows2, order, w.clock, w.users, actor, nonce, records);
    ApprovalCommitKeeps(w, rows2, order, actor, records, chain, jobs);
  }

  lemma {:induction false} ApprovalMintKeeps(w: World, rows1: Rows, order: seq<Id>, actor: Id, fault: Fault)
    requires Inv(w) && ScanOf(order, w.rows)
    requires forall i :: 0 <= i < |order| ==> IsPending(w.rows[order[i]])
    requires Approving(w.rows, rows1, order, w.clock, actor) && SchemaHolds(rows1, w.users)
    ensures Inv(Settle(w, RecordNotes(w.notes, Fetch(w.rows, order), ApprovedNote, w.clock),
                       MintCredentials(w, rows1, AddressOf(w.users, actor), Fetch(rows1, order), fault), fault).world)
  {
    var signer := AddressOf(w.users, actor);
    var nonce := R.NonceOf(w.chain, signer);
    var creds := Fetch(rows1, order);
    var records := RecordsFor(creds, w.users, signer, nonce);
    var m := MintCredentials(w, rows1, signer, creds, fault);
    MintShape(w, rows1, signer, creds, fault);
    GrownChainKeeps(w, m.chain, m.jobs);
    if m.rows.Some? {
      TokenWrite(rows1, order, creds, records, w.clock);
      ApprovalMintedKeeps(w, rows1, m.rows.value, order, actor, nonce, records, m.chain, m.jobs);
    }
    SettleKeeps(w, RecordNotes(w.notes, Fetch(w.rows, order), ApprovedNote, w.clock), m, fault);
  }

  lemma {:induction false} FetchPending(rows: Rows, order: seq<Id>)
    requires ScanOf(order, rows)
    requires forall i :: 0 <= i < |order| ==> IsPending(Fetch(rows, order)[i])
    ensures forall i :: 0 <= i < |order| ==> IsPending(rows[order[i]])
  {
    forall i | 0 <= i < |order| ensures IsPending(rows[order[i]]) {
      assert Fetch(rows, order)[i] == rows[order[i]];
    }
  }

  lemma {:induction false} ApproveWriteKeeps(w: World, order: seq<Id>, actor: Id, fault: Fault)
    requires Inv(w) && ScanOf(order, w.rows) && actor in w.users
    requires forall i :: 0 <= i < |order| ==> IsPending(w.rows[order[i]])
    ensures Inv(ApproveWrite(w, order, actor, fault).world)
  {
    var rows1 := UpdateRows(w.rows, ApprovalUpdates(Fetch(w.rows, order), w.clock, actor), w.clock);
    if SchemaHolds(rows1, w.users) {
      ApprovalWrite(w.rows, order, w.clock, actor);
      ApprovalMintKeeps(w, rows1, order, actor, fault);
    }
  }

  lemma {:induction false} ApproveKeeps(w: World, ids: seq<Id>, order: seq<Id>, actor: Id, usable: set<Id>,
                                        fault: Fault)
    requires Inv(w) && IsScan(order, ids, w.rows) && actor in w.users
    ensures Inv(Approve(w, ids, order, actor, usable, fault).world)
  {
    ScanIsScan(order, ids, w.rows);
    if ApproveRefusal(Fetch(w.rows, order), w.clock, usable) == None {
      AcceptedArePending(Fetch(w.rows, order), w.clock, usable);
      FetchPending(w.rows, order);
      ApproveWriteKeeps(w, order, actor, fault);
    }
  }

  // ----- Reject -----

  predicate RejectedRow(c: Credential, c': Credential) {
    && c'.rejectedAt.Some?
    && c' == c.(rejecter := c'.rejecter, rejectedAt := c'.rejectedAt, rejectionReason := c'.rejectionReason,
                updatedAt := c'.updatedAt)
  }

  /** Every row of `order` changed as `changed` says, every other row stayed. */
  ghost predicate ChangedBy(rows: Rows, rows': Rows, order: seq<Id>, changed: (Credential, Credential) -> bool) {
    && Keyed(rows') && rows'.Keys == rows.Keys && ScanOf(order, rows)
    && (forall i :: 0 <= i < |order| ==> changed(rows[order[i]], rows'[order[i]]))
    && (forall id :: id in rows && id !in order ==> rows'[id] == rows[id])
  }

  lemma {:induction false} ChangedAt(rows: Rows, rows': Rows, order: seq<Id>,
                                     changed: (Credential, Credential) -> bool, id: Id)
    requires ChangedBy(rows, rows', order, changed) && id in order
    ensures id in rows && changed(rows[id], rows'[id])
  {
    var i :| 0 <= i < |order| && order[i] == id;
  }

  lemma {:induction false} RejectionPatch(row: Credential, now: Time, actor: Id, reasons: map<Id, string>)
    ensures Provided(RejectionUpdate(row.id, now, actor, reasons)) != map[]
    ensures RejectedRow(row,
                        ApplyPatch(row, RejectionUpdate(row.id, now, actor, reasons)).(updatedAt := Some(Stored(now))))
  {
    Provides(RejectionUpdate(row.id, now, actor, reasons), Sql.REJECTED_AT);
  }

  lemma {:induction false} RejectionWrite(rows: Rows, order: seq<Id>, now: Time, actor: Id, reasons: map<Id, string>)
    requires Keyed(rows) && ScanOf(order, rows)
    ensures ChangedBy(rows, UpdateRows(rows, RejectionUpdates(Fetch(rows, order), now, actor, reasons), now), order,
                      RejectedRow)
  {
    var batch := RejectionUpdates(Fetch(rows, order), now, actor, reasons);
    forall i | 0 <= i < |order|
      ensures batch[i] == RejectionUpdate(order[i], now, actor, reasons) && Provided(batch[i]) != map[]
      ensures RejectedRow(rows[order[i]], ApplyPatch(rows[order[i]], batch[i]).(updatedAt := Some(Stored(now))))
    {
      assert Fetch(rows, order)[i].id == order[i];
      RejectionPatch(rows[order[i]], now, actor, reasons);
    }
    UpdateEach(rows, batch, now);
    NamesOrder(batch, order);
  }

  lemma {:induction false} RejectedRowsOk(rows: Rows, rows': Rows, order: seq<Id>, users: Users, chain: R.Chain)
    requires ChangedBy(rows, rows', order, RejectedRow) && RowsOk(rows) && AllMirrored(rows, users, chain)
    requires forall i :: 0 <= i < |order| ==> IsPending(rows[order[i]])
    ensures RowsOk(rows') && AllMirrored(rows', users, chain) && Advanced(rows, rows', order, RejectedNote)
  {
    forall id | id in rows
      ensures rows'[id].holder == rows[id].holder && RowOk(rows'[id])
      ensures rows'[id].activatedAt.Some? ==> Mirrors(rows'[id], users, chain)
    {
      if id in order {
        ChangedAt(rows, rows', order, RejectedRow, id);
        assert IsPending(rows[id]);
      }
    }
  }

  lemma {:induction false} RejectionCommitKeeps(w: World, rows': Rows, order: seq<Id>)
    requires Inv(w) && ChangedBy(w.rows, rows', order, RejectedRow) && SchemaHolds(rows', w.users)
    requires forall i :: 0 <= i < |order| ==> IsPending(w.rows[order[i]])
    ensures Inv(w.(rows := rows', notes := RecordNotes(w.notes, Fetch(w.rows, order), RejectedNote, w.clock)))
  {
    HoldersNamed(w);
    RejectedRowsOk(w.rows, rows', order, w.users, w.chain);
    AdvancedNotes(w.rows, rows', w.notes, order, RejectedNote, w.clock);
  }

  lemma {:induction false} RejectWriteKeeps(w: World, order: seq<Id>, actor: Id, reasons: map<Id, string>, fault: Fault)
    requires Inv(w) && ScanOf(order, w.rows)
    requires forall i :: 0 <= i < |order| ==> IsPending(w.rows[order[i]])
    ensures Inv(RejectWrite(w, order, actor, reasons, fault).world)
  {
    var rows' := UpdateRows(w.rows, RejectionUpdates(Fetch(w.rows, order), w.clock, actor, reasons), w.clock);
    if SchemaHolds(rows', w.users) {
      RejectionWrite(w.rows, order, w.clock, actor, reasons);
      RejectionCommitKeeps(w, rows', order);
    }
  }

  lemma {:induction false} RejectKeeps(w: World, ids: seq<Id>, order: seq<Id>, actor: Id, reasons: map<Id, string>,
                                       fault: Fault)
    requires Inv(w) && IsScan(order, ids, w.rows)
    ensures Inv(Reject(w, ids, order, actor, reasons, fault).world)
  {
    ScanIsScan(order, ids, w.rows);
    if RejectRefusal(Fetch(w.rows, order), w.clock) == None {
      NotRefusedArePending(Fetch(w.rows, order), w.clock);
      FetchPending(w.rows, order);
      RejectWriteKeeps(w, order, actor, reasons, fault);
    }
  }

  // ----- Revoke -----

  predicate RevokedRow(c: Credential, c': Credential) {
    && c'.revokedAt.Some?
    && c' == c.(revoker := c'.revoker, revokedAt := c'.revokedAt, updatedAt := c'.updatedAt)
  }

  predicate IsRevocable(c: Credential) {
    c.activatedAt.Some? && c.rejectedAt == None && c.revokedAt == None
  }

  lemma {:induction false} RevocationPatch(row: Credential, now: Time, actor: Id, reasons: map<Id, Option<string>>)
    ensures Provided(RevocationUpdate(row.id, now, actor, reasons)) != map[]
    ensures RevokedRow(row,
                       ApplyPatch(row, RevocationUpdate(row.id, now, actor, reasons)).(updatedAt := Some(Stored(now))))
  {
    Provides(RevocationUpdate(row.id, now, actor, reasons), Sql.REVOKED_AT);
  }

  lemma {:induction false} RevocationWrite(rows: Rows, order: seq<Id>, now: Time, actor: Id,
                                           reasons: map<Id, Option<string>>)
    requires Keyed(rows) && ScanOf(order, rows)
    ensures ChangedBy(rows, UpdateRows(rows, RevocationUpdates(Fetch(rows, order), now, actor, reasons), now), order,
                      RevokedRow)
  {
    var batch := RevocationUpdates(Fetch(rows, order), now, actor, reasons);
    forall i | 0 <= i < |order|
      ensures batch[i] == RevocationUpdate(order[i], now, actor, reasons) && Provided(batch[i]) != map[]
      ensures RevokedRow(rows[order[i]], ApplyPatch(rows[order[i]], batch[i]).(updatedAt := Some(Stored(now))))
    {
      assert Fetch(rows, order)[i].id == order[i];
      RevocationPatch(rows[order[i]], now, actor, reasons);
    }
    UpdateEach(rows, batch, now);
    NamesOrder(batch, order);
  }

  lemma {:induction false} TokensAre(targets: seq<Credential>)
    ensures forall i :: 0 <= i < |targets| && targets[i].tokenId.Some? ==> targets[i].tokenId.value in TokensOf(targets)
    ensures forall t :: t in TokensOf(targets) ==> exists i :: 0 <= i < |targets| && targets[i].tokenId == Some(t)
  {
    if targets != [] {
      var n := |targets| - 1;
      TokensAre(targets[..n]);
      forall i | 0 <= i < |targets| && targets[i].tokenId.Some? ensures targets[i].tokenId.value in TokensOf(targets) {
        if i < n {
          assert targets[..n][i] == targets[i];
        }
      }
      forall t | t in TokensOf(targets) ensures exists i :: 0 <= i < |targets| && targets[i].tokenId == Some(t) {
        if t in TokensOf(targets[..n]) {
          var i :| 0 <= i < n && targets[..n][i].tokenId == Some(t);
          assert targets[i].tokenId == Some(t);
        }
      }
    }
  }

  lemma {:induction false} StampedMirrors(c: Credential, users: Users, chain: R.Chain, chain': R.Chain,
                                          tokens: seq<TokenId>, at: nat)
    requires Mirrors(c, users, chain) && R.Stamped(chain, chain', tokens, at) && at > 0
    ensures Mirrors(c, users, chain')
    ensures c.tokenId.value in tokens ==> chain'.records[c.tokenId.value].revokedAt > 0
    ensures c.tokenId.value !in tokens ==> chain'.records[c.tokenId.value] == chain.records[c.tokenId.value]
  {
  }

  predicate RecordRevoked(c: Credential, chain: R.Chain) {
    c.tokenId.Some? && c.tokenId.value in chain.records && chain.records[c.tokenId.value].revokedAt > 0
  }

  lemma {:induction false} RevokedMirrors(c: Credential, c': Credential, users: Users, chain: R.Chain)
    requires Mirrors(c, users, chain) && RevokedRow(c, c') && RecordRevoked(c, chain)
    ensures Mirrors(c', users, chain)
  {
  }

  /** A chain on which some records were revoked still mirrors the rows as they were. */
  lemma {:induction false} StampedChainKeeps(w: World, chain: R.Chain, tokens: seq<TokenId>, at: nat)
    requires Inv(w) && R.Sound(chain) && R.Stamped(w.chain, chain, tokens, at) && at > 0
    ensures Inv(w.(chain := chain))
  {
    forall id | id in w.rows && w.rows[id].activatedAt.Some? ensures Mirrors(w.rows[id], w.users, chain) {
      StampedMirrors(w.rows[id], w.users, w.chain, chain, tokens, at);
    }
  }

  lemma {:induction false} RevokedRowsMirrored(rows: Rows, rows': Rows, order: seq<Id>, users: Users, chain: R.Chain)
    requires ChangedBy(rows, rows', order, RevokedRow) && AllMirrored(rows, users, chain)
    requires forall i :: 0 <= i < |order| ==> IsRevocable(rows[order[i]]) && RecordRevoked(rows[order[i]], chain)
    ensures AllMirrored(rows', users, chain)
  {
    forall id | id in rows' && rows'[id].activatedAt.Some? ensures Mirrors(rows'[id], users, chain) {
      if id in order {
        var i :| 0 <= i < |order| && order[i] == id;
        RevokedMirrors(rows[id], rows'[id], users, chain);
      }
    }
  }

  lemma {:induction false} RevokedRowsOk(rows: Rows, rows': Rows, order: seq<Id>)
    requires ChangedBy(rows, rows', order, RevokedRow) && RowsOk(rows)
    requires forall i :: 0 <= i < |order| ==> IsRevocable(rows[order[i]])
    ensures RowsOk(rows') && Advanced(rows, rows', order, RevokedNote)
  {
    forall id | id in rows ensures rows'[id].holder == rows[id].holder && RowOk(rows'[id]) {
      if id in order {
        ChangedAt(rows, rows', order, RevokedRow, id);
      }
    }
  }

  /** The commit of a revocation, on a chain where every target's record is revoked. */
  lemma {:induction false} RevocationCommitKeeps(w: World, rows': Rows, order: seq<Id>)
    requires Inv(w) && ChangedBy(w.rows, rows', order, RevokedRow) && SchemaHolds(rows', w.users)
    requires forall i :: 0 <= i < |order| ==> IsRevocable(w.rows[order[i]]) && RecordRevoked(w.rows[order[i]], w.chain)
    ensures Inv(w.(rows := rows', notes := RecordNotes(w.notes, Fetch(w.rows, order), RevokedNote, w.clock)))
  {
    HoldersNamed(w);
    RevokedRowsMirrored(w.rows, rows', order, w.users, w.chain);
    RevokedRowsOk(w.rows, rows', order);
    AdvancedNotes(w.rows, rows', w.notes, order, RevokedNote, w.clock);
  }

  lemma {:induction false} RevocableTargets(rows: Rows, order: seq<Id>)
    requires ScanOf(order, rows) && !AnyRevoked(Fetch(rows, order)) && !AnyNotApproved(Fetch(rows, order))
    ensures forall i :: 0 <= i < |order| ==> IsRevocable(rows[order[i]])
  {
    forall i | 0 <= i < |order| ensures IsRevocable(rows[order[i]]) {
      assert Fetch(rows, order)[i] == rows[order[i]];
    }
  }

  lemma {:induction false} TargetsStamped(w: World, order: seq<Id>, chain: R.Chain, at: nat)
    requires Inv(w) && ScanOf(order, w.rows) && at > 0
    requires forall i :: 0 <= i < |order| ==> IsRevocable(w.rows[order[i]])
    requires R.Stamped(w.chain, chain, TokensOf(Fetch(w.rows, order)), at)
    ensures forall i :: 0 <= i < |order| ==> RecordRevoked(w.rows[order[i]], chain)
  {
    TokensAre(Fetch(w.rows, order));
    forall i | 0 <= i < |order| ensures RecordRevoked(w.rows[order[i]], chain) {
      var c := w.rows[order[i]];
      assert RowOk(c) && Mirrors(c, w.users, w.chain);
      assert Fetch(w.rows, order)[i] == c;
      StampedMirrors(c, w.users, w.chain, chain, TokensOf(Fetch(w.rows, order)), at);
    }
  }

  lemma {:induction false} TargetsHaveTokens(w: World, order: seq<Id>)
    requires Inv(w) && ScanOf(order, w.rows)
    requires forall i :: 0 <= i < |order| ==> IsRevocable(w.rows[order[i]])
    ensures order != [] ==> TokensOf(Fetch(w.rows, order)) != []
  {
    TokensAre(Fetch(w.rows, order));
    if order != [] {
      var c := w.rows[order[0]];
      assert RowOk(c) && Fetch(w.rows, order)[0] == c;
      assert c.tokenId.value in TokensOf(Fetch(w.rows, order));
    }
  }

  lemma {:induction false} RevokeOnChainKeeps(w: World, done: World, tokens: seq<TokenId>, revoker: Address,
                                              blockTime: nat, fault: Fault)
    requires Inv(w)
    requires tokens == [] ==> Inv(done)
    requires tokens != [] && R.RevokeBatch(w.chain, revoker, tokens, blockTime).Some? ==>
      var chain := R.RevokeBatch(w.chain, revoker, tokens, blockTime).value;
      Inv(w.(chain := chain)) && Inv(done.(chain := chain))
    ensures Inv(RevokeOnChain(w, done, tokens, revoker, blockTime, fault).world)
  {
  }

  /** Once the revocation is mined the invariant holds both with the commit and without it. */
  lemma {:induction false} RevokeMinedKeeps(w: World, rows': Rows, order: seq<Id>, tokens: seq<TokenId>,
                                            revoker: Address, blockTime: nat)
    requires Inv(w) && ChangedBy(w.rows, rows', order, RevokedRow) && SchemaHolds(rows', w.users)
    requires forall i :: 0 <= i < |order| ==> IsRevocable(w.rows[order[i]])
    requires tokens == TokensOf(Fetch(w.rows, order)) && R.RevokeBatch(w.chain, revoker, tokens, blockTime).Some?
    ensures var chain := R.RevokeBatch(w.chain, revoker, tokens, blockTime).value;
      Inv(w.(chain := chain)) &&
      Inv(w.(rows := rows', notes := RecordNotes(w.notes, Fetch(w.rows, order), RevokedNote, w.clock), chain := chain))
  {
    var chain := R.RevokeBatch(w.chain, revoker, tokens, blockTime).value;
    R.RevokeBatchStamps(w.chain, revoker, tokens, blockTime);
    StampedChainKeeps(w, chain, tokens, blockTime);
    TargetsStamped(w, order, chain, blockTime);
    RevocationCommitKeeps(w.(chain := chain), rows', order);
  }

  lemma {:induction false} RevokeCallKeeps(w: World, rows': Rows, order: seq<Id>, revoker: Address, blockTime: nat,
                                           fault: Fault)
    requires Inv(w) && ChangedBy(w.rows, rows', order, RevokedRow) && SchemaHolds(rows', w.users)
    requires forall i :: 0 <= i < |order| ==> IsRevocable(w.rows[order[i]])
    ensures var done := w.(rows := rows', notes := RecordNotes(w.notes, Fetch(w.rows, order), RevokedNote, w.clock));
      Inv(RevokeOnChain(w, done, TokensOf(Fetch(w.rows, order)), revoker, blockTime, fault).world)
  {
    var tokens := TokensOf(Fetch(w.rows, order));
    var done := w.(rows := rows', notes := RecordNotes(w.notes, Fetch(w.rows, order), RevokedNote, w.clock));
    if tokens == [] {
      TargetsHaveTokens(w, order);
      RevocationCommitKeeps(w, rows', order);
    } else if R.RevokeBatch(w.chain, revoker, tokens, blockTime).Some? {
      RevokeMinedKeeps(w, rows', order, tokens, revoker, blockTime);
    }
    RevokeOnChainKeeps(w, done, tokens, revoker, blockTime, fault);
  }

  lemma {:induction false} RevokeWriteKeeps(w: World, order: seq<Id>, actor: Id, reasons: map<Id, Option<string>>,
                                            blockTime: nat, fault: Fault)
    requires Inv(w) && ScanOf(order, w.rows)
    requires forall i :: 0 <= i < |order| ==> IsRevocable(w.rows[order[i]])
    ensures Inv(RevokeWrite(w, order, actor, reasons, blockTime, fault).world)
  {
    var rows' := UpdateRows(w.rows, RevocationUpdates(Fetch(w.rows, order), w.clock, actor, reasons), w.clock);
    if SchemaHolds(rows', w.users) {
      RevocationWrite(w.rows, order, w.clock, actor, reasons);
      RevokeCallKeeps(w, rows', order, AddressOf(w.users, actor), blockTime, fault);
    }
  }

  lemma {:induction false} RevokeKeeps(w: World, ids: seq<Id>, order: seq<Id>, actor: Id,
                                       reasons: map<Id, Option<string>>,
                    blockTime: nat, fault: Fault)
    requires Inv(w) && IsScan(order, ids, w.rows)
    ensures Inv(Revoke(w, ids, order, actor, reasons, blockTime, fault).world)
  {
    ScanIsScan(order, ids, w.rows);
    if !AnyRevoked(Fetch(w.rows, order)) && !AnyNotApproved(Fetch(w.rows, order)) {
      RevocableTargets(w.rows, order);
      RevokeWriteKeeps(w, order, actor, reasons, blockTime, fault);
    }
  }

  // ----- Issue and Submit -----

  /** `rows'` is `rows` with the prepared credentials added under new ids. */
  ghost predicate Stocked(rows: Rows, rows': Rows, creds: seq<Credential>) {
    && Keyed(rows')
    && (forall id :: id in rows' <==> id in rows || Names(creds, id))
    && (forall i :: 0 <= i < |creds| ==> creds[i].id in rows' && rows'[creds[i].id] == Persisted(creds[i]))
    && (forall id :: id in rows ==> id in rows' && rows'[id] == rows[id])
  }

  lemma {:induction false} NamesSnoc(creds: seq<Credential>, id: Id)
    requires creds != []
    ensures Names(creds, id) <==> (Names(creds[..|creds| - 1], id) || creds[|creds| - 1].id == id)
  {
    var n := |creds| - 1;
    if Names(creds[..n], id) {
      var i :| 0 <= i < n && creds[..n][i].id == id;
      assert creds[i].id == id;
    }
    if Names(creds, id) && creds[n].id != id {
      var i :| 0 <= i < |creds| && creds[i].id == id;
      assert creds[..n][i].id == id;
    }
  }

  lemma {:induction false} StoreAdds(rows: Rows, creds: seq<Credential>)
    requires Keyed(rows) && KeysFree(rows, creds)
    ensures Stocked(rows, StoreRows(rows, creds), creds)
  {
    if creds != [] {
      var n := |creds| - 1;
      StoreAdds(rows, creds[..n]);
      StockedStep(rows, StoreRows(rows, creds[..n]), creds);
    }
  }

  lemma {:induction false} StockedStep(rows: Rows, rows1: Rows, creds: seq<Credential>)
    requires creds != [] && KeysFree(rows, creds) && Stocked(rows, rows1, creds[..|creds| - 1])
    ensures Stocked(rows, rows1[creds[|creds| - 1].id := Persisted(creds[|creds| - 1])], creds)
  {
    var n := |creds| - 1;
    var rows' := rows1[creds[n].id := Persisted(creds[n])];
    forall id ensures id in rows' <==> id in rows || Names(creds, id) {
      NamesSnoc(creds, id);
    }
    forall i | 0 <= i < |creds| ensures creds[i].id in rows' && rows'[creds[i].id] == Persisted(creds[i]) {
      if i < n {
        assert creds[..n][i] == creds[i];
      }
    }
  }

  lemma {:induction false} PersistedFacts(c: Credential, c': Credential, users: Users, r: R.Record)
    requires SameFacts(c, users, r)
    requires c' == Persisted(c).(tokenId := c'.tokenId, updatedAt := c'.updatedAt)
    ensures SameFacts(c', users, r)
  {
    StoredKeepsSeconds(c.issuedAt);
    if c.expiresAt.Some? {
      StoredKeepsSeconds(c.expiresAt.value);
    }
    assert ZERO_TIME % 1000 == 0;
  }

  predicate Born(c: Credential, kind: NoteKind) {
    && c.id != "" && c.holder != "" && c.fileUri.Some? && c.rejectedAt == None && c.revokedAt == None
    && c.tokenId == None
    && match kind
       case RegisteredNote => c.activatedAt.Some? && c.issuer.Some?
       case _ => c.activatedAt == None
  }

  lemma {:induction false} BornNotes(rows: Rows, rows': Rows, notes: Notes, creds: seq<Credential>, now: Time)
    requires NotesExact(rows, notes) && KeysFree(rows, creds) && Keyed(rows)
    requires forall i :: 0 <= i < |creds| ==> Born(creds[i], RegisteredNote)
    requires forall id :: id in rows' <==> id in rows || Names(creds, id)
    requires forall id :: id in rows ==> rows'[id] == rows[id]
    requires forall i :: 0 <= i < |creds| ==> creds[i].id in rows' && Newborn(creds[i], rows'[creds[i].id])
    ensures NotesExact(rows', RecordNotes(notes, creds, RegisteredNote, now))
  {
    var notes' := RecordNotes(notes, creds, RegisteredNote, now);
    RecordAdds(notes, creds, RegisteredNote, now);
    forall k | k in notes' ensures Justified(rows', k) {
      if k in notes {
        assert Justified(rows, k);
      } else {
        assert AddsNote(creds, RegisteredNote, k);
        var i :| 0 <= i < |creds| && NoteFor(creds[i], RegisteredNote) == k;
        assert Names(creds, creds[i].id);
      }
    }
    forall id | id in rows' ensures Announced(notes', rows'[id]) {
      if id in rows {
        assert Announced(notes, rows[id]);
        OldRowsGetNoNote(rows, creds, id);
      } else {
        var i :| 0 <= i < |creds| && creds[i].id == id;
        NewRowsHadNoNote(rows, notes, creds, i);
        assert AddsNote(creds, RegisteredNote, NoteFor(creds[i], RegisteredNote));
      }
    }
  }

  /** A stored row keeps what its credential was born with. */
  predicate Newborn(c: Credential, c': Credential) {
    c'.id == c.id && c'.holder == c.holder && c'.activatedAt.Some? == c.activatedAt.Some?
    && c'.rejectedAt == None && c'.revokedAt == None
  }

  lemma {:induction false} OldRowsGetNoNote(rows: Rows, creds: seq<Credential>, id: Id)
    requires KeysFree(rows, creds) && id in rows && Keyed(rows)
    ensures forall kind, q :: !AddsNote(creds, kind, NoteFor(rows[id], q))
  {
  }

  lemma {:induction false} NewRowsHadNoNote(rows: Rows, notes: Notes, creds: seq<Credential>, i: nat)
    requires NotesExact(rows, notes) && KeysFree(rows, creds) && i < |creds|
    ensures forall q :: NoteFor(creds[i], q) !in notes
  {
    forall q ensures NoteFor(creds[i], q) !in notes {
      assert NoteFor(creds[i], q) in notes ==> Justified(rows, NoteFor(creds[i], q));
    }
  }

  lemma {:induction false} CredIds(creds: seq<Credential>, rows: Rows, rows1: Rows)
    requires KeysFree(rows, creds) && Stocked(rows, rows1, creds)
    ensures ScanOf(IdsOf(creds), rows1)
    ensures forall id :: id in IdsOf(creds) <==> Names(creds, id)
  {
    NamesOrder(creds, IdsOf(creds));
  }

  /** The rows of a committed issuance: the old ones, and one activated row per credential. */
  ghost predicate IssuedRows(rows: Rows, rows2: Rows, creds: seq<Credential>, records: seq<R.Record>) {
    && |records| == |creds|
    && Keyed(rows2)
    && (forall id :: id in rows2 <==> id in rows || Names(creds, id))
    && (forall id :: id in rows ==> id in rows2 && rows2[id] == rows[id])
    && (forall i :: 0 <= i < |creds| ==> creds[i].id in rows2)
    && (forall i :: 0 <= i < |creds| ==> IssuedRow(creds[i], rows2[creds[i].id], records[i].id))
  }

  predicate IssuedRow(c: Credential, c': Credential, token: TokenId) {
    c' == Persisted(c).(tokenId := Some(token), updatedAt := c'.updatedAt)
  }

  lemma {:induction false} IssuedWrites(rows: Rows, rows1: Rows, rows2: Rows, creds: seq<Credential>,
                                        records: seq<R.Record>, now: Time)
    requires KeysFree(rows, creds) && Stocked(rows, rows1, creds) && Tokened(rows1, rows2, IdsOf(creds), records, now)
    ensures IssuedRows(rows, rows2, creds, records)
  {
    NamesOrder(creds, IdsOf(creds));
    forall id | id in rows ensures id in rows2 && rows2[id] == rows[id] {
      assert id !in IdsOf(creds);
    }
    forall i | 0 <= i < |creds| ensures IssuedRow(creds[i], rows2[creds[i].id], records[i].id) {
      assert IdsOf(creds)[i] == creds[i].id;
    }
  }

  lemma {:induction false} IssuedRowsMirrored(rows: Rows, rows2: Rows, creds: seq<Credential>, records: seq<R.Record>,
                           users: Users, chain: R.Chain, chain': R.Chain)
    requires IssuedRows(rows, rows2, creds, records) && R.Minted(chain, chain', records)
    requires AllMirrored(rows, users, chain)
    requires forall i :: 0 <= i < |creds| ==> SameFacts(creds[i], users, records[i]) && Born(creds[i], RegisteredNote)
    ensures AllMirrored(rows2, users, chain')
  {
    forall id | id in rows2 && rows2[id].activatedAt.Some? ensures Mirrors(rows2[id], users, chain') {
      if id in rows {
        ExtendsMirrors(rows[id], users, chain, chain');
      } else {
        var i :| 0 <= i < |creds| && creds[i].id == id;
        assert IssuedRow(creds[i], rows2[creds[i].id], records[i].id);
        PersistedFacts(creds[i], rows2[id], users, records[i]);
        assert R.Added(chain, chain', records[i]);
      }
    }
  }

  lemma {:induction false} IssuedRowsOk(rows: Rows, rows2: Rows, creds: seq<Credential>, records: seq<R.Record>)
    requires IssuedRows(rows, rows2, creds, records) && RowsOk(rows)
    requires forall i :: 0 <= i < |creds| ==> Born(creds[i], RegisteredNote)
    ensures RowsOk(rows2)
    ensures forall i :: 0 <= i < |creds| ==> Newborn(creds[i], rows2[creds[i].id])
  {
    forall i | 0 <= i < |creds| ensures Newborn(creds[i], rows2[creds[i].id]) && RowOk(rows2[creds[i].id]) {
      assert IssuedRow(creds[i], rows2[creds[i].id], records[i].id);
    }
    forall id | id in rows2 ensures RowOk(rows2[id]) {
      if id !in rows {
        var i :| 0 <= i < |creds| && creds[i].id == id;
      }
    }
  }

  lemma {:induction false} IssueCommitKeeps(w: World, rows2: Rows, creds: seq<Credential>, records: seq<R.Record>,
                                            chain: R.Chain, jobs: seq<Id>)
    requires Inv(w) && KeysFree(w.rows, creds) && IssuedRows(w.rows, rows2, creds, records)
    requires SchemaHolds(rows2, w.users)
    requires R.Sound(chain) && R.Minted(w.chain, chain, records)
    requires forall i :: 0 <= i < |creds| ==> SameFacts(creds[i], w.users, records[i]) && Born(creds[i], RegisteredNote)
    ensures Inv(w.(rows := rows2, notes := RecordNotes(w.notes, creds, RegisteredNote, w.clock), chain := chain,
                   jobs := jobs))
  {
    IssuedRowsMirrored(w.rows, rows2, creds, records, w.users, w.chain, chain);
    IssuedRowsOk(w.rows, rows2, creds, records);
    BornNotes(w.rows, rows2, w.notes, creds, w.clock);
    assert "" !in rows2;
  }

  lemma {:induction false} IssuedFacts(creds: seq<Credential>, users: Users, actor: Id, nonce: Word,
                                       records: seq<R.Record>)
    requires records == RecordsFor(creds, users, AddressOf(users, actor), nonce)
    requires forall i :: 0 <= i < |creds| ==> creds[i].issuer == Some(actor)
    ensures forall i :: 0 <= i < |creds| ==> SameFacts(creds[i], users, records[i])
  {
    forall i | 0 <= i < |creds| ensures SameFacts(creds[i], users, records[i]) {
      RecordForSame(creds[i], users, actor, nonce);
    }
  }

  lemma {:induction false} IssueMintKeeps(w: World, rows1: Rows, creds: seq<Credential>, actor: Id, fault: Fault)
    requires Inv(w) && KeysFree(w.rows, creds) && Stocked(w.rows, rows1, creds) && SchemaHolds(rows1, w.users)
    requires forall i :: 0 <= i < |creds| ==> creds[i].issuer == Some(actor) && Born(creds[i], RegisteredNote)
    ensures Inv(Settle(w, RecordNotes(w.notes, creds, RegisteredNote, w.clock),
                       MintCredentials(w, rows1, AddressOf(w.users, actor), creds, fault), fault).world)
  {
    var signer := AddressOf(w.users, actor);
    var nonce := R.NonceOf(w.chain, signer);
    var records := RecordsFor(creds, w.users, signer, nonce);
    var m := MintCredentials(w, rows1, signer, creds, fault);
    MintShape(w, rows1, signer, creds, fault);
    GrownChainKeeps(w, m.chain, m.jobs);
    if m.rows.Some? {
      IssueMintedKeeps(w, rows1, creds, actor, nonce, records, m);
    }
    SettleKeeps(w, RecordNotes(w.notes, creds, RegisteredNote, w.clock), m, fault);
  }

  lemma {:induction false} IssueMintedKeeps(w: World, rows1: Rows, creds: seq<Credential>, actor: Id, nonce: Word,
                                            records: seq<R.Record>, m: Mint)
    requires Inv(w) && KeysFree(w.rows, creds) && Stocked(w.rows, rows1, creds)
    requires forall i :: 0 <= i < |creds| ==> creds[i].issuer == Some(actor) && Born(creds[i], RegisteredNote)
    requires records == RecordsFor(creds, w.users, AddressOf(w.users, actor), nonce)
    requires m.rows.Some? && MintResult(w, rows1, creds, records, m)
    ensures Inv(w.(rows := m.rows.value, notes := RecordNotes(w.notes, creds, RegisteredNote, w.clock),
                   chain := m.chain, jobs := m.jobs))
  {
    CredIds(creds, w.rows, rows1);
    TokenWrite(rows1, IdsOf(creds), creds, records, w.clock);
    IssuedWrites(w.rows, rows1, m.rows.value, creds, records, w.clock);
    IssuedFacts(creds, w.users, actor, nonce, records);
    IssueCommitKeeps(w, m.rows.value, creds, records, m.chain, m.jobs);
  }

  /** What preparation gives every credential, apart from a holder that the schema will check. */
  predicate Prepared(c: Credential, kind: NoteKind) {
    && c.id != "" && c.fileUri.Some? && c.rejectedAt == None && c.revokedAt == None && c.tokenId == None
    && match kind
       case RegisteredNote => c.activatedAt.Some? && c.issuer.Some?
       case _ => c.activatedAt == None
  }

  lemma {:induction false} StockedHolders(rows: Rows, rows1: Rows, creds: seq<Credential>, users: Users, kind: NoteKind)
    requires Stocked(rows, rows1, creds) && SchemaHolds(rows1, users) && "" !in users
    requires forall i :: 0 <= i < |creds| ==> Prepared(creds[i], kind)
    ensures forall i :: 0 <= i < |creds| ==> Born(creds[i], kind)
  {
    forall i | 0 <= i < |creds| ensures Born(creds[i], kind) {
      assert RowAllowed(rows1[creds[i].id], users);
    }
  }

  lemma {:induction false} IssueWriteKeeps(w: World, creds: seq<Credential>, actor: Id, fault: Fault)
    requires Inv(w)
    requires forall i :: 0 <= i < |creds| ==> creds[i].issuer == Some(actor)
    requires KeysFree(w.rows, creds) ==> forall i :: 0 <= i < |creds| ==> Prepared(creds[i], RegisteredNote)
    ensures Inv(IssueWrite(w, creds, actor, fault).world)
  {
    if KeysFree(w.rows, creds) {
      StoreAdds(w.rows, creds);
      if SchemaHolds(StoreRows(w.rows, creds), w.users) {
        StockedHolders(w.rows, StoreRows(w.rows, creds), creds, w.users, RegisteredNote);
        IssueMintKeeps(w, StoreRows(w.rows, creds), creds, actor, fault);
      }
    }
  }

  lemma {:induction false} PreparedItems(items: seq<Item>, ids: seq<Id>, uris: seq<string>, actor: Id, now: Time,
                                         issue: bool, rows: Rows)
    requires |ids| == |items| && |uris| == |items|
    ensures var creds := Prepare(items, ids, uris, actor, now, issue);
      (issue ==> forall i :: 0 <= i < |creds| ==> creds[i].issuer == Some(actor)) &&
      (KeysFree(rows, creds) ==>
         forall i :: 0 <= i < |creds| ==> Prepared(creds[i], if issue then RegisteredNote else ApprovedNote))
  {
  }

  lemma {:induction false} IssueKeeps(w: World, items: seq<Item>, ids: seq<Id>, uris: seq<string>, actor: Id,
                                      catalog: Catalog, fault: Fault)
    requires Inv(w) && |ids| == |items| && |uris| == |items|
    ensures Inv(Issue(w, items, ids, uris, actor, catalog, fault).world)
  {
    PreparedItems(items, ids, uris, actor, w.clock, true, w.rows);
    IssueWriteKeeps(w, Prepare(items, ids, uris, actor, w.clock, true), actor, fault);
  }

  lemma {:induction false} SubmittedKeeps(w: World, rows1: Rows, creds: seq<Credential>)
    requires Inv(w) && KeysFree(w.rows, creds) && Stocked(w.rows, rows1, creds) && SchemaHolds(rows1, w.users)
    requires forall i :: 0 <= i < |creds| ==> Prepared(creds[i], ApprovedNote)
    ensures Inv(w.(rows := rows1))
  {
    forall id | id in rows1
      ensures RowOk(rows1[id]) && Announced(w.notes, rows1[id])
      ensures rows1[id].activatedAt.Some? ==> Mirrors(rows1[id], w.users, w.chain)
    {
      if id in w.rows {
        assert Announced(w.notes, w.rows[id]);
      } else {
        var i :| 0 <= i < |creds| && creds[i].id == id;
      }
    }
    forall k | k in w.notes ensures Justified(rows1, k) {
      assert Justified(w.rows, k);
    }
    assert "" !in rows1;
  }

  lemma {:induction false} SubmitKeeps(w: World, items: seq<Item>, ids: seq<Id>, uris: seq<string>, actor: Id,
                                       catalog: Catalog, fault: Fault)
    requires Inv(w) && |ids| == |items| && |uris| == |items|
    ensures Inv(Submit(w, items, ids, uris, actor, catalog, fault).world)
  {
    var creds := Prepare(items, ids, uris, actor, w.clock, false);
    PreparedItems(items, ids, uris, actor, w.clock, false, w.rows);
    SubmitWriteKeeps(w, creds, fault);
  }

  lemma {:induction false} SubmitWriteKeeps(w: World, creds: seq<Credential>, fault: Fault)
    requires Inv(w)
    requires KeysFree(w.rows, creds) ==> forall i :: 0 <= i < |creds| ==> Prepared(creds[i], ApprovedNote)
    ensures Inv(SubmitWrite(w, creds, fault).world)
  {
    if KeysFree(w.rows, creds) && SchemaHolds(StoreRows(w.rows, creds), w.users) {
      StoreAdds(w.rows, creds);
      SubmittedKeeps(w, StoreRows(w.rows, creds), creds);
    }
  }

  // ----- Update and extraction: changes that events do not see -----

  /** A change that leaves the events, the holder, the token and the file of a row alone, and, once
      the row is activated, everything the chain mirrors. */
  predicate Quiet(c: Credential, c': Credential) {
    && c'.id == c.id && c'.holder == c.holder && c'.fileHash == c.fileHash && c'.tokenId == c.tokenId
    && c'.activatedAt == c.activatedAt && c'.rejectedAt == c.rejectedAt && c'.revokedAt == c.revokedAt
    && c'.issuer == c.issuer && c'.submitter == c.submitter && c'.fileUri == c.fileUri
    && (c.activatedAt.Some? ==> c'.issuedAt == c.issuedAt && c'.expiresAt == c.expiresAt && c'.number == c.number
                                && c'.organization == c.organization && c'.kind == c.kind && c'.name == c.name)
  }

  ghost predicate AllQuiet(rows: Rows, rows': Rows) {
    rows'.Keys == rows.Keys && forall id :: id in rows ==> Quiet(rows[id], rows'[id])
  }

  lemma {:induction false} QuietKeeps(w: World, rows': Rows, jobs: seq<Id>)
    requires Inv(w) && AllQuiet(w.rows, rows') && SchemaHolds(rows', w.users)
    ensures Inv(w.(rows := rows', jobs := jobs))
  {
    forall id | id in rows'
      ensures rows'[id].id == id && RowOk(rows'[id]) && Announced(w.notes, rows'[id])
      ensures rows'[id].activatedAt.Some? ==> Mirrors(rows'[id], w.users, w.chain)
    {
      assert Quiet(w.rows[id], rows'[id]) && RowOk(w.rows[id]) && Announced(w.notes, w.rows[id]);
    }
    forall k | k in w.notes ensures Justified(rows', k) {
      assert Justified(w.rows, k);
      assert Quiet(w.rows[k.credential], rows'[k.credential]);
    }
  }

  /** Extraction touches only its own columns, which no constraint mentions. */
  predicate ExtractOnly(c: Credential, c': Credential) {
    c' == c.(extractEnqueuedAt := c'.extractEnqueuedAt, extractedAt := c'.extractedAt,
             extractFailedAt := c'.extractFailedAt,
             extractError := c'.extractError, updatedAt := c'.updatedAt)
  }

  ghost predicate AllExtractOnly(rows: Rows, rows': Rows) {
    rows'.Keys == rows.Keys && forall id :: id in rows ==> ExtractOnly(rows[id], rows'[id])
  }

  lemma {:induction false} ExtractOnlyKeeps(w: World, rows': Rows, jobs: seq<Id>)
    requires Inv(w) && AllExtractOnly(w.rows, rows')
    ensures Inv(w.(rows := rows', jobs := jobs))
  {
    forall id | id in w.rows ensures Quiet(w.rows[id], rows'[id]) && RowAllowed(rows'[id], w.users) {
      assert ExtractOnly(w.rows[id], rows'[id]) && RowAllowed(w.rows[id], w.users);
    }
    ExtractOnlySchema(w.rows, rows', w.users);
    QuietKeeps(w, rows', jobs);
  }

  lemma {:induction false} ExtractOnlySchema(rows: Rows, rows': Rows, users: Users)
    requires AllExtractOnly(rows, rows') && SchemaHolds(rows, users)
    ensures SchemaHolds(rows', users)
  {
    forall a, b | a in rows' && b in rows' && a != b
      ensures Active(rows'[a]) && Active(rows'[b]) ==> rows'[a].fileHash != rows'[b].fileHash
      ensures rows'[a].tokenId.Some? ==> rows'[a].tokenId != rows'[b].tokenId
      ensures rows'[a].number.Some? && rows'[a].organization == rows'[b].organization ==>
        rows'[a].number != rows'[b].number
    {
      assert ExtractOnly(rows[a], rows'[a]) && ExtractOnly(rows[b], rows'[b]);
    }
    forall id | id in rows' ensures RowAllowed(rows'[id], users) {
      assert ExtractOnly(rows[id], rows'[id]) && RowAllowed(rows[id], users);
    }
  }

  lemma {:induction false} ExtractPatches(row: Credential, batch: seq<Credential>, now: Time)
    requires forall i :: 0 <= i < |batch| ==> ExtractOnly(Blank(batch[i].id), batch[i])
    ensures ExtractOnly(row, PatchRow(row, batch)) && ExtractOnly(row, Touched(row, batch, now))
  {
    if batch != [] {
      ExtractPatches(row, batch[1..], now);
      assert ExtractOnly(Blank(batch[0].id), batch[0]);
    }
  }

  lemma {:induction false} ExtractWrite(rows: Rows, batch: seq<Credential>, now: Time)
    requires Keyed(rows) && forall i :: 0 <= i < |batch| ==> ExtractOnly(Blank(batch[i].id), batch[i])
    ensures AllExtractOnly(rows, UpdateRows(rows, batch, now)) && Keyed(UpdateRows(rows, batch, now))
  {
    forall id | id in rows ensures ExtractOnly(rows[id], UpdateRows(rows, batch, now)[id]) {
      ExtractPatches(rows[id], batch, now);
    }
  }

  lemma {:induction false} ClearedExtractOnly(rows: Rows, order: seq<Id>, now: Time)
    requires Keyed(rows)
    ensures AllExtractOnly(rows, ClearOutcome(rows, order, now)) && Keyed(ClearOutcome(rows, order, now))
  {
  }

  lemma {:induction false} ExtractOnlyTwice(rows: Rows, rows1: Rows, rows2: Rows)
    requires AllExtractOnly(rows, rows1) && AllExtractOnly(rows1, rows2)
    ensures AllExtractOnly(rows, rows2)
  {
    forall id | id in rows ensures ExtractOnly(rows[id], rows2[id]) {
      assert ExtractOnly(rows[id], rows1[id]) && ExtractOnly(rows1[id], rows2[id]);
    }
  }

  lemma {:induction false} ReEnqueueKeeps(w: World, rows1: Rows, order: seq<Id>, fault: Fault)
    requires Inv(w) && AllExtractOnly(w.rows, rows1) && Keyed(rows1)
    requires forall id :: id in order ==> id in w.rows
    ensures Inv(ReEnqueue(w, rows1, order, fault).world)
  {
    if fault.RestampFails? && fault.at < |order| {
      ExtractOnlyKeeps(w, rows1, w.jobs + order[..fault.at]);
    } else if fault.EnqueueFails? && fault.at < |order| {
      var stamp := FailureStamp(w.rows[order[fault.at]], w.clock, REENQUEUE_FAILED);
      ExtractWrite(rows1, [stamp], w.clock);
      ExtractOnlyTwice(w.rows, rows1, UpdateRows(rows1, [stamp], w.clock));
      ExtractOnlyKeeps(w, UpdateRows(rows1, [stamp], w.clock), w.jobs + order[..fault.at]);
    } else {
      ExtractOnlyKeeps(w, rows1, w.jobs + order);
    }
  }

  lemma {:induction false} ReExtractKeeps(w: World, ids: seq<Id>, order: seq<Id>, fault: Fault)
    requires Inv(w) && IsScan(order, ids, w.rows)
    ensures Inv(ReExtract(w, ids, order, fault).world)
  {
    ClearedExtractOnly(w.rows, order, w.clock);
    ReEnqueueKeeps(w, ClearOutcome(w.rows, order, w.clock), order, fault);
  }

  // ----- Update -----

  lemma {:induction false} EditedWerePending(w: World, edits: seq<Edit>, catalog: Catalog)
    requires forall i :: 0 <= i < |edits| ==> edits[i].id in w.rows
    requires UpdateRefusal(w, edits, catalog) == None
    ensures forall i :: 0 <= i < |edits| ==> StatusOf(w.rows[edits[i].id], w.clock) == Pending
  {
    if edits != [] {
      EditedWerePending(w, edits[1..], catalog);
      assert forall i :: 0 < i < |edits| ==> edits[i] == edits[1..][i - 1];
    }
  }

  predicate EditOnly(c: Credential, c': Credential) {
    c' == c.(name := c'.name, number := c'.number, kind := c'.kind, organization := c'.organization,
             issuedAt := c'.issuedAt, expiresAt := c'.expiresAt, meta := c'.meta, updatedAt := c'.updatedAt)
  }

  lemma {:induction false} EditPatchesOnly(row: Credential, edits: seq<Edit>)
    ensures EditOnly(row, PatchRow(row, EditPatches(edits)))
  {
    if edits != [] {
      EditPatchesOnly(row, edits[1..]);
      assert EditPatches(edits)[1..] == EditPatches(edits[1..]);
    }
  }

  lemma {:induction false} EditedRow(row: Credential, edits: seq<Edit>, now: Time)
    ensures EditOnly(row, Touched(row, EditPatches(edits), now))
    ensures Touched(row, EditPatches(edits), now) == row || exists i :: 0 <= i < |edits| && edits[i].id == row.id
  {
    EditPatchesOnly(row, edits);
    if Names(EditPatches(edits), row.id) {
      var i :| 0 <= i < |edits| && EditPatches(edits)[i].id == row.id;
      assert edits[i].id == row.id;
    }
  }

  lemma {:induction false} UpdateWriteKeeps(w: World, edits: seq<Edit>, fault: Fault)
    requires Inv(w)
    requires forall i :: 0 <= i < |edits| ==> edits[i].id in w.rows && IsPending(w.rows[edits[i].id])
    ensures Inv(UpdateWrite(w, edits, fault).world)
  {
    var rows' := UpdateRows(w.rows, EditPatches(edits), w.clock);
    if SchemaHolds(rows', w.users) {
      forall id | id in w.rows ensures Quiet(w.rows[id], rows'[id]) {
        EditedRow(w.rows[id], edits, w.clock);
      }
      QuietKeeps(w, rows', w.jobs);
    }
  }

  lemma {:induction false} UpdateChecksKeep(w: World, edits: seq<Edit>, catalog: Catalog, fault: Fault)
    requires Inv(w) && forall i :: 0 <= i < |edits| ==> edits[i].id in w.rows
    ensures UpdateRefusal(w, edits, catalog) == None ==> Inv(UpdateWrite(w, edits, fault).world)
  {
    if UpdateRefusal(w, edits, catalog) == None {
      EditedWerePending(w, edits, catalog);
      UpdateWriteKeeps(w, edits, fault);
    }
  }

  lemma {:induction false} UpdateKeeps(w: World, edits: seq<Edit>, catalog: Catalog, fault: Fault)
    requires Inv(w)
    ensures Inv(Update(w, edits, catalog, fault).world)
  {
    if forall i :: 0 <= i < |edits| ==> edits[i].id in w.rows {
      UpdateChecksKeep(w, edits, catalog, fault);
    }
  }

  // ----- Every action, every run -----

  lemma {:induction false} StampKeeps(w: World, stamp: Credential)
    requires Inv(w) && IsStamp(stamp, w.clock)
    ensures Inv(w.(rows := UpdateRows(w.rows, [stamp], w.clock)))
  {
    ExtractWrite(w.rows, [stamp], w.clock);
    ExtractOnlyKeeps(w, UpdateRows(w.rows, [stamp], w.clock), w.jobs);
  }

  lemma {:induction false} AccountsKeep(w: World, users: Users)
    requires Inv(w) && UsersGrow(w.users, users)
    ensures Inv(w.(users := users))
  {
    forall id | id in w.rows
      ensures RowAllowed(w.rows[id], users)
      ensures w.rows[id].activatedAt.Some? ==> Mirrors(w.rows[id], users, w.chain)
    {
      assert RowAllowed(w.rows[id], w.users) && RowOk(w.rows[id]);
    }
  }

  lemma {:induction false} DoKeeps(w: World, a: Action)
    requires Inv(w) && Enabled(w, a)
    ensures Inv(Do(w, a).world)
  {
    match a
    case DoApprove(ids, order, actor, usable, fault) => ApproveKeeps(w, ids, order, actor, usable, fault);
    case DoReject(ids, order, actor, reasons, fault) => RejectKeeps(w, ids, order, actor, reasons, fault);
    case DoRevoke(ids, order, actor, grounds, blockTime, fault) =>
      RevokeKeeps(w, ids, order, actor, grounds, blockTime, fault);
    case DoIssue(items, newIds, uris, actor, catalog, fault) =>
      IssueKeeps(w, items, newIds, uris, actor, catalog, fault);
    case DoSubmit(items, newIds, uris, actor, catalog, fault) =>
      SubmitKeeps(w, items, newIds, uris, actor, catalog, fault);
    case DoUpdate(edits, catalog, fault) => UpdateKeeps(w, edits, catalog, fault);
    case DoReExtract(ids, order, fault) => ReExtractKeeps(w, ids, order, fault);
    case WorkerStamp(stamp) => StampKeeps(w, stamp);
    case Accounts(users) => AccountsKeep(w, users);
    case Tick(_) =>
  }

  lemma {:induction false} RunKeeps(w: World, actions: seq<Action>)
    requires Inv(w)
    ensures Inv(Run(w, actions))
  {
    if actions != [] {
      var w' := Run(w, actions[..|actions| - 1]);
      RunKeeps(w, actions[..|actions| - 1]);
      if Enabled(w', actions[|actions| - 1]) {
        DoKeeps(w', actions[|actions| - 1]);
      }
    }
  }

  /** Whatever is requested and wherever the environment fails, every reachable world satisfies the
      invariant. */
  lemma {:induction false} ReachableWorlds(w: World, actions: seq<Action>)
    requires Initial(w)
    ensures Inv(Run(w, actions))
  {
    RunKeeps(w, actions);
  }
}
