/** What a committed operation leaves in every table, written out field by field from the request: the
    whole next world, not only what it keeps. */
module Effects {
  import opened Base
  import opened Credentials
  import opened Payload
  import opened Lifecycle
  import opened LifecycleInvariant
  import opened LifecycleRuns
  import opened LostWork
  import R = Registry
  import Sql = CaseSql

  // ----- The vocabulary of the statements -----

  /** Only the listed rows changed. */
  ghost predicate OthersStay(rows: Rows, rows': Rows, order: seq<Id>) {
    && (forall id :: id in rows' <==> id in rows || id in order)
    && (forall id :: id in rows && id !in order ==> rows'[id] == rows[id])
  }

  /** A record of the registry, told in the terms of a request. */
  predicate Tells(r: R.Record, id: Id, hash: Ascii, holder: Address, issuer: Address, issuedAt: Time,
                  expiresAt: Option<Time>, number: Option<string>) {
    && r.uri == id && r.hash == hash && r.holder == holder && r.issuer == issuer && r.revokedAt == 0
    && r.issuedAt == (if issuedAt == ZERO_TIME then 0 else (issuedAt / 1_000_000_000) % 0x1_0000_0000_0000_0000)
    && r.expiresAt == (if expiresAt == None then 0 else (expiresAt.value / 1_000_000_000) % 0x1_0000_0000_0000_0000)
    && r.number == (if number == None then "" else number.value)
  }

  /** Every row of `order` has a new record, earlier records stay, and there are no others. */
  ghost predicate RecordsGrow(chain: R.Chain, chain': R.Chain, rows': Rows, order: seq<Id>) {
    && (forall t :: t in chain.records ==> t in chain'.records && chain'.records[t] == chain.records[t])
    && (forall t :: t in chain'.records && t !in chain.records ==> TokenAmong(rows', order, t))
    && (forall i :: 0 <= i < |order| ==> NewToken(chain, chain', rows', order[i]))
  }

  predicate TokenAmong(rows: Rows, order: seq<Id>, t: TokenId) {
    exists i :: 0 <= i < |order| && order[i] in rows && rows[order[i]].tokenId == Some(t)
  }

  predicate NewToken(chain: R.Chain, chain': R.Chain, rows': Rows, id: Id) {
    && id in rows' && rows'[id].tokenId.Some?
    && rows'[id].tokenId.value in chain'.records && rows'[id].tokenId.value !in chain.records
  }

  /** Each credential's holder is told once, now; what was there stays. */
  ghost predicate Told(notes: Notes, notes': Notes, rows': Rows, order: seq<Id>, kind: NoteKind, now: Time) {
    && (forall k :: k in notes' <==> k in notes || ToldTo(rows', order, kind, k))
    && (forall k :: k in notes ==> notes'[k] == notes[k])
    && (forall k :: k in notes' && k !in notes ==> notes'[k].createdAt == now && notes'[k].readAt == None)
  }

  predicate ToldTo(rows: Rows, order: seq<Id>, kind: NoteKind, k: NoteKey) {
    k.kind == kind && k.credential in order && k.credential in rows && rows[k.credential].holder == k.user
  }

  // ----- Writes, one record per row -----

  /** A batch with one record per row leaves each row patched by its own record and stamped. */
  lemma {:induction false} OneEach(rows: Rows, order: seq<Id>, batch: seq<Credential>, now: Time)
    requires Keyed(rows) && ScanOf(order, rows) && |batch| == |order|
    requires forall i :: 0 <= i < |order| ==> batch[i].id == order[i] && Provided(batch[i]) != map[]
    ensures var rows' := UpdateRows(rows, batch, now);
      && rows'.Keys == rows.Keys && OthersStay(rows, rows', order)
      && (forall i :: 0 <= i < |order| ==>
            rows'[order[i]] == ApplyPatch(rows[order[i]], batch[i]).(updatedAt := Some(Stored(now))))
  {
    UpdateEach(rows, batch, now);
    NamesOrder(batch, order);
  }

  lemma {:induction false} ToldByRecord(notes: Notes, rows: Rows, rows': Rows, creds: seq<Credential>, order: seq<Id>,
                                        kind: NoteKind, now: Time)
    requires |creds| == |order| && "" !in order
    requires forall i :: 0 <= i < |order| ==> CredFor(creds[i], order[i], rows')
    ensures Told(notes, RecordNotes(notes, creds, kind, now), rows', order, kind, now)
  {
    RecordAdds(notes, creds, kind, now);
    forall k ensures AddsNote(creds, kind, k) <==> ToldTo(rows', order, kind, k) {
      if AddsNote(creds, kind, k) {
        var i :| 0 <= i < |creds| && creds[i].id != "" && creds[i].holder != "" && NoteFor(creds[i], kind) == k;
        assert CredFor(creds[i], order[i], rows');
      }
      if ToldTo(rows', order, kind, k) {
        var i :| 0 <= i < |order| && order[i] == k.credential;
        assert CredFor(creds[i], order[i], rows') && NoteFor(creds[i], kind) == k;
      }
    }
  }

  predicate CredFor(c: Credential, id: Id, rows: Rows) {
    c.id == id && id != "" && id in rows && rows[id].holder == c.holder && c.holder != ""
  }

  // ----- Units of work that mint -----

  lemma {:induction false} MintDone(w: World, rows: Rows, notes: Notes, signer: Address, creds: seq<Credential>,
                                    fault: Fault)
    requires creds != []
    ensures var s := Settle(w, notes, MintCredentials(w, rows, signer, creds, fault), fault);
      s.outcome == Done ==>
        && R.IssueBatch(w.chain, signer, RecordsFor(creds, w.users, signer, R.NonceOf(w.chain, signer)))
           == Some(s.world.chain)
        && s.world == World(MintedRows(w, rows, signer, creds), notes, s.world.chain, w.jobs + IdsOf(creds), w.users,
                            w.clock)
  {
  }

  ghost predicate RecordsUnder(chain: R.Chain, rows: Rows, order: seq<Id>, records: seq<R.Record>) {
    |records| == |order| && forall i :: 0 <= i < |order| ==> RecordUnder(chain, rows, order[i], records[i])
  }

  /** The record is stored under the row's token. */
  predicate RecordUnder(chain: R.Chain, rows: Rows, id: Id, r: R.Record) {
    id in rows && rows[id].tokenId == Some(r.id) && r.id in chain.records && chain.records[r.id] == r
  }

  lemma {:induction false} BatchRecords(chain: R.Chain, chain': R.Chain, rows': Rows, signer: Address,
                                        order: seq<Id>, records: seq<R.Record>)
    requires R.Sound(chain) && R.Unrevoked(records) && TokensAt(rows', order, records)
    requires R.IssueBatch(chain, signer, records) == Some(chain')
    ensures RecordsGrow(chain, chain', rows', order) && RecordsUnder(chain', rows', order, records)
  {
    R.IssueBatchMints(chain, signer, records);
    forall i | 0 <= i < |order|
      ensures NewToken(chain, chain', rows', order[i]) && RecordUnder(chain', rows', order[i], records[i])
    {
      assert TokenAt(rows', order[i], records[i].id);
      assert R.Added(chain, chain', records[i]);
    }
    forall t | t in chain'.records && t !in chain.records ensures TokenAmong(rows', order, t) {
      assert R.InBatch(t, records);
      var i :| 0 <= i < |records| && t == records[i].id;
      assert TokenAt(rows', order[i], records[i].id);
    }
  }

  lemma {:induction false} RecordTells(c: Credential, users: Users, signer: Address, nonce: Word)
    requires c.holder in users
    ensures Tells(RecordFor(c, users, signer, nonce), c.id, c.fileHash, users[c.holder].address, signer,
                  c.issuedAt, c.expiresAt, c.number)
  {
  }

  // ----- Approve -----

  /** An approved row: activated now, by the actor, with an extraction on its way and a record that tells
      the row's own facts. */
  ghost predicate ApprovedTo(w: World, w': World, id: Id, actor: Id)
    requires id in w.rows && w.rows[id].holder in w.users && actor in w.users
  {
    var c := w.rows[id];
    && id in w'.rows && w'.rows[id].tokenId.Some? && w'.rows[id].tokenId.value in w'.chain.records
    && w'.rows[id] == c.(activatedAt := Some(Stored(w.clock)), issuer := Some(actor),
                         extractEnqueuedAt := Some(Stored(w.clock)), updatedAt := Some(Stored(w.clock)),
                         tokenId := w'.rows[id].tokenId)
    && Tells(w'.chain.records[w'.rows[id].tokenId.value], id, c.fileHash, w.users[c.holder].address,
             w.users[actor].address, c.issuedAt, c.expiresAt, c.number)
  }

  ghost predicate HoldersKnown(w: World) {
    forall id :: id in w.rows ==> w.rows[id].holder in w.users
  }

  lemma {:induction false} HoldersAreKnown(w: World)
    requires Inv(w)
    ensures HoldersKnown(w)
  {
    forall id | id in w.rows ensures w.rows[id].holder in w.users {
      assert RowAllowed(w.rows[id], w.users);
    }
  }

  lemma {:induction false} ApproveDone(w: World, order: seq<Id>, actor: Id, fault: Fault)
    requires Inv(w) && ScanOf(order, w.rows) && actor in w.users && order != []
    requires ApproveWrite(w, order, actor, fault).outcome == Done
    ensures forall id :: id in order ==> id in ApprovedRows(w, order, actor)
    ensures var w' := ApproveWrite(w, order, actor, fault).world;
      var creds, signer := Fetch(ApprovedRows(w, order, actor), order), AddressOf(w.users, actor);
      && R.IssueBatch(w.chain, signer, RecordsFor(creds, w.users, signer, R.NonceOf(w.chain, signer))) == Some(w'.chain)
      && w' == World(MintedRows(w, ApprovedRows(w, order, actor), signer, creds),
                     RecordNotes(w.notes, Fetch(w.rows, order), ApprovedNote, w.clock), w'.chain,
                     w.jobs + IdsOf(creds), w.users, w.clock)
  {
    ApprovalWrite(w.rows, order, w.clock, actor);
    ApproveWriteIs(w, order, actor, fault);
    MintDone(w, ApprovedRows(w, order, actor), RecordNotes(w.notes, Fetch(w.rows, order), ApprovedNote, w.clock),
             AddressOf(w.users, actor), Fetch(ApprovedRows(w, order, actor), order), fault);
  }

  lemma {:induction false} ApprovedOne(w: World, w': World, rows1: Rows, order: seq<Id>, actor: Id, i: nat)
    requires HoldersKnown(w) && actor in w.users && Approving(w.rows, rows1, order, w.clock, actor) && i < |order|
    requires Keyed(w.rows) && order[i] in w'.rows && w'.rows[order[i]].tokenId.Some?
    requires w'.rows[order[i]]
       == rows1[order[i]].(tokenId := w'.rows[order[i]].tokenId, updatedAt := Some(Stored(w.clock)))
    requires var signer := AddressOf(w.users, actor);
      var t := w'.rows[order[i]].tokenId.value;
      t in w'.chain.records
      && w'.chain.records[t] == RecordFor(Fetch(rows1, order)[i], w.users, signer, R.NonceOf(w.chain, signer))
    ensures ApprovedTo(w, w', order[i], actor)
  {
    RecordTells(Fetch(rows1, order)[i], w.users, AddressOf(w.users, actor),
                R.NonceOf(w.chain, AddressOf(w.users, actor)));
  }

  lemma {:induction false} OnlyTargets(rows: Rows, rows1: Rows, rows2: Rows, order: seq<Id>, now: Time, actor: Id,
                                       records: seq<R.Record>)
    requires Approving(rows, rows1, order, now, actor) && Tokened(rows1, rows2, order, records, now)
    ensures OthersStay(rows, rows2, order)
  {
    forall id | id in rows && id !in order ensures rows2[id] == rows[id] {
      assert rows2[id] == rows1[id];
    }
  }

  ghost predicate TokensAt(rows: Rows, order: seq<Id>, records: seq<R.Record>) {
    |records| == |order| && forall i :: 0 <= i < |order| ==> TokenAt(rows, order[i], records[i].id)
  }

  predicate TokenAt(rows: Rows, id: Id, t: TokenId) {
    id in rows && rows[id].tokenId == Some(t)
  }

  lemma {:induction false} TokenedAt(rows1: Rows, rows2: Rows, order: seq<Id>, records: seq<R.Record>, now: Time)
    requires Tokened(rows1, rows2, order, records, now)
    ensures TokensAt(rows2, order, records)
  {
  }

  /** The tables after the three writes of an approval and its mint. */
  ghost predicate ApprovalMined(w: World, w': World, rows1: Rows, order: seq<Id>, actor: Id, records: seq<R.Record>) {
    && HoldersKnown(w) && Keyed(w.rows) && R.Sound(w.chain) && actor in w.users
    && Approving(w.rows, rows1, order, w.clock, actor) && Tokened(rows1, w'.rows, order, records, w.clock)
    && records == RecordsFor(Fetch(rows1, order), w.users, AddressOf(w.users, actor),
                             R.NonceOf(w.chain, AddressOf(w.users, actor)))
    && R.IssueBatch(w.chain, AddressOf(w.users, actor), records) == Some(w'.chain)
  }

  lemma {:induction false} ApprovedRecords(w: World, w': World, rows1: Rows, order: seq<Id>, actor: Id,
                                           records: seq<R.Record>)
    requires ApprovalMined(w, w', rows1, order, actor, records)
    ensures RecordsGrow(w.chain, w'.chain, w'.rows, order) && RecordsUnder(w'.chain, w'.rows, order, records)
  {
    TokenedAt(rows1, w'.rows, order, records, w.clock);
    var signer := AddressOf(w.users, actor);
    RecordsUnrevoked(Fetch(rows1, order), w.users, signer, R.NonceOf(w.chain, signer));
    BatchRecords(w.chain, w'.chain, w'.rows, signer, order, records);
  }

  lemma {:induction false} ApprovedRows1(w: World, w': World, rows1: Rows, order: seq<Id>, actor: Id,
                                         records: seq<R.Record>)
    requires ApprovalMined(w, w', rows1, order, actor, records)
    ensures forall i :: 0 <= i < |order| ==> order[i] in w.rows && ApprovedTo(w, w', order[i], actor)
  {
    ApprovedRecords(w, w', rows1, order, actor, records);
    forall i | 0 <= i < |order| ensures ApprovedTo(w, w', order[i], actor) {
      assert RecordUnder(w'.chain, w'.rows, order[i], records[i]);
      ApprovedOne(w, w', rows1, order, actor, i);
    }
  }

  /** The next world of a committed approval: its targets as above, their holders told, their jobs
      queued, nothing else. */
  ghost predicate Approves(w: World, w': World, order: seq<Id>, actor: Id)
    requires HoldersKnown(w) && (forall id :: id in order ==> id in w.rows) && actor in w.users
  {
    && w'.users == w.users && w'.clock == w.clock && w'.jobs == w.jobs + order
    && OthersStay(w.rows, w'.rows, order) && RecordsGrow(w.chain, w'.chain, w'.rows, order)
    && (forall i :: 0 <= i < |order| ==> ApprovedTo(w, w', order[i], actor))
    && Told(w.notes, w'.notes, w'.rows, order, ApprovedNote, w.clock)
  }

  function RecordsOf(w: World, order: seq<Id>, rows1: Rows, actor: Id): (r: seq<R.Record>)
    requires forall id :: id in order ==> id in rows1
    ensures |r| == |order|
  {
    var signer := AddressOf(w.users, actor);
    RecordsFor(Fetch(rows1, order), w.users, signer, R.NonceOf(w.chain, signer))
  }

  lemma {:induction false} ApprovalIsMined(w: World, order: seq<Id>, actor: Id, fault: Fault)
    requires Inv(w) && ScanOf(order, w.rows) && actor in w.users && order != []
    requires ApproveWrite(w, order, actor, fault).outcome == Done
    ensures var rows1 := ApprovedRows(w, order, actor);
      && (forall id :: id in order ==> id in rows1)
      && ApprovalMined(w, ApproveWrite(w, order, actor, fault).world, rows1, order, actor,
                       RecordsOf(w, order, rows1, actor))
  {
    ApproveDone(w, order, actor, fault);
    ApprovalWrite(w.rows, order, w.clock, actor);
    HoldersAreKnown(w);
    var rows1 := ApprovedRows(w, order, actor);
    TokenWrite(rows1, order, Fetch(rows1, order), RecordsOf(w, order, rows1, actor), w.clock);
  }

  lemma {:induction false} ApprovalTold(w: World, w': World, rows1: Rows, order: seq<Id>, actor: Id,
                                        records: seq<R.Record>)
    requires Inv(w) && ScanOf(order, w.rows) && ApprovalMined(w, w', rows1, order, actor, records)
    requires w'.notes == RecordNotes(w.notes, Fetch(w.rows, order), ApprovedNote, w.clock)
    requires w'.users == w.users && w'.clock == w.clock && w'.jobs == w.jobs + order
    ensures Approves(w, w', order, actor)
  {
    OnlyTargets(w.rows, rows1, w'.rows, order, w.clock, actor, records);
    ApprovedRecords(w, w', rows1, order, actor, records);
    ApprovedRows1(w, w', rows1, order, actor, records);
    forall i | 0 <= i < |order| ensures order[i] in w'.rows && w'.rows[order[i]].holder == w.rows[order[i]].holder {
      assert ApprovedTo(w, w', order[i], actor);
    }
    TargetsTold(w, w'.rows, order, ApprovedNote);
  }

  lemma {:induction false} ApproveWriteCommits(w: World, order: seq<Id>, actor: Id, fault: Fault)
    requires Inv(w) && ScanOf(order, w.rows) && actor in w.users && order != []
    requires ApproveWrite(w, order, actor, fault).outcome == Done
    ensures HoldersKnown(w) && Approves(w, ApproveWrite(w, order, actor, fault).world, order, actor)
  {
    ApproveDone(w, order, actor, fault);
    ApprovalIsMined(w, order, actor, fault);
    var rows1 := ApprovedRows(w, order, actor);
    ApprovalWrite(w.rows, order, w.clock, actor);
    assert IdsOf(Fetch(rows1, order)) == order;
    HoldersAreKnown(w);
    ApprovalTold(w, ApproveWrite(w, order, actor, fault).world, rows1, order, actor, RecordsOf(w, order, rows1, actor));
  }

  lemma {:induction false} ApproveCommits(w: World, a: Action)
    requires Inv(w) && a.DoApprove? && Enabled(w, a) && a.order != [] && Do(w, a).outcome == Done
    ensures HoldersKnown(w) && (forall id :: id in a.order ==> id in w.rows)
    ensures Approves(w, Do(w, a).world, a.order, a.actor)
  {
    ScanIsScan(a.order, a.ids, w.rows);
    ApproveWriteCommits(w, a.order, a.actor, a.fault);
  }

  lemma {:induction false} TargetsTold(w: World, rows': Rows, order: seq<Id>, kind: NoteKind)
    requires Inv(w) && ScanOf(order, w.rows)
    requires forall i :: 0 <= i < |order| ==> order[i] in rows' && rows'[order[i]].holder == w.rows[order[i]].holder
    ensures Told(w.notes, RecordNotes(w.notes, Fetch(w.rows, order), kind, w.clock), rows', order, kind, w.clock)
  {
    HoldersAreKnown(w);
    assert forall i :: 0 <= i < |order| ==> order[i] != "";
    ToldByRecord(w.notes, w.rows, rows', Fetch(w.rows, order), order, kind, w.clock);
  }

  // ----- Issue -----

  function Micros(t: Option<Time>): Option<Time> {
    if t == None then None else Some(Stored(t.value))
  }

  /** An issued row says what its item asked for: activated and enqueued now, submitted and issued by the
      actor, and the record under its token tells the same. */
  ghost predicate IssuedTo(w: World, w': World, it: Item, id: Id, uri: string, actor: Id) {
    && id !in w.rows && id in w'.rows && it.holder in w.users && actor in w.users
    && w'.rows[id].tokenId.Some? && w'.rows[id].tokenId.value in w'.chain.records
    && IssuedAs(w'.rows[id], it, id, uri, actor, w.clock)
    && Tells(w'.chain.records[w'.rows[id].tokenId.value], id, it.fileHash, w.users[it.holder].address,
             w.users[actor].address, if it.issuedAt == None then w.clock else it.issuedAt.value, it.expiresAt,
             it.number)
  }

  predicate IssuedAs(c: Credential, it: Item, id: Id, uri: string, actor: Id, now: Time) {
    && c.id == id && c.holder == it.holder && c.submitter == actor && c.issuer == Some(actor)
    && c.organization == it.organization && c.kind == it.kind && c.number == it.number && c.name == it.name
    && c.meta == it.meta && c.fileHash == it.fileHash && c.fileUri == Some(uri)
    && c.issuedAt == Stored(if it.issuedAt == None then now else it.issuedAt.value)
    && c.expiresAt == Micros(it.expiresAt)
    && c.activatedAt == Some(Stored(now)) && c.extractEnqueuedAt == Some(Stored(now))
    && c.updatedAt == Some(Stored(now))
    && c.rejectedAt == None && c.rejecter == None && c.rejectionReason == None
    && c.revokedAt == None && c.revoker == None && c.revocationReason == None
    && c.extractedAt == None && c.extractFailedAt == None && c.extractError == None
  }

  /** The tables after the writes of an issuance and its mint. */
  ghost predicate IssuanceMined(w: World, w': World, rows1: Rows, creds: seq<Credential>, actor: Id,
                                records: seq<R.Record>) {
    && R.Sound(w.chain) && KeysFree(w.rows, creds) && Stocked(w.rows, rows1, creds) && SchemaHolds(rows1, w.users)
    && Tokened(rows1, w'.rows, IdsOf(creds), records, w.clock)
    && records == RecordsFor(creds, w.users, AddressOf(w.users, actor), R.NonceOf(w.chain, AddressOf(w.users, actor)))
    && R.IssueBatch(w.chain, AddressOf(w.users, actor), records) == Some(w'.chain)
  }

  lemma {:induction false} IssueIsMined(w: World, creds: seq<Credential>, actor: Id, fault: Fault)
    requires Inv(w) && creds != [] && IssueWrite(w, creds, actor, fault).outcome == Done
    ensures var w' := IssueWrite(w, creds, actor, fault).world;
      var records := RecordsFor(creds, w.users, AddressOf(w.users, actor),
                                R.NonceOf(w.chain, AddressOf(w.users, actor)));
      && IssuanceMined(w, w', StoreRows(w.rows, creds), creds, actor, records)
      && w' == World(w'.rows, RecordNotes(w.notes, creds, RegisteredNote, w.clock), w'.chain, w.jobs + IdsOf(creds),
                     w.users, w.clock)
  {
    var signer := AddressOf(w.users, actor);
    var rows1 := StoreRows(w.rows, creds);
    IssueWriteIs(w, creds, actor, fault);
    MintDone(w, rows1, RecordNotes(w.notes, creds, RegisteredNote, w.clock), signer, creds, fault);
    StoreAdds(w.rows, creds);
    CredIds(creds, w.rows, rows1);
    TokenWrite(rows1, IdsOf(creds), creds, RecordsFor(creds, w.users, signer, R.NonceOf(w.chain, signer)), w.clock);
  }

  lemma {:induction false} IssuedRecords(w: World, w': World, rows1: Rows, creds: seq<Credential>, actor: Id,
                                         records: seq<R.Record>)
    requires IssuanceMined(w, w', rows1, creds, actor, records)
    ensures RecordsGrow(w.chain, w'.chain, w'.rows, IdsOf(creds))
    ensures RecordsUnder(w'.chain, w'.rows, IdsOf(creds), records)
  {
    TokenedAt(rows1, w'.rows, IdsOf(creds), records, w.clock);
    RecordsUnrevoked(creds, w.users, AddressOf(w.users, actor), R.NonceOf(w.chain, AddressOf(w.users, actor)));
    BatchRecords(w.chain, w'.chain, w'.rows, AddressOf(w.users, actor), IdsOf(creds), records);
  }

  lemma {:induction false} IssuedOthers(rows: Rows, rows1: Rows, rows2: Rows, creds: seq<Credential>, now: Time,
                                        records: seq<R.Record>)
    requires KeysFree(rows, creds) && Stocked(rows, rows1, creds) && Tokened(rows1, rows2, IdsOf(creds), records, now)
    ensures OthersStay(rows, rows2, IdsOf(creds))
  {
    NamesOrder(creds, IdsOf(creds));
    forall id | id in rows ensures id !in IdsOf(creds) && rows2[id] == rows[id] {
      assert id !in IdsOf(creds) ==> rows2[id] == rows1[id];
    }
  }

  lemma {:induction false} IssuedOne(w: World, w': World, rows1: Rows, it: Item, id: Id, uri: string, actor: Id,
                                     records: seq<R.Record>, creds: seq<Credential>, i: nat)
    requires IssuanceMined(w, w', rows1, creds, actor, records) && i < |creds|
    requires creds[i] == Issuing(it, id, uri, actor, w.clock)
    ensures IssuedTo(w, w', it, id, uri, actor)
  {
    IssuedRecords(w, w', rows1, creds, actor, records);
    assert IdsOf(creds)[i] == id;
    assert RecordUnder(w'.chain, w'.rows, IdsOf(creds)[i], records[i]);
    assert rows1[creds[i].id] == Persisted(creds[i]) && RowAllowed(rows1[creds[i].id], w.users);
    RecordTells(creds[i], w.users, AddressOf(w.users, actor), R.NonceOf(w.chain, AddressOf(w.users, actor)));
  }

  /** The next world of a committed issuance: a row and a record for every item, the holders told, the
      jobs queued, nothing else. */
  ghost predicate Issues(w: World, w': World, items: seq<Item>, newIds: seq<Id>, uris: seq<string>, actor: Id)
    requires |newIds| == |items| && |uris| == |items|
  {
    && w'.users == w.users && w'.clock == w.clock && w'.jobs == w.jobs + newIds
    && OthersStay(w.rows, w'.rows, newIds) && RecordsGrow(w.chain, w'.chain, w'.rows, newIds)
    && (forall k :: 0 <= k < |items| ==> IssuedTo(w, w', items[k], newIds[k], uris[k], actor))
    && Told(w.notes, w'.notes, w'.rows, newIds, RegisteredNote, w.clock)
  }

  lemma {:induction false} IssueTold(w: World, w': World, items: seq<Item>, newIds: seq<Id>, uris: seq<string>,
                                     actor: Id, creds: seq<Credential>)
    requires |newIds| == |items| && |uris| == |items| && "" !in w.users && KeysFree(w.rows, creds)
    requires creds == Prepare(items, newIds, uris, actor, w.clock, true)
    requires forall k :: 0 <= k < |items| ==> IssuedTo(w, w', items[k], newIds[k], uris[k], actor)
    ensures Told(w.notes, RecordNotes(w.notes, creds, RegisteredNote, w.clock), w'.rows, newIds, RegisteredNote,
                 w.clock)
  {
    forall i | 0 <= i < |newIds| ensures CredFor(creds[i], newIds[i], w'.rows) && newIds[i] != "" {
      assert IssuedTo(w, w', items[i], newIds[i], uris[i], actor);
      assert creds[i].id == newIds[i];
    }
    ToldByRecord(w.notes, w.rows, w'.rows, creds, newIds, RegisteredNote, w.clock);
  }

  lemma {:induction false} IssuedAll(w: World, w': World, items: seq<Item>, newIds: seq<Id>, uris: seq<string>,
                                     actor: Id, creds: seq<Credential>, rows1: Rows, records: seq<R.Record>)
    requires |newIds| == |items| && |uris| == |items| && creds == Prepare(items, newIds, uris, actor, w.clock, true)
    requires IssuanceMined(w, w', rows1, creds, actor, records)
    ensures IdsOf(creds) == newIds
    ensures OthersStay(w.rows, w'.rows, newIds) && RecordsGrow(w.chain, w'.chain, w'.rows, newIds)
    ensures forall k :: 0 <= k < |items| ==> IssuedTo(w, w', items[k], newIds[k], uris[k], actor)
  {
    assert IdsOf(creds) == newIds;
    IssuedRecords(w, w', rows1, creds, actor, records);
    IssuedOthers(w.rows, rows1, w'.rows, creds, w.clock, records);
    forall k | 0 <= k < |items| ensures IssuedTo(w, w', items[k], newIds[k], uris[k], actor) {
      IssuedOne(w, w', rows1, items[k], newIds[k], uris[k], actor, records, creds, k);
    }
  }

  lemma {:induction false} IssueWriteCommits(w: World, items: seq<Item>, newIds: seq<Id>, uris: seq<string>, actor: Id,
                                             fault: Fault)
    requires Inv(w) && |newIds| == |items| && |uris| == |items| && items != []
    requires IssueWrite(w, Prepare(items, newIds, uris, actor, w.clock, true), actor, fault).outcome == Done
    ensures Issues(w, IssueWrite(w, Prepare(items, newIds, uris, actor, w.clock, true), actor, fault).world,
                   items, newIds, uris, actor)
  {
    var creds := Prepare(items, newIds, uris, actor, w.clock, true);
    var w' := IssueWrite(w, creds, actor, fault).world;
    IssueIsMined(w, creds, actor, fault);
    var records := RecordsFor(creds, w.users, AddressOf(w.users, actor), R.NonceOf(w.chain, AddressOf(w.users, actor)));
    IssuedAll(w, w', items, newIds, uris, actor, creds, StoreRows(w.rows, creds), records);
    IssueTold(w, w', items, newIds, uris, actor, creds);
  }

  lemma {:induction false} IssueCommits(w: World, a: Action)
    requires Inv(w) && Sized(a) && a.items != [] && Do(w, a).outcome == Done
    ensures Issues(w, Do(w, a).world, a.items, a.newIds, a.uris, a.actor)
  {
    IssueWriteCommits(w, a.items, a.newIds, a.uris, a.actor, a.fault);
  }

  // ----- Submit -----

  /** A submitted row says what its item asked for, is held by the one who submitted it and waits for review. */
  predicate SubmittedAs(c: Credential, it: Item, id: Id, uri: string, actor: Id, now: Time) {
    && c.id == id && c.holder == actor && c.submitter == actor && c.issuer == None
    && c.organization == it.organization && c.kind == it.kind && c.number == it.number && c.name == it.name
    && c.meta == it.meta && c.fileHash == it.fileHash && c.fileUri == Some(uri)
    && c.issuedAt == Stored(if it.issuedAt == None then now else it.issuedAt.value)
    && c.expiresAt == Micros(it.expiresAt)
    && c.tokenId == None && c.activatedAt == None && c.extractEnqueuedAt == None && c.updatedAt == None
    && c.rejectedAt == None && c.rejecter == None && c.rejectionReason == None
    && c.revokedAt == None && c.revoker == None && c.revocationReason == None
    && c.extractedAt == None && c.extractFailedAt == None && c.extractError == None
  }

  /** The next world of a committed submission: a row for every item, nothing else. */
  ghost predicate Submits(w: World, w': World, items: seq<Item>, newIds: seq<Id>, uris: seq<string>, actor: Id)
    requires |newIds| == |items| && |uris| == |items|
  {
    && w' == w.(rows := w'.rows) && OthersStay(w.rows, w'.rows, newIds)
    && (forall k :: 0 <= k < |items| ==> newIds[k] !in w.rows && newIds[k] in w'.rows)
    && (forall k :: 0 <= k < |items| ==>
          SubmittedAs(w'.rows[newIds[k]], items[k], newIds[k], uris[k], actor, w.clock))
  }

  lemma {:induction false} StoredOthers(rows: Rows, rows1: Rows, creds: seq<Credential>)
    requires KeysFree(rows, creds) && Stocked(rows, rows1, creds)
    ensures OthersStay(rows, rows1, IdsOf(creds))
  {
    NamesOrder(creds, IdsOf(creds));
  }

  lemma {:induction false} SubmittedOne(it: Item, id: Id, uri: string, actor: Id, now: Time)
    ensures SubmittedAs(Persisted(Submitting(it, id, uri, actor, now)), it, id, uri, actor, now)
  {
  }

  lemma {:induction false} SubmitWriteCommits(w: World, items: seq<Item>, newIds: seq<Id>, uris: seq<string>, actor: Id,
                                              fault: Fault)
    requires Inv(w) && |newIds| == |items| && |uris| == |items|
    requires SubmitWrite(w, Prepare(items, newIds, uris, actor, w.clock, false), fault).outcome == Done
    ensures Submits(w, SubmitWrite(w, Prepare(items, newIds, uris, actor, w.clock, false), fault).world,
                    items, newIds, uris, actor)
  {
    var creds := Prepare(items, newIds, uris, actor, w.clock, false);
    var rows1 := StoreRows(w.rows, creds);
    StoreAdds(w.rows, creds);
    StoredOthers(w.rows, rows1, creds);
    assert IdsOf(creds) == newIds;
    forall k | 0 <= k < |items|
      ensures newIds[k] !in w.rows && newIds[k] in rows1
      ensures SubmittedAs(rows1[newIds[k]], items[k], newIds[k], uris[k], actor, w.clock)
    {
      assert creds[k].id == newIds[k];
      SubmittedOne(items[k], newIds[k], uris[k], actor, w.clock);
    }
  }

  lemma {:induction false} SubmitCommits(w: World, a: Action)
    requires Inv(w) && a.DoSubmit? && Enabled(w, a) && Do(w, a).outcome == Done
    ensures Submits(w, Do(w, a).world, a.items, a.newIds, a.uris, a.actor)
  {
    SubmitWriteCommits(w, a.items, a.newIds, a.uris, a.actor, a.fault);
  }
}
