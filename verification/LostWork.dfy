/** Units of work that were mined and lost: exactly when that happens to an approval, an issuance or a
    revocation, that a failure short of it changes nothing at all, and that what was lost can never be
    made good. */
module LostWork {
  import opened Base
  import opened Credentials
  import opened Payload
  import opened Lifecycle
  import opened LifecycleInvariant
  import opened LifecycleRuns
  import R = Registry

  // ----- Where an operation may fail -----

  /** Before anything is sent, or instead of it. */
  predicate StrikesBefore(fault: Fault) {
    fault == StoreFails || fault == NotesFail || fault == CallFails
  }

  /** After the mint of a batch of `n` was mined. */
  predicate StrikesAfterMint(fault: Fault, n: nat) {
    || fault == MinedUnseen || fault == TokenWriteFails || fault == LinksFail || fault == CommitFails
    || (fault.EnqueueFails? && fault.at < n)
  }

  predicate StrikesAfterRevocation(fault: Fault) {
    fault == MinedUnseen || fault == CommitFails
  }

  // ----- Writes that keep the schema -----

  /** A change that no constraint can object to. */
  predicate Harmless(c: Credential, c': Credential, users: Users) {
    && c'.fileHash == c.fileHash && c'.tokenId == c.tokenId && c'.number == c.number
    && c'.organization == c.organization
    && (Active(c') ==> Active(c)) && RowAllowed(c', users)
  }

  lemma {:induction false} HarmlessSchema(rows: Rows, rows': Rows, users: Users)
    requires SchemaHolds(rows, users) && rows'.Keys == rows.Keys
    requires forall id :: id in rows ==> Harmless(rows[id], rows'[id], users)
    ensures SchemaHolds(rows', users)
  {
    forall a, b | a in rows' && b in rows' && a != b
      ensures Active(rows'[a]) && Active(rows'[b]) ==> rows'[a].fileHash != rows'[b].fileHash
      ensures rows'[a].tokenId.Some? ==> rows'[a].tokenId != rows'[b].tokenId
      ensures rows'[a].number.Some? && rows'[a].organization == rows'[b].organization ==>
        rows'[a].number != rows'[b].number
    {
      assert Harmless(rows[a], rows'[a], users) && Harmless(rows[b], rows'[b], users);
    }
  }

  lemma {:induction false} ApprovingSchema(w: World, rows1: Rows, order: seq<Id>, actor: Id)
    requires Inv(w) && actor in w.users && Approving(w.rows, rows1, order, w.clock, actor)
    requires forall i :: 0 <= i < |order| ==> IsPending(w.rows[order[i]])
    ensures SchemaHolds(rows1, w.users)
  {
    forall id | id in w.rows ensures Harmless(w.rows[id], rows1[id], w.users) {
      assert RowAllowed(w.rows[id], w.users);
      if id in order {
        var i :| 0 <= i < |order| && order[i] == id;
        assert IsPending(w.rows[order[i]]);
      }
    }
    HarmlessSchema(w.rows, rows1, w.users);
  }

  lemma {:induction false} RevokingSchema(w: World, rows': Rows, order: seq<Id>)
    requires Inv(w) && ChangedBy(w.rows, rows', order, RevokedRow)
    ensures SchemaHolds(rows', w.users)
  {
    forall id | id in w.rows ensures Harmless(w.rows[id], rows'[id], w.users) {
      assert RowAllowed(w.rows[id], w.users);
      if id in order {
        ChangedAt(w.rows, rows', order, RevokedRow, id);
      }
    }
    HarmlessSchema(w.rows, rows', w.users);
  }

  predicate KnownToken(c: Credential, chain: R.Chain) {
    c.tokenId.Some? ==> c.tokenId.value in chain.records
  }

  /** Tokens of earlier rows name earlier records. */
  ghost predicate TokensKnown(rows: Rows, chain: R.Chain) {
    forall id :: id in rows ==> KnownToken(rows[id], chain)
  }

  ghost predicate IdsDiffer(records: seq<R.Record>) {
    forall i, j :: 0 <= i < j < |records| ==> records[i].id != records[j].id
  }

  lemma {:induction false} WrittenToken(rows1: Rows, rows2: Rows, order: seq<Id>, records: seq<R.Record>, now: Time,
                                        chain: R.Chain, chain': R.Chain, id: Id) returns (i: nat)
    requires Tokened(rows1, rows2, order, records, now) && R.Minted(chain, chain', records) && id in order
    ensures i < |order| == |records| && order[i] == id && id in rows2
    ensures rows2[id].tokenId == Some(records[i].id) && records[i].id !in chain.records
  {
    i :| 0 <= i < |order| && order[i] == id;
    assert R.Added(chain, chain', records[i]);
  }

  lemma {:induction false} BothWritten(rows1: Rows, rows2: Rows, order: seq<Id>, records: seq<R.Record>, now: Time,
                                       chain: R.Chain, chain': R.Chain, a: Id, b: Id)
    requires Tokened(rows1, rows2, order, records, now) && R.Minted(chain, chain', records) && IdsDiffer(records)
    requires a in order && b in order && a != b
    ensures rows2[a].tokenId != rows2[b].tokenId
  {
    var i := WrittenToken(rows1, rows2, order, records, now, chain, chain', a);
    var j := WrittenToken(rows1, rows2, order, records, now, chain, chain', b);
    assert i < j || j < i;
  }

  lemma {:induction false} OneWritten(rows1: Rows, rows2: Rows, order: seq<Id>, records: seq<R.Record>, now: Time,
                                      chain: R.Chain, chain': R.Chain, a: Id, b: Id)
    requires Tokened(rows1, rows2, order, records, now) && R.Minted(chain, chain', records)
    requires a in order && b !in order && b in rows2 && KnownToken(rows1[b], chain)
    ensures rows2[a].tokenId != rows2[b].tokenId
  {
    var i := WrittenToken(rows1, rows2, order, records, now, chain, chain', a);
    assert rows2[b] == rows1[b];
  }

  lemma {:induction false} TokensStayUnique(rows1: Rows, rows2: Rows, order: seq<Id>, records: seq<R.Record>, now: Time,
                                            chain: R.Chain, chain': R.Chain, a: Id, b: Id)
    requires Tokened(rows1, rows2, order, records, now) && R.Minted(chain, chain', records) && IdsDiffer(records)
    requires a in rows2 && b in rows2 && a != b && rows2[a].tokenId.Some?
    requires rows1[a].tokenId.Some? ==> rows1[a].tokenId != rows1[b].tokenId
    requires KnownToken(rows1[a], chain) && KnownToken(rows1[b], chain)
    ensures rows2[a].tokenId != rows2[b].tokenId
  {
    if a in order && b in order {
      BothWritten(rows1, rows2, order, records, now, chain, chain', a, b);
    } else if a in order {
      OneWritten(rows1, rows2, order, records, now, chain, chain', a, b);
    } else if b in order {
      OneWritten(rows1, rows2, order, records, now, chain, chain', b, a);
    }
  }

  /** Writing the tokens of a mined batch never meets a constraint. */
  lemma {:induction false} TokenedSchema(rows1: Rows, rows2: Rows, order: seq<Id>, records: seq<R.Record>, now: Time,
                                         users: Users,
                                         chain: R.Chain, chain': R.Chain)
    requires Tokened(rows1, rows2, order, records, now) && R.Minted(chain, chain', records) && IdsDiffer(records)
    requires SchemaHolds(rows1, users) && TokensKnown(rows1, chain)
    ensures SchemaHolds(rows2, users)
  {
    forall id | id in rows2 ensures SameButToken(rows1[id], rows2[id]) {
      if id in order {
        var i :| 0 <= i < |order| && order[i] == id;
      }
    }
    forall a, b | a in rows2 && b in rows2 && a != b
      ensures Active(rows2[a]) && Active(rows2[b]) ==> rows2[a].fileHash != rows2[b].fileHash
      ensures rows2[a].number.Some? && rows2[a].organization == rows2[b].organization ==>
        rows2[a].number != rows2[b].number
      ensures rows2[a].tokenId.Some? ==> rows2[a].tokenId != rows2[b].tokenId
    {
      assert SameButToken(rows1[a], rows2[a]) && SameButToken(rows1[b], rows2[b]);
      if rows2[a].tokenId.Some? {
        assert KnownToken(rows1[a], chain) && KnownToken(rows1[b], chain);
        TokensStayUnique(rows1, rows2, order, records, now, chain, chain', a, b);
      }
    }
    forall id | id in rows2 ensures RowAllowed(rows2[id], users) {
      assert SameButToken(rows1[id], rows2[id]) && RowAllowed(rows1[id], users);
    }
  }

  predicate SameButToken(c: Credential, c': Credential) {
    c' == c.(tokenId := c'.tokenId, updatedAt := c'.updatedAt)
  }

  // ----- A unit of work that mints -----

  /** The contract takes the batch. */
  predicate MintAccepted(w: World, signer: Address, creds: seq<Credential>) {
    R.IssueBatch(w.chain, signer, RecordsFor(creds, w.users, signer, R.NonceOf(w.chain, signer))).Some?
  }

  /** The rows with the tokens of the mint. */
  function MintedRows(w: World, rows: Rows, signer: Address, creds: seq<Credential>): Rows {
    UpdateRows(rows, TokenUpdates(creds, RecordsFor(creds, w.users, signer, R.NonceOf(w.chain, signer))), w.clock)
  }

  lemma {:induction false} MintMoves(chain: R.Chain, signer: Address, batch: seq<R.Record>)
    requires R.IssueBatch(chain, signer, batch).Some?
    ensures R.IssueBatch(chain, signer, batch).value != chain
  {
    var chain' := R.IssueBatch(chain, signer, batch).value;
    assert R.NonceOf(chain', signer) == R.NonceOf(chain, signer) + 1;
  }

  /** The world is `w` but for a chain that moved and jobs that were queued. */
  predicate ChainAhead(w: World, w': World) {
    w' == w.(chain := w'.chain, jobs := w'.jobs) && w'.chain != w.chain
  }

  /** A step that commits if and only if the contract took the batch and nothing failed after that; it
      leaves the chain ahead if and only if something did, and otherwise a failure changes nothing. */
  ghost predicate Settles(w: World, s: Step, sent: bool, strikes: bool) {
    && (s.outcome == Done <==> sent && !strikes)
    && (sent && strikes ==> ChainAhead(w, s.world))
    && (!sent ==> s.world == w)
  }

  lemma {:induction false} AfterMintExactly(w: World, rows: Rows, chain: R.Chain, creds: seq<Credential>,
                                            records: seq<R.Record>, fault: Fault)
    requires |creds| == |records| && SchemaHolds(UpdateRows(rows, TokenUpdates(creds, records), w.clock), w.users)
    ensures var m := AfterMint(w, rows, chain, creds, records, fault);
      && m.chain == chain
      && (m.rows.Some? && fault != LinksFail && fault != CommitFails <==> !StrikesAfterMint(fault, |creds|))
      && (m.rows.Some? ==> m.rows.value == UpdateRows(rows, TokenUpdates(creds, records), w.clock))
  {
  }

  lemma {:induction false} MintExactly(w: World, rows: Rows, notes: Notes, signer: Address, creds: seq<Credential>,
                                       fault: Fault)
    requires creds != []
    requires MintAccepted(w, signer, creds) ==> SchemaHolds(MintedRows(w, rows, signer, creds), w.users)
    ensures var s := Settle(w, notes, MintCredentials(w, rows, signer, creds, fault), fault);
      && Settles(w, s, MintAccepted(w, signer, creds) && fault != CallFails, StrikesAfterMint(fault, |creds|))
      && (s.outcome == Done ==> s.world.rows == MintedRows(w, rows, signer, creds))
  {
    var records := RecordsFor(creds, w.users, signer, R.NonceOf(w.chain, signer));
    if MintAccepted(w, signer, creds) {
      MintMoves(w.chain, signer, records);
      AfterMintExactly(w, rows, R.IssueBatch(w.chain, signer, records).value, creds, records, fault);
    }
  }

  lemma {:induction false} MintedSchema(w: World, rows1: Rows, order: seq<Id>, signer: Address, creds: seq<Credential>)
    requires R.Sound(w.chain) && Keyed(rows1) && ScanOf(order, rows1) && |creds| == |order|
    requires SchemaHolds(rows1, w.users)
    requires TokensKnown(rows1, w.chain) && forall i :: 0 <= i < |order| ==> creds[i].id == order[i]
    requires MintAccepted(w, signer, creds)
    ensures SchemaHolds(MintedRows(w, rows1, signer, creds), w.users)
  {
    var nonce := R.NonceOf(w.chain, signer);
    var records := RecordsFor(creds, w.users, signer, nonce);
    RecordsUnrevoked(creds, w.users, signer, nonce);
    R.IssueBatchMints(w.chain, signer, records);
    forall i, j | 0 <= i < j < |records| ensures records[i].id != records[j].id {
      R.IssuedIdsDiffer(w.chain, records, i, j);
    }
    TokenWrite(rows1, order, creds, records, w.clock);
    TokenedSchema(rows1, UpdateRows(rows1, TokenUpdates(creds, records), w.clock), order, records, w.clock, w.users,
                  w.chain, R.IssueBatch(w.chain, signer, records).value);
  }

  lemma {:induction false} InvTokensKnown(w: World)
    requires Inv(w)
    ensures TokensKnown(w.rows, w.chain)
  {
    forall id | id in w.rows && w.rows[id].tokenId.Some? ensures w.rows[id].tokenId.value in w.chain.records {
      TokenKnown(w, id);
    }
  }

  // ----- Approve -----

  /** The rows as the approval writes them, before the mint. */
  function ApprovedRows(w: World, order: seq<Id>, actor: Id): Rows
    requires forall id :: id in order ==> id in w.rows
  {
    UpdateRows(w.rows, ApprovalUpdates(Fetch(w.rows, order), w.clock, actor), w.clock)
  }

  /** Every target exists and may be approved, and the contract takes their batch. */
  ghost predicate Approvable(w: World, ids: seq<Id>, order: seq<Id>, actor: Id, usable: set<Id>)
    requires IsScan(order, ids, w.rows)
  {
    && order != [] && !SomeMissing(ids, w.rows) && ApproveRefusal(Fetch(w.rows, order), w.clock, usable) == None
    && (forall id :: id in order ==> id in ApprovedRows(w, order, actor))
    && MintAccepted(w, AddressOf(w.users, actor), Fetch(ApprovedRows(w, order, actor), order))
  }

  ghost predicate AllActivated(rows: Rows, order: seq<Id>) {
    forall i :: 0 <= i < |order| ==> order[i] in rows && rows[order[i]].activatedAt.Some?
  }

  lemma {:induction false} ApprovalPrepared(w: World, order: seq<Id>, actor: Id)
    requires Inv(w) && ScanOf(order, w.rows) && actor in w.users
    requires forall i :: 0 <= i < |order| ==> IsPending(w.rows[order[i]])
    ensures SchemaHolds(ApprovedRows(w, order, actor), w.users)
    ensures forall id :: id in order ==> id in ApprovedRows(w, order, actor)
    ensures var signer, creds := AddressOf(w.users, actor), Fetch(ApprovedRows(w, order, actor), order);
      MintAccepted(w, signer, creds) ==>
        var rows2 := MintedRows(w, ApprovedRows(w, order, actor), signer, creds);
        SchemaHolds(rows2, w.users) && AllActivated(rows2, order)
  {
    var rows1 := ApprovedRows(w, order, actor);
    var signer := AddressOf(w.users, actor);
    ApprovalWrite(w.rows, order, w.clock, actor);
    ApprovingSchema(w, rows1, order, actor);
    ApprovingTokens(w, rows1, order, actor);
    var creds := Fetch(rows1, order);
    if MintAccepted(w, signer, creds) {
      MintedSchema(w, rows1, order, signer, creds);
      TokenWrite(rows1, order, creds, RecordsFor(creds, w.users, signer, R.NonceOf(w.chain, signer)), w.clock);
    }
  }

  lemma {:induction false} ApproveWriteIs(w: World, order: seq<Id>, actor: Id, fault: Fault)
    requires forall id :: id in order ==> id in w.rows
    requires forall id :: id in order ==> id in ApprovedRows(w, order, actor)
    requires SchemaHolds(ApprovedRows(w, order, actor), w.users)
    ensures ApproveWrite(w, order, actor, fault) ==
      if fault == StoreFails || fault == NotesFail then Step(w, Failed(Internal))
      else Settle(w, RecordNotes(w.notes, Fetch(w.rows, order), ApprovedNote, w.clock),
                  MintCredentials(w, ApprovedRows(w, order, actor), AddressOf(w.users, actor),
                                  Fetch(ApprovedRows(w, order, actor), order), fault), fault)
  {
  }

  lemma {:induction false} ApprovalMintExactly(w: World, order: seq<Id>, actor: Id, fault: Fault)
    requires Inv(w) && ScanOf(order, w.rows) && actor in w.users && order != []
    requires forall i :: 0 <= i < |order| ==> IsPending(w.rows[order[i]])
    ensures forall id :: id in order ==> id in ApprovedRows(w, order, actor)
    ensures var s := ApproveWrite(w, order, actor, fault);
      var sent := MintAccepted(w, AddressOf(w.users, actor), Fetch(ApprovedRows(w, order, actor), order));
      && Settles(w, s, sent && !StrikesBefore(fault), StrikesAfterMint(fault, |order|))
      && (s.outcome == Done ==> AllActivated(s.world.rows, order))
  {
    var rows1 := ApprovedRows(w, order, actor);
    ApprovalPrepared(w, order, actor);
    ApproveWriteIs(w, order, actor, fault);
    MintExactly(w, rows1, RecordNotes(w.notes, Fetch(w.rows, order), ApprovedNote, w.clock), AddressOf(w.users, actor),
                Fetch(rows1, order), fault);
  }

  lemma {:induction false} ApprovingTokens(w: World, rows1: Rows, order: seq<Id>, actor: Id)
    requires Inv(w) && Approving(w.rows, rows1, order, w.clock, actor)
    ensures TokensKnown(rows1, w.chain)
    ensures forall i :: 0 <= i < |order| ==> Fetch(rows1, order)[i].id == order[i]
  {
    InvTokensKnown(w);
    forall id | id in rows1 ensures rows1[id].tokenId == w.rows[id].tokenId {
      if id in order {
        var i :| 0 <= i < |order| && order[i] == id;
      }
    }
  }

  /** An approval is lost when everything is in order and something fails after it was mined. */
  ghost predicate ApprovalIsLost(w: World, a: Action)
    requires a.DoApprove? && Enabled(w, a)
  {
    Approvable(w, a.ids, a.order, a.actor, a.usable) && !StrikesBefore(a.fault) && StrikesAfterMint(a.fault, |a.order|)
  }

  /** Exactly when an approval commits, when it is lost, and that any other failure changes nothing. */
  lemma {:induction false} ApproveExactly(w: World, a: Action)
    requires Inv(w) && a.DoApprove? && Enabled(w, a)
    ensures var s := Do(w, a);
      && (a.order != [] ==> Settles(w, s, Approvable(w, a.ids, a.order, a.actor, a.usable) && !StrikesBefore(a.fault),
                                    StrikesAfterMint(a.fault, |a.order|)))
      && (s.outcome == Done ==> AllActivated(s.world.rows, a.order))
      && (s.outcome.Failed? ==> (s.world == w <==> !ApprovalIsLost(w, a)))
  {
    ScanIsScan(a.order, a.ids, w.rows);
    if !SomeMissing(a.ids, w.rows) && ApproveRefusal(Fetch(w.rows, a.order), w.clock, a.usable) == None &&
       a.order != [] {
      AcceptedArePending(Fetch(w.rows, a.order), w.clock, a.usable);
      FetchPending(w.rows, a.order);
      ApprovalMintExactly(w, a.order, a.actor, a.fault);
    }
  }

  /** An approval that is mined and then rolled back can never be repeated: whatever happens later,
      its targets are never activated. */
  lemma {:induction false} LostApprovalIsFinal(w: World, a: Action, actions: seq<Action>, k: nat)
    requires Inv(w) && a.DoApprove? && Enabled(w, a) && k < |a.order| && ApprovalIsLost(w, a)
    ensures a.order[k] in Run(Do(w, a).world, actions).rows
    ensures Run(Do(w, a).world, actions).rows[a.order[k]].activatedAt == None
  {
    var w' := Do(w, a).world;
    ApproveExactly(w, a);
    DoKeeps(w, a);
    LostApprovalTarget(w, a.ids, a.order, a.actor, a.usable, a.fault, k);
    OrphanHashBlocked(w', actions, w.rows[a.order[k]].fileHash);
    RunSteps(w', actions);
    assert RowStep(w'.rows[a.order[k]], Run(w', actions).rows[a.order[k]], w'.clock);
  }

  ghost predicate ActivatedIn(w: World, actions: seq<Action>, id: Id) {
    id in Run(w, actions).rows && Run(w, actions).rows[id].activatedAt.Some?
  }

  lemma {:induction false} RunOne(w: World, a: Action)
    requires Enabled(w, a)
    ensures Run(w, [a]) == Do(w, a).world
  {
    assert [a][..0] == [];
    assert Run(w, []) == w;
  }

  /** The same request once more, with nothing failing. */
  lemma {:induction false} ApprovalUnfailing(w: World, again: Action)
    requires Inv(w) && again.DoApprove? && Enabled(w, again) && again.fault == NoFault
    requires Approvable(w, again.ids, again.order, again.actor, again.usable)
    ensures AllActivated(Run(w, [again]).rows, again.order)
  {
    ApproveExactly(w, again);
    RunOne(w, again);
  }

  lemma {:induction false} ApprovalAgain(w: World, a: Action, k: nat)
    requires Inv(w) && a.DoApprove? && Enabled(w, a) && k < |a.order|
    requires Approvable(w, a.ids, a.order, a.actor, a.usable)
    ensures exists actions :: ActivatedIn(w, actions, a.order[k])
  {
    var again := DoApprove(a.ids, a.order, a.actor, a.usable, NoFault);
    ApprovalUnfailing(w, again);
    assert ActivatedIn(w, [again], a.order[k]);
  }

  lemma {:induction false} LostApprovalNever(w: World, a: Action, k: nat)
    requires Inv(w) && a.DoApprove? && Enabled(w, a) && k < |a.order| && ApprovalIsLost(w, a)
    ensures !exists actions :: ActivatedIn(Do(w, a).world, actions, a.order[k])
  {
    forall actions ensures !ActivatedIn(Do(w, a).world, actions, a.order[k]) {
      LostApprovalIsFinal(w, a, actions, k);
    }
  }

  /** When everything is in order, the targets of an approval can be activated by some later run if and
      only if nothing failed after the mint: the same request again will do, or was enough. */
  lemma {:induction false} ApprovalCanSucceedExactly(w: World, a: Action, k: nat)
    requires Inv(w) && a.DoApprove? && Enabled(w, a) && k < |a.order|
    requires Approvable(w, a.ids, a.order, a.actor, a.usable)
    ensures (exists actions :: ActivatedIn(Do(w, a).world, actions, a.order[k])) <==> !ApprovalIsLost(w, a)
  {
    ApproveExactly(w, a);
    if ApprovalIsLost(w, a) {
      LostApprovalNever(w, a, k);
    } else if Do(w, a).outcome == Done {
      assert ActivatedIn(Do(w, a).world, [], a.order[k]);
    } else {
      ApprovalAgain(w, a, k);
    }
  }

  // ----- Issue -----

  /** Validation passes, the ids are new, the schema and the contract take the batch. */
  predicate Issuable(w: World, items: seq<Item>, newIds: seq<Id>, uris: seq<string>, actor: Id, catalog: Catalog)
    requires |newIds| == |items| && |uris| == |items|
  {
    var creds := Prepare(items, newIds, uris, actor, w.clock, true);
    && items != [] && IssueAccepted(w, items, catalog) && KeysFree(w.rows, creds)
    && SchemaHolds(StoreRows(w.rows, creds), w.users) && MintAccepted(w, AddressOf(w.users, actor), creds)
  }

  predicate Sized(a: Action) {
    a.DoIssue? && |a.newIds| == |a.items| && |a.uris| == |a.items|
  }

  function IssuedCreds(w: World, a: Action): (r: seq<Credential>)
    requires Sized(a)
    ensures |r| == |a.items|
  {
    Prepare(a.items, a.newIds, a.uris, a.actor, w.clock, true)
  }

  predicate MayIssue(w: World, a: Action)
    requires Sized(a)
  {
    Issuable(w, a.items, a.newIds, a.uris, a.actor, a.catalog)
  }

  lemma {:induction false} StockedTokens(w: World, creds: seq<Credential>)
    requires Inv(w) && KeysFree(w.rows, creds) && forall i :: 0 <= i < |creds| ==> Prepared(creds[i], RegisteredNote)
    ensures var rows1 := StoreRows(w.rows, creds);
      Stocked(w.rows, rows1, creds) && TokensKnown(rows1, w.chain)
  {
    StoreAdds(w.rows, creds);
    InvTokensKnown(w);
    var rows1 := StoreRows(w.rows, creds);
    forall id | id in rows1 && id !in w.rows ensures rows1[id].tokenId == None {
      var i :| 0 <= i < |creds| && creds[i].id == id;
      assert Prepared(creds[i], RegisteredNote);
    }
  }

  lemma {:induction false} IssuePrepared(w: World, creds: seq<Credential>, signer: Address)
    requires Inv(w) && KeysFree(w.rows, creds) && forall i :: 0 <= i < |creds| ==> Prepared(creds[i], RegisteredNote)
    requires SchemaHolds(StoreRows(w.rows, creds), w.users) && MintAccepted(w, signer, creds)
    ensures var rows2 := MintedRows(w, StoreRows(w.rows, creds), signer, creds);
      SchemaHolds(rows2, w.users) && NewActivated(rows2, creds)
  {
    var rows1 := StoreRows(w.rows, creds);
    StockedTokens(w, creds);
    CredIds(creds, w.rows, rows1);
    MintedSchema(w, rows1, IdsOf(creds), signer, creds);
    var records := RecordsFor(creds, w.users, signer, R.NonceOf(w.chain, signer));
    TokenWrite(rows1, IdsOf(creds), creds, records, w.clock);
    IssuedWrites(w.rows, rows1, MintedRows(w, rows1, signer, creds), creds, records, w.clock);
    forall i | 0 <= i < |creds| ensures NewRow(MintedRows(w, rows1, signer, creds), creds[i]) {
      assert Prepared(creds[i], RegisteredNote);
      assert IssuedRow(creds[i], MintedRows(w, rows1, signer, creds)[creds[i].id], records[i].id);
    }
  }

  ghost predicate NewActivated(rows: Rows, creds: seq<Credential>) {
    forall i :: 0 <= i < |creds| ==> NewRow(rows, creds[i])
  }

  predicate NewRow(rows: Rows, c: Credential) {
    c.id in rows && rows[c.id].activatedAt.Some? && Active(rows[c.id]) && rows[c.id].fileHash == c.fileHash
  }

  /** An issuance is lost when everything is in order and something fails after it was mined. */
  ghost predicate IssueIsLost(w: World, a: Action)
    requires Sized(a)
  {
    MayIssue(w, a) && a.fault != StorageFails && !StrikesBefore(a.fault) && StrikesAfterMint(a.fault, |a.items|)
  }

  lemma {:induction false} IssueWriteIs(w: World, creds: seq<Credential>, actor: Id, fault: Fault)
    requires KeysFree(w.rows, creds) && SchemaHolds(StoreRows(w.rows, creds), w.users)
    ensures IssueWrite(w, creds, actor, fault) ==
      if fault == StoreFails || fault == NotesFail then Step(w, Failed(Internal))
      else Settle(w, RecordNotes(w.notes, creds, RegisteredNote, w.clock),
                  MintCredentials(w, StoreRows(w.rows, creds), AddressOf(w.users, actor), creds, fault), fault)
  {
  }

  lemma {:induction false} IssueMintExactly(w: World, creds: seq<Credential>, actor: Id, fault: Fault)
    requires Inv(w) && creds != [] && KeysFree(w.rows, creds) && SchemaHolds(StoreRows(w.rows, creds), w.users)
    requires forall i :: 0 <= i < |creds| ==> Prepared(creds[i], RegisteredNote)
    ensures var s := IssueWrite(w, creds, actor, fault);
      var sent := MintAccepted(w, AddressOf(w.users, actor), creds) && !StrikesBefore(fault);
      Settles(w, s, sent, StrikesAfterMint(fault, |creds|)) && (s.outcome == Done ==> NewActivated(s.world.rows, creds))
  {
    var signer := AddressOf(w.users, actor);
    if MintAccepted(w, signer, creds) {
      IssuePrepared(w, creds, signer);
    }
    IssueWriteIs(w, creds, actor, fault);
    MintExactly(w, StoreRows(w.rows, creds), RecordNotes(w.notes, creds, RegisteredNote, w.clock), signer, creds,
                fault);
  }

  /** Exactly when an issuance commits, when it is lost, and that any other failure changes nothing. */
  lemma {:induction false} IssueExactly(w: World, a: Action)
    requires Inv(w) && Sized(a)
    ensures var s := Do(w, a);
      && (a.items != [] ==> Settles(w, s, MayIssue(w, a) && a.fault != StorageFails && !StrikesBefore(a.fault),
                                    StrikesAfterMint(a.fault, |a.items|)))
      && (s.outcome == Done ==> NewActivated(s.world.rows, IssuedCreds(w, a)))
      && (s.outcome.Failed? ==> (s.world == w <==> !IssueIsLost(w, a)))
  {
    var creds := IssuedCreds(w, a);
    PreparedItems(a.items, a.newIds, a.uris, a.actor, w.clock, true, w.rows);
    if a.items != [] && KeysFree(w.rows, creds) && SchemaHolds(StoreRows(w.rows, creds), w.users) {
      IssueMintExactly(w, creds, a.actor, a.fault);
    }
  }

  /** An issuance that is mined and then rolled back: no row over any of its files is ever activated
      that was not activated before. */
  lemma {:induction false} LostIssueIsFinal(w: World, a: Action, actions: seq<Action>, k: nat)
    requires Inv(w) && Sized(a) && k < |a.items| && IssueIsLost(w, a)
    ensures NoneActivated(w.rows, Run(Do(w, a).world, actions).rows, a.items[k].fileHash)
  {
    IssueExactly(w, a);
    DoKeeps(w, a);
    var creds := IssuedCreds(w, a);
    assert creds[k].fileHash == a.items[k].fileHash;
    LostIssueOrphans(w, creds, a.actor, a.fault, k);
    OrphanHashBlocked(Do(w, a).world, actions, a.items[k].fileHash);
  }

  ghost predicate HashActivatedIn(w: World, actions: seq<Action>, before: Rows, hash: Ascii) {
    !NoneActivated(before, Run(w, actions).rows, hash)
  }

  lemma {:induction false} IssueUnfailing(w: World, again: Action)
    requires Inv(w) && Sized(again) && MayIssue(w, again) && again.fault == NoFault
    ensures NewActivated(Do(w, again).world.rows, IssuedCreds(w, again))
  {
    IssueExactly(w, again);
    NothingStrikes(w, Do(w, again), |again.items|);
  }

  lemma {:induction false} NothingStrikes(w: World, s: Step, n: nat)
    requires Settles(w, s, true, StrikesAfterMint(NoFault, n))
    ensures s.outcome == Done
  {
  }

  /** The same request once more, with nothing failing. */
  lemma {:induction false} IssueAgain(w: World, a: Action, k: nat)
    requires Inv(w) && Sized(a) && k < |a.items| && MayIssue(w, a)
    ensures exists actions :: HashActivatedIn(w, actions, w.rows, a.items[k].fileHash)
  {
    var again := DoIssue(a.items, a.newIds, a.uris, a.actor, a.catalog, NoFault);
    IssueUnfailing(w, again);
    RunOne(w, again);
    IssuedIsNew(w, again, Run(w, [again]).rows, k);
    assert HashActivatedIn(w, [again], w.rows, a.items[k].fileHash);
  }

  lemma {:induction false} LostIssueNever(w: World, a: Action, k: nat)
    requires Inv(w) && Sized(a) && k < |a.items| && IssueIsLost(w, a)
    ensures !exists actions :: HashActivatedIn(Do(w, a).world, actions, w.rows, a.items[k].fileHash)
  {
    forall actions ensures !HashActivatedIn(Do(w, a).world, actions, w.rows, a.items[k].fileHash) {
      LostIssueIsFinal(w, a, actions, k);
    }
  }

  lemma {:induction false} IssueSucceeded(w: World, a: Action, k: nat)
    requires Inv(w) && Sized(a) && k < |a.items| && MayIssue(w, a) && Do(w, a).outcome == Done
    ensures HashActivatedIn(Do(w, a).world, [], w.rows, a.items[k].fileHash)
  {
    IssueExactly(w, a);
    IssuedIsNew(w, a, Do(w, a).world.rows, k);
  }

  /** When everything is in order, some later run activates a new row over a file of the issuance if and
      only if nothing failed after the mint. */
  lemma {:induction false} IssueCanSucceedExactly(w: World, a: Action, k: nat)
    requires Inv(w) && Sized(a) && k < |a.items| && MayIssue(w, a)
    ensures (exists actions :: HashActivatedIn(Do(w, a).world, actions, w.rows, a.items[k].fileHash))
       <==> !IssueIsLost(w, a)
  {
    if IssueIsLost(w, a) {
      LostIssueNever(w, a, k);
    } else if Do(w, a).outcome == Done {
      IssueSucceeded(w, a, k);
    } else {
      IssueExactly(w, a);
      IssueAgain(w, a, k);
    }
  }

  lemma {:induction false} IssuedIsNew(w: World, a: Action, rows: Rows, k: nat)
    requires Sized(a) && k < |a.items| && MayIssue(w, a) && NewActivated(rows, IssuedCreds(w, a))
    ensures !NoneActivated(w.rows, rows, a.items[k].fileHash)
  {
    var c := IssuedCreds(w, a)[k];
    assert NewRow(rows, c) && c.fileHash == a.items[k].fileHash && c.id !in w.rows;
  }

  // ----- Revoke -----

  /** Every target exists, is approved and unrevoked, and the contract revokes their records. */
  ghost predicate Revocable(w: World, ids: seq<Id>, order: seq<Id>, actor: Id, blockTime: nat)
    requires IsScan(order, ids, w.rows)
  {
    && order != [] && !SomeMissing(ids, w.rows)
    && !AnyRevoked(Fetch(w.rows, order)) && !AnyNotApproved(Fetch(w.rows, order))
    && R.RevokeBatch(w.chain, AddressOf(w.users, actor), TokensOf(Fetch(w.rows, order)), blockTime).Some?
  }

  /** A revocation is lost when everything is in order and the wait or the commit fails after it was mined. */
  ghost predicate RevocationIsLost(w: World, a: Action)
    requires a.DoRevoke? && Enabled(w, a)
  {
    Revocable(w, a.ids, a.order, a.actor, a.blockTime) && !StrikesBefore(a.fault) && StrikesAfterRevocation(a.fault)
  }

  lemma {:induction false} RevocationMoves(chain: R.Chain, revoker: Address, tokens: seq<TokenId>, at: nat)
    requires R.RevokeBatch(chain, revoker, tokens, at).Some?
    ensures R.RevokeBatch(chain, revoker, tokens, at).value != chain
  {
    var chain' := R.RevokeBatch(chain, revoker, tokens, at).value;
    assert R.NonceOf(chain', revoker) == R.NonceOf(chain, revoker) + 1;
  }

  ghost predicate AllRevoked(rows: Rows, order: seq<Id>) {
    forall i :: 0 <= i < |order| ==> order[i] in rows && rows[order[i]].revokedAt.Some?
  }

  lemma {:induction false} CallExactly(w: World, done: World, tokens: seq<TokenId>, revoker: Address, blockTime: nat,
                                       fault: Fault)
    requires tokens != [] && done.chain == w.chain
    ensures var s := RevokeOnChain(w, done, tokens, revoker, blockTime, fault);
      && Settles(w, s, R.RevokeBatch(w.chain, revoker, tokens, blockTime).Some? && fault != CallFails,
                 StrikesAfterRevocation(fault))
      && (s.outcome == Done ==> s.world.rows == done.rows)
  {
    if R.RevokeBatch(w.chain, revoker, tokens, blockTime).Some? {
      RevocationMoves(w.chain, revoker, tokens, blockTime);
    }
  }

  function RevokedRows(w: World, order: seq<Id>, actor: Id, grounds: map<Id, Option<string>>): Rows
    requires forall id :: id in order ==> id in w.rows
  {
    UpdateRows(w.rows, RevocationUpdates(Fetch(w.rows, order), w.clock, actor, grounds), w.clock)
  }

  lemma {:induction false} RevokePrepared(w: World, order: seq<Id>, actor: Id, grounds: map<Id, Option<string>>)
    requires Inv(w) && ScanOf(order, w.rows)
    requires forall i :: 0 <= i < |order| ==> IsRevocable(w.rows[order[i]])
    ensures SchemaHolds(RevokedRows(w, order, actor, grounds), w.users)
    ensures AllRevoked(RevokedRows(w, order, actor, grounds), order)
  {
    var rows' := RevokedRows(w, order, actor, grounds);
    RevocationWrite(w.rows, order, w.clock, actor, grounds);
    RevokingSchema(w, rows', order);
    forall i | 0 <= i < |order| ensures order[i] in rows' && rows'[order[i]].revokedAt.Some? {
      assert RevokedRow(w.rows[order[i]], rows'[order[i]]);
    }
  }

  lemma {:induction false} RevokeWriteExactly(w: World, order: seq<Id>, actor: Id, grounds: map<Id, Option<string>>,
                                              blockTime: nat,
                                              fault: Fault)
    requires Inv(w) && ScanOf(order, w.rows) && order != []
    requires forall i :: 0 <= i < |order| ==> IsRevocable(w.rows[order[i]])
    ensures var s := RevokeWrite(w, order, actor, grounds, blockTime, fault);
      var sent := R.RevokeBatch(w.chain, AddressOf(w.users, actor), TokensOf(Fetch(w.rows, order)), blockTime).Some?;
      && Settles(w, s, sent && !StrikesBefore(fault), StrikesAfterRevocation(fault))
      && (s.outcome == Done ==> AllRevoked(s.world.rows, order))
  {
    RevokePrepared(w, order, actor, grounds);
    TargetsHaveTokens(w, order);
    var done := w.(rows := RevokedRows(w, order, actor, grounds),
                   notes := RecordNotes(w.notes, Fetch(w.rows, order), RevokedNote, w.clock));
    CallExactly(w, done, TokensOf(Fetch(w.rows, order)), AddressOf(w.users, actor), blockTime, fault);
  }

  /** Exactly when a revocation commits, when it is lost, and that any other failure changes nothing. */
  lemma {:induction false} RevokeExactly(w: World, a: Action)
    requires Inv(w) && a.DoRevoke? && Enabled(w, a)
    ensures var s := Do(w, a);
      && (a.order != [] ==> Settles(w, s, Revocable(w, a.ids, a.order, a.actor, a.blockTime) && !StrikesBefore(a.fault),
                                    StrikesAfterRevocation(a.fault)))
      && (s.outcome == Done ==> AllRevoked(s.world.rows, a.order))
      && (s.outcome.Failed? ==> (s.world == w <==> !RevocationIsLost(w, a)))
  {
    ScanIsScan(a.order, a.ids, w.rows);
    if !SomeMissing(a.ids, w.rows) && !AnyRevoked(Fetch(w.rows, a.order)) && !AnyNotApproved(Fetch(w.rows, a.order)) &&
       a.order != [] {
      RevocableTargets(w.rows, a.order);
      RevokeWriteExactly(w, a.order, a.actor, a.grounds, a.blockTime, a.fault);
    }
  }

  /** A revocation that reports failure after it was mined leaves its rows unrevoked for ever. */
  lemma {:induction false} LostRevocationIsFinal(w: World, a: Action, actions: seq<Action>, k: nat)
    requires Inv(w) && a.DoRevoke? && Enabled(w, a) && k < |a.order| && RevocationIsLost(w, a)
    ensures Stuck(Run(Do(w, a).world, actions), a.order[k])
  {
    RevokeExactly(w, a);
    DoKeeps(w, a);
    LostRevocationSticks(w, a.ids, a.order, a.actor, a.grounds, a.blockTime, a.fault, k);
    LostRevocationStays(Do(w, a).world, actions, a.order[k]);
  }

  ghost predicate RevokedIn(w: World, actions: seq<Action>, id: Id) {
    id in Run(w, actions).rows && Run(w, actions).rows[id].revokedAt.Some?
  }

  lemma {:induction false} RevocationUnfailing(w: World, again: Action)
    requires Inv(w) && again.DoRevoke? && Enabled(w, again) && again.fault == NoFault
    requires Revocable(w, again.ids, again.order, again.actor, again.blockTime)
    ensures AllRevoked(Run(w, [again]).rows, again.order)
  {
    RevokeExactly(w, again);
    RunOne(w, again);
  }

  /** The same request once more, with nothing failing. */
  lemma {:induction false} RevocationAgain(w: World, a: Action, k: nat)
    requires Inv(w) && a.DoRevoke? && Enabled(w, a) && k < |a.order|
    requires Revocable(w, a.ids, a.order, a.actor, a.blockTime)
    ensures exists actions :: RevokedIn(w, actions, a.order[k])
  {
    var again := DoRevoke(a.ids, a.order, a.actor, a.grounds, a.blockTime, NoFault);
    RevocationUnfailing(w, again);
    assert RevokedIn(w, [again], a.order[k]);
  }

  lemma {:induction false} LostRevocationNever(w: World, a: Action, k: nat)
    requires Inv(w) && a.DoRevoke? && Enabled(w, a) && k < |a.order| && RevocationIsLost(w, a)
    ensures !exists actions :: RevokedIn(Do(w, a).world, actions, a.order[k])
  {
    forall actions ensures !RevokedIn(Do(w, a).world, actions, a.order[k]) {
      LostRevocationIsFinal(w, a, actions, k);
    }
  }

  /** When everything is in order, some later run revokes the targets if and only if neither the wait
      nor the commit failed. */
  lemma {:induction false} RevocationCanSucceedExactly(w: World, a: Action, k: nat)
    requires Inv(w) && a.DoRevoke? && Enabled(w, a) && k < |a.order|
    requires Revocable(w, a.ids, a.order, a.actor, a.blockTime)
    ensures (exists actions :: RevokedIn(Do(w, a).world, actions, a.order[k])) <==> !RevocationIsLost(w, a)
  {
    RevokeExactly(w, a);
    if RevocationIsLost(w, a) {
      LostRevocationNever(w, a, k);
    } else if Do(w, a).outcome == Done {
      assert RevokedIn(Do(w, a).world, [], a.order[k]);
    } else {
      RevocationAgain(w, a, k);
    }
  }
}
