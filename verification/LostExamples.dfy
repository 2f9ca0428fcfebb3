/** Inputs on which mined work is lost, each reached from an empty database. */
module LostExamples {
  import opened Base
  import opened Credentials
  import opened Payload
  import opened Lifecycle
  import opened LifecycleInvariant
  import opened LifecycleRuns
  import opened LostWork
  import R = Registry

  const HOLDER: Id := "h"
  const OFFICER: Id := "o"
  const CRED: Id := "c"

  /** An empty database over an empty registry, with a holder and an officer. */
  const START: World :=
    World(map[], map[], R.Chain(map[], map[], map[]), [],
          map[HOLDER := User(true, 1, None), OFFICER := User(true, 2, None)], 0)

  const ONE_FILE: Item := Item(HOLDER, "k", "g", None, None, None, "n", None, [], "f")
  const CATALOG: Catalog := Catalog(map["k" := true], map["g" := true], map[])

  function IssueOne(fault: Fault): Action {
    DoIssue([ONE_FILE], [CRED], ["u"], OFFICER, CATALOG, fault)
  }

  lemma {:induction false} StartIsInitial()
    ensures Initial(START) && Inv(START)
  {
    ReachableWorlds(START, []);
  }

  lemma {:induction false} OneAccepted(w: World, signer: Address, c: Credential)
    requires R.StatusOf(w.chain, c.fileHash) != R.Issued && R.NonceOf(w.chain, signer) + 1 < WORD_LIMIT
    requires RecordFor(c, w.users, signer, R.NonceOf(w.chain, signer)).id !in w.chain.records
    ensures MintAccepted(w, signer, [c])
  {
    var records := RecordsFor([c], w.users, signer, R.NonceOf(w.chain, signer));
    assert records[..0] == [];
    assert R.IssueAll(w.chain, []) == Some(w.chain);
    assert R.IssueAll(w.chain, records) == R.IssueOne(w.chain, records[0]);
  }

  lemma {:induction false} OneStored(c: Credential)
    ensures StoreRows(map[], [c]) == map[c.id := Persisted(c)]
  {
    assert [c][..0] == [];
    assert StoreRows(map[], []) == map[];
  }

  lemma {:induction false} OneRowAllowed(id: Id, c: Credential, users: Users)
    requires RowAllowed(c, users)
    ensures SchemaHolds(map[id := c], users)
  {
  }

  function FirstCred(): Credential {
    Issuing(ONE_FILE, CRED, "u", OFFICER, 0)
  }

  lemma {:induction false} FirstStored()
    ensures KeysFree(START.rows, [FirstCred()]) && SchemaHolds(StoreRows(START.rows, [FirstCred()]), START.users)
  {
    OneStored(FirstCred());
    OneRowAllowed(CRED, Persisted(FirstCred()), START.users);
  }

  lemma {:induction false} FirstValid()
    ensures IssueAccepted(START, [ONE_FILE], CATALOG)
  {
  }

  lemma {:induction false} FirstAccepted()
    ensures MintAccepted(START, AddressOf(START.users, OFFICER), [FirstCred()])
  {
    OneAccepted(START, AddressOf(START.users, OFFICER), FirstCred());
  }

  lemma {:induction false} FirstPrepared()
    ensures Prepare([ONE_FILE], [CRED], ["u"], OFFICER, START.clock, true) == [FirstCred()]
  {
  }

  lemma {:induction false} FirstIssuable()
    ensures Issuable(START, [ONE_FILE], [CRED], ["u"], OFFICER, CATALOG)
  {
    FirstStored();
    FirstValid();
    FirstAccepted();
    FirstPrepared();
  }

  /** From the very start the first issuance of a file is in order: whatever fails after the mint loses it. */
  lemma {:induction false} FirstIssueCanBeLost(fault: Fault)
    requires fault != StorageFails && !StrikesBefore(fault) && StrikesAfterMint(fault, 1)
    ensures Initial(START) && Enabled(START, IssueOne(fault)) && IssueIsLost(START, IssueOne(fault))
  {
    StartIsInitial();
    FirstIssuable();
  }

  // ----- Approve -----

  const SUBMIT: Action := DoSubmit([ONE_FILE], [CRED], ["u"], HOLDER, CATALOG, NoFault)

  function ApproveIt(fault: Fault): Action {
    DoApprove([CRED], [CRED], OFFICER, {CRED}, fault)
  }

  function SubmittedRow(): Credential {
    Persisted(Submitting(ONE_FILE, CRED, "u", HOLDER, 0))
  }

  lemma {:induction false} Submitted()
    ensures Do(START, SUBMIT).world == START.(rows := map[CRED := SubmittedRow()])
  {
    var c := Submitting(ONE_FILE, CRED, "u", HOLDER, 0);
    assert Prepare([ONE_FILE], [CRED], ["u"], HOLDER, START.clock, false) == [c];
    OneStored(c);
    OneRowAllowed(CRED, Persisted(c), START.users);
    assert SubmitAccepted(START, [ONE_FILE], CATALOG);
  }

  lemma {:induction false} OneScan(rows: Rows)
    requires CRED in rows
    ensures IsScan([CRED], [CRED], rows) && !SomeMissing([CRED], rows) && Fetch(rows, [CRED]) == [rows[CRED]]
  {
  }

  /** A submission may be approved next, and whatever fails after the mint loses the approval. */
  lemma {:induction false} FirstApprovalCanBeLost(fault: Fault)
    requires !StrikesBefore(fault) && StrikesAfterMint(fault, 1)
    ensures Initial(START) && Enabled(Run(START, [SUBMIT]), ApproveIt(fault))
    ensures ApprovalIsLost(Run(START, [SUBMIT]), ApproveIt(fault))
  {
    StartIsInitial();
    Submitted();
    RunOne(START, SUBMIT);
    ReachableWorlds(START, [SUBMIT]);
    PendingIsApprovable(Run(START, [SUBMIT]));
  }

  lemma {:induction false} PendingIsApprovable(w: World)
    requires Inv(w) && w == START.(rows := map[CRED := SubmittedRow()])
    ensures IsScan([CRED], [CRED], w.rows) && Approvable(w, [CRED], [CRED], OFFICER, {CRED})
  {
    OneScan(w.rows);
    assert StatusOf(w.rows[CRED], w.clock) == Pending;
    assert [w.rows[CRED]][1..] == [];
    assert ApproveRefusal([], w.clock, {CRED}) == None;
    assert ApproveRefusal([w.rows[CRED]], w.clock, {CRED}) == None;
    ApprovalWrite(w.rows, [CRED], w.clock, OFFICER);
    OneScan(ApprovedRows(w, [CRED], OFFICER));
    OneAccepted(w, AddressOf(w.users, OFFICER), ApprovedRows(w, [CRED], OFFICER)[CRED]);
  }

  // ----- Revoke -----

  function RevokeIt(fault: Fault): Action {
    DoRevoke([CRED], [CRED], OFFICER, map[], 1, fault)
  }

  lemma {:induction false} OneRecord(chain: R.Chain, signer: Address, r: R.Record)
    requires chain.records == map[] && chain.nonces == map[] && R.IssueBatch(chain, signer, [r]).Some?
    ensures var chain' := R.IssueBatch(chain, signer, [r]).value;
      chain'.records == map[r.id := r] && R.NonceOf(chain', signer) == 1
  {
    assert [r][..0] == [];
    assert R.IssueAll(chain, []) == Some(chain);
    assert R.IssueAll(chain, [r]) == R.IssueOne(chain, r);
  }

  /** The row after the first issuance. */
  lemma {:induction false} FirstRow()
    ensures var w := Do(START, IssueOne(NoFault)).world;
      CRED in w.rows && w.rows[CRED].activatedAt.Some? && Active(w.rows[CRED])
  {
    StartIsInitial();
    FirstIssuable();
    FirstPrepared();
    IssueExactly(START, IssueOne(NoFault));
    assert NewRow(Do(START, IssueOne(NoFault)).world.rows, FirstCred());
  }

  ghost predicate Unrevoked(chain: R.Chain) {
    R.NonceOf(chain, 2) <= 1 && forall t :: t in chain.records ==> chain.records[t].revokedAt == 0
  }

  lemma {:induction false} FirstMint(rows: Rows)
    ensures Unrevoked(MintCredentials(START, rows, 2, [FirstCred()], NoFault).chain)
  {
    MintedOrNot(START, rows, 2, [FirstCred()], NoFault);
    var r := RecordFor(FirstCred(), START.users, 2, 0);
    assert RecordsFor([FirstCred()], START.users, 2, 0) == [r];
    if R.IssueBatch(START.chain, 2, [r]).Some? {
      OneRecord(START.chain, 2, r);
    }
  }

  lemma {:induction false} IssueIsWrite(w: World, a: Action)
    requires Sized(a) && IssueAccepted(w, a.items, a.catalog) && a.fault == NoFault
    ensures Do(w, a) == IssueWrite(w, IssuedCreds(w, a), a.actor, NoFault)
  {
  }

  lemma {:induction false} SettleLeads(w: World, notes: Notes, m: Mint)
    ensures Settle(w, notes, m, NoFault).world.chain == m.chain && Settle(w, notes, m, NoFault).world.users == w.users
  {
  }

  lemma {:induction false} WriteLeads(w: World, creds: seq<Credential>, actor: Id)
    requires KeysFree(w.rows, creds) && SchemaHolds(StoreRows(w.rows, creds), w.users)
    ensures var w' := IssueWrite(w, creds, actor, NoFault).world;
      && w'.users == w.users
      && w'.chain == MintCredentials(w, StoreRows(w.rows, creds), AddressOf(w.users, actor), creds, NoFault).chain
  {
    IssueWriteIs(w, creds, actor, NoFault);
    SettleLeads(w, RecordNotes(w.notes, creds, RegisteredNote, w.clock),
                MintCredentials(w, StoreRows(w.rows, creds), AddressOf(w.users, actor), creds, NoFault));
  }

  /** The chain after the first issuance. */
  lemma {:induction false} FirstIssued()
    ensures var w := Do(START, IssueOne(NoFault)).world;
      Unrevoked(w.chain) && w.users == START.users
  {
    FirstValid();
    FirstStored();
    FirstPrepared();
    IssueIsWrite(START, IssueOne(NoFault));
    WriteLeads(START, [FirstCred()], OFFICER);
    FirstMint(StoreRows(START.rows, [FirstCred()]));
  }

  lemma {:induction false} OneRevocable(w: World)
    requires Inv(w) && CRED in w.rows && w.rows[CRED].activatedAt.Some? && Active(w.rows[CRED])
    requires w.users == START.users
    requires Unrevoked(w.chain)
    ensures IsScan([CRED], [CRED], w.rows) && Revocable(w, [CRED], [CRED], OFFICER, 1)
  {
    OneScan(w.rows);
    TokenedOne(w);
    var t := w.rows[CRED].tokenId.value;
    assert [w.rows[CRED]][..0] == [];
    assert TokensOf([]) == [];
    assert TokensOf([w.rows[CRED]]) == [t];
    assert [t][..0] == [];
    assert R.RevokeAll(w.chain, [], 1) == Some(w.chain);
    assert R.RevokeAll(w.chain, [t], 1) == R.RevokeOne(w.chain, t, 1);
  }

  lemma {:induction false} TokenedOne(w: World)
    requires Inv(w) && CRED in w.rows && w.rows[CRED].activatedAt.Some?
    ensures w.rows[CRED].tokenId.Some? && w.rows[CRED].tokenId.value in w.chain.records
  {
    assert RowOk(w.rows[CRED]);
    TokenKnown(w, CRED);
  }

  /** What was issued may be revoked next, and a lost wait or commit loses the revocation. */
  lemma {:induction false} FirstRevocationCanBeLost(fault: Fault)
    requires StrikesAfterRevocation(fault)
    ensures Initial(START) && Enabled(Run(START, [IssueOne(NoFault)]), RevokeIt(fault))
    ensures RevocationIsLost(Run(START, [IssueOne(NoFault)]), RevokeIt(fault))
  {
    StartIsInitial();
    FirstRow();
    FirstIssued();
    RunOne(START, IssueOne(NoFault));
    ReachableWorlds(START, [IssueOne(NoFault)]);
    OneRevocable(Run(START, [IssueOne(NoFault)]));
  }
}
