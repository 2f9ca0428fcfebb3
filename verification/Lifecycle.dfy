/** The credential lifecycle as transitions of one world: the credential table, its notifications,
    the registry contract, the extraction queue and the accounts. Every operation is a function of
    the world, its request and what the environment does to it; a unit of work commits exactly when
    its body succeeds, while the chain and the queue keep what they were told. */
module Lifecycle {
  import opened Base
  import opened Credentials
  import opened Payload
  import R = Registry

  /** What an operation reads of an account: its wallet as go-ethereum parses it, and whether it is trashed. */
  datatype User = User(walletValid: bool, address: Address, deletedAt: Option<Time>)

  datatype NoteKind = RegisteredNote | ApprovedNote | RejectedNote | RevokedNote

  /** The unique key of a notification. */
  datatype NoteKey = NoteKey(user: Id, credential: Id, kind: NoteKind)

  datatype Note = Note(createdAt: Time, readAt: Option<Time>)

  type Users = map<Id, User>
  type Notes = map<NoteKey, Note>

  datatype World = World(rows: Rows, notes: Notes, chain: R.Chain, jobs: seq<Id>, users: Users, clock: Time)

  datatype Error =
    | NotFound | NotPending | AlreadyApproved | AlreadyRejected | AlreadyRevoked | AlreadyExpired
    | NotApproved | InactiveMetadata | UnknownKind | InactiveKind | UnknownOrganization | InactiveOrganization
    | NumberDuplicate | Invalid | DuplicateHash | ChainFailed | NotEligible | Internal

  /** Where the environment makes an operation fail. `MinedUnseen` is a transaction that is mined
      although the service is told otherwise (a lost wait); `CommitFails` strikes after the body;
      `RestampFails` is a failed enqueue whose compensation fails as well. */
  datatype Fault =
    | NoFault | StorageFails | StoreFails | NotesFail | CallFails | MinedUnseen
    | TokenWriteFails | EnqueueFails(at: nat) | RestampFails(at: nat) | LinksFail | CommitFails

  datatype Outcome = Done | Failed(error: Error)

  datatype Step = Step(world: World, outcome: Outcome)

  // ----- What the schema enforces on every write -----

  predicate Active(c: Credential) {
    c.revokedAt == None && c.rejectedAt == None
  }

  predicate HashesUnique(rows: Rows) {
    forall a, b | a in rows && b in rows && a != b :: Active(rows[a]) && Active(rows[b]) ==>
      rows[a].fileHash != rows[b].fileHash
  }

  predicate TokensUnique(rows: Rows) {
    forall a, b | a in rows && b in rows && a != b :: rows[a].tokenId.Some? ==> rows[a].tokenId != rows[b].tokenId
  }

  predicate NumbersUnique(rows: Rows) {
    forall a, b | a in rows && b in rows && a != b ::
      rows[a].number.Some? && rows[a].organization == rows[b].organization ==> rows[a].number != rows[b].number
  }

  predicate RowAllowed(c: Credential, users: Users) {
    && (c.activatedAt == None || c.rejectedAt == None)
    && c.holder in users
    && (c.issuer.Some? ==> c.issuer.value in users)
  }

  predicate SchemaHolds(rows: Rows, users: Users) {
    && HashesUnique(rows) && TokensUnique(rows) && NumbersUnique(rows)
    && (forall id | id in rows :: RowAllowed(rows[id], users))
  }

  // ----- Notifications (credential_notification.go, ON CONFLICT DO NOTHING) -----

  function AddNote(notes: Notes, key: NoteKey, now: Time): Notes {
    if key in notes then notes else notes[key := Note(now, None)]
  }

  function NoteFor(c: Credential, kind: NoteKind): NoteKey {
    NoteKey(c.holder, c.id, kind)
  }

  function RecordNotes(notes: Notes, creds: seq<Credential>, kind: NoteKind, now: Time): Notes {
    if creds == [] then notes
    else
      var c := creds[|creds| - 1];
      var notes' := RecordNotes(notes, creds[..|creds| - 1], kind, now);
      if c.id == "" || c.holder == "" then notes' else AddNote(notes', NoteFor(c, kind), now)
  }

  // ----- Reading targets -----

  /** `order` is an order in which the database may return the rows that `ids` selects. */
  ghost predicate IsScan(order: seq<Id>, ids: seq<Id>, rows: Rows) {
    Distinct(order) && forall id :: id in order <==> id in ids && id in rows
  }

  predicate SomeMissing(ids: seq<Id>, rows: Rows) {
    exists i :: 0 <= i < |ids| && ids[i] !in rows
  }

  function Fetch(rows: Rows, order: seq<Id>): (r: seq<Credential>)
    requires forall id :: id in order ==> id in rows
    ensures |r| == |order|
  {
    seq(|order|, i requires 0 <= i < |order| => rows[order[i]])
  }

  // ----- Minting (mintCredentials) -----

  function AddressOf(users: Users, id: Id): Address {
    if id in users then users[id].address else 0
  }

  function RecordFor(c: Credential, users: Users, signer: Address, nonce: Word): R.Record {
    R.RecordOf(signer, nonce,
               R.Issuance(AddressOf(users, c.holder), c.fileHash, c.id,
                          IssuedAtToChain(c.issuedAt), ExpiresAtToChain(c.expiresAt), NumberToChain(c.number)))
  }

  function RecordsFor(creds: seq<Credential>, users: Users, signer: Address, nonce: Word): (r: seq<R.Record>)
    ensures |r| == |creds|
  {
    seq(|creds|, i requires 0 <= i < |creds| => RecordFor(creds[i], users, signer, nonce))
  }

  function TokenUpdates(creds: seq<Credential>, records: seq<R.Record>): (r: seq<Credential>)
    requires |creds| == |records|
    ensures |r| == |creds|
  {
    seq(|creds|, i requires 0 <= i < |creds| => Blank(creds[i].id).(tokenId := Some(records[i].id)))
  }

  function IdsOf(creds: seq<Credential>): (r: seq<Id>)
    ensures |r| == |creds|
  {
    seq(|creds|, i requires 0 <= i < |creds| => creds[i].id)
  }

  /** The chain and queue after a mint, and the rows when the unit of work may go on. */
  datatype Mint = Mint(chain: R.Chain, jobs: seq<Id>, rows: Option<Rows>, error: Error)

  function AnyIssued(chain: R.Chain, creds: seq<Credential>): bool {
    exists i :: 0 <= i < |creds| && R.StatusOf(chain, creds[i].fileHash) == R.Issued
  }

  function MintCredentials(w: World, rows: Rows, signer: Address, creds: seq<Credential>, fault: Fault): Mint {
    if creds == [] then Mint(w.chain, w.jobs, Some(rows), Internal)
    else
      var records := RecordsFor(creds, w.users, signer, R.NonceOf(w.chain, signer));
      if fault == CallFails then Mint(w.chain, w.jobs, None, ChainFailed)
      else match R.IssueBatch(w.chain, signer, records)
        case None => Mint(w.chain, w.jobs, None, if AnyIssued(w.chain, creds) then DuplicateHash else ChainFailed)
        case Some(chain) => AfterMint(w, rows, chain, creds, records, fault)
  }

  /** The steps after a mined transaction: nothing that fails here takes the records back. */
  function AfterMint(w: World, rows: Rows, chain: R.Chain, creds: seq<Credential>, records: seq<R.Record>,
                     fault: Fault): Mint
    requires |creds| == |records|
  {
    if fault == MinedUnseen then Mint(chain, w.jobs, None, ChainFailed)
    else
      var rows' := UpdateRows(rows, TokenUpdates(creds, records), w.clock);
      if fault == TokenWriteFails || !SchemaHolds(rows', w.users) then Mint(chain, w.jobs, None, Internal)
      else match fault
        case EnqueueFails(k) =>
          if k < |creds| then Mint(chain, w.jobs + IdsOf(creds)[..k], None, Internal)
          else Mint(chain, w.jobs + IdsOf(creds), Some(rows'), Internal)
        case _ => Mint(chain, w.jobs + IdsOf(creds), Some(rows'), Internal)
  }

  /** The end of a unit of work that minted: commit rows and notes, or roll both back. */
  function Settle(w: World, notes: Notes, m: Mint, fault: Fault): Step {
    var w' := w.(chain := m.chain, jobs := m.jobs);
    if m.rows == None then Step(w', Failed(m.error))
    else if fault == LinksFail || fault == CommitFails then Step(w', Failed(Internal))
    else Step(w'.(rows := m.rows.value, notes := notes), Done)
  }

  // ----- Approve -----

  function ReviewRefusal(c: Credential, now: Time): Option<Error> {
    match StatusOf(c, now)
    case Approved => Some(AlreadyApproved)
    case Rejected => Some(AlreadyRejected)
    case Revoked => Some(AlreadyRevoked)
    case Expired => Some(AlreadyExpired)
    case Pending => None
  }

  /** The first refusal in fetch order; `usable` are the rows whose type, organization and
      competencies are all approved and active. */
  function ApproveRefusal(targets: seq<Credential>, now: Time, usable: set<Id>): Option<Error> {
    if targets == [] then None
    else
      var r := ReviewRefusal(targets[0], now);
      if r.Some? then r
      else if targets[0].id !in usable then Some(InactiveMetadata)
      else ApproveRefusal(targets[1..], now, usable)
  }

  function ApprovalUpdate(id: Id, now: Time, actor: Id): Credential {
    Blank(id).(activatedAt := Some(now), issuer := Some(actor), extractEnqueuedAt := Some(now))
  }

  function ApprovalUpdates(targets: seq<Credential>, now: Time, actor: Id): (r: seq<Credential>)
    ensures |r| == |targets|
  {
    seq(|targets|, i requires 0 <= i < |targets| => ApprovalUpdate(targets[i].id, now, actor))
  }

  function Approve(w: World, ids: seq<Id>, order: seq<Id>, actor: Id, usable: set<Id>, fault: Fault): Step
    requires IsScan(order, ids, w.rows)
  {
    if SomeMissing(ids, w.rows) then Step(w, Failed(NotFound))
    else
      var refusal := ApproveRefusal(Fetch(w.rows, order), w.clock, usable);
      if refusal.Some? then Step(w, Failed(refusal.value)) else ApproveWrite(w, order, actor, fault)
  }

  /** The unit of work once every target may be approved: the approval, the notes, the mint. */
  function ApproveWrite(w: World, order: seq<Id>, actor: Id, fault: Fault): Step
    requires forall id :: id in order ==> id in w.rows
  {
    var targets := Fetch(w.rows, order);
    var rows := UpdateRows(w.rows, ApprovalUpdates(targets, w.clock, actor), w.clock);
    if fault == StoreFails || fault == NotesFail || !SchemaHolds(rows, w.users) then Step(w, Failed(Internal))
    else
      var notes := RecordNotes(w.notes, targets, ApprovedNote, w.clock);
      Settle(w, notes, MintCredentials(w, rows, AddressOf(w.users, actor), Fetch(rows, order), fault), fault)
  }

  // ----- Reject -----

  function RejectRefusal(targets: seq<Credential>, now: Time): Option<Error> {
    if targets == [] then None
    else
      var r := ReviewRefusal(targets[0], now);
      if r.Some? then r else RejectRefusal(targets[1..], now)
  }

  function RejectionUpdate(id: Id, now: Time, actor: Id, reasons: map<Id, string>): Credential {
    Blank(id).(rejecter := Some(actor), rejectedAt := Some(now),
               rejectionReason := Some(if id in reasons then reasons[id] else ""))
  }

  function RejectionUpdates(targets: seq<Credential>, now: Time, actor: Id,
                            reasons: map<Id, string>): (r: seq<Credential>)
    ensures |r| == |targets|
  {
    seq(|targets|, i requires 0 <= i < |targets| => RejectionUpdate(targets[i].id, now, actor, reasons))
  }

  function Reject(w: World, ids: seq<Id>, order: seq<Id>, actor: Id, reasons: map<Id, string>, fault: Fault): Step
    requires IsScan(order, ids, w.rows)
  {
    if SomeMissing(ids, w.rows) then Step(w, Failed(NotFound))
    else
      var refusal := RejectRefusal(Fetch(w.rows, order), w.clock);
      if refusal.Some? then Step(w, Failed(refusal.value)) else RejectWrite(w, order, actor, reasons, fault)
  }

  function RejectWrite(w: World, order: seq<Id>, actor: Id, reasons: map<Id, string>, fault: Fault): Step
    requires forall id :: id in order ==> id in w.rows
  {
    var targets := Fetch(w.rows, order);
    var rows := UpdateRows(w.rows, RejectionUpdates(targets, w.clock, actor, reasons), w.clock);
    if fault != NoFault || !SchemaHolds(rows, w.users) then Step(w, Failed(Internal))
    else Step(w.(rows := rows, notes := RecordNotes(w.notes, targets, RejectedNote, w.clock)), Done)
  }

  // ----- Revoke -----

  predicate AnyRevoked(targets: seq<Credential>) {
    exists i :: 0 <= i < |targets| && targets[i].revokedAt.Some?
  }

  predicate AnyNotApproved(targets: seq<Credential>) {
    exists i :: 0 <= i < |targets| && (targets[i].activatedAt == None || targets[i].rejectedAt.Some?)
  }

  function RevocationUpdate(id: Id, now: Time, actor: Id, reasons: map<Id, Option<string>>): Credential {
    Blank(id).(revokedAt := Some(now), revoker := Some(actor),
               revocationReason := if id in reasons then reasons[id] else None)
  }

  function RevocationUpdates(targets: seq<Credential>, now: Time, actor: Id,
                             reasons: map<Id, Option<string>>): (r: seq<Credential>)
    ensures |r| == |targets|
  {
    seq(|targets|, i requires 0 <= i < |targets| => RevocationUpdate(targets[i].id, now, actor, reasons))
  }

  function TokensOf(targets: seq<Credential>): seq<TokenId> {
    if targets == [] then []
    else TokensOf(targets[..|targets| - 1]) +
         (match targets[|targets| - 1].tokenId case Some(t) => [t] case None => [])
  }

  /** `blockTime` is the timestamp of the block that would carry the revocation. */
  function Revoke(w: World, ids: seq<Id>, order: seq<Id>, actor: Id, reasons: map<Id, Option<string>>,
                  blockTime: nat, fault: Fault): Step
    requires IsScan(order, ids, w.rows)
  {
    if SomeMissing(ids, w.rows) then Step(w, Failed(NotFound))
    else if AnyRevoked(Fetch(w.rows, order)) then Step(w, Failed(AlreadyRevoked))
    else if AnyNotApproved(Fetch(w.rows, order)) then Step(w, Failed(NotApproved))
    else RevokeWrite(w, order, actor, reasons, blockTime, fault)
  }

  function RevokeWrite(w: World, order: seq<Id>, actor: Id, reasons: map<Id, Option<string>>,
                       blockTime: nat, fault: Fault): Step
    requires forall id :: id in order ==> id in w.rows
  {
    var targets := Fetch(w.rows, order);
    var rows := UpdateRows(w.rows, RevocationUpdates(targets, w.clock, actor, reasons), w.clock);
    if fault == StoreFails || fault == NotesFail || !SchemaHolds(rows, w.users) then Step(w, Failed(Internal))
    else
      var done := w.(rows := rows, notes := RecordNotes(w.notes, targets, RevokedNote, w.clock));
      RevokeOnChain(w, done, TokensOf(targets), AddressOf(w.users, actor), blockTime, fault)
  }

  /** The chain call is the last step: when it is mined and the unit of work is still lost, the
      record is revoked and the row is not. */
  function RevokeOnChain(w: World, done: World, tokens: seq<TokenId>, revoker: Address, blockTime: nat,
                         fault: Fault): Step {
    if tokens == [] then (if fault == CommitFails then Step(w, Failed(Internal)) else Step(done, Done))
    else if fault == CallFails then Step(w, Failed(ChainFailed))
    else match R.RevokeBatch(w.chain, revoker, tokens, blockTime)
      case None => Step(w, Failed(ChainFailed))
      case Some(chain) =>
        if fault == MinedUnseen then Step(w.(chain := chain), Failed(ChainFailed))
        else if fault == CommitFails then Step(w.(chain := chain), Failed(Internal))
        else Step(done.(chain := chain), Done)
  }

  // ----- Issue and Submit: new rows -----

  datatype Item = Item(holder: Id, kind: Id, organization: Id, number: Option<string>, issuedAt: Option<Time>,
                       expiresAt: Option<Time>, name: string, meta: Option<string>, competencies: seq<Id>,
                       fileHash: Ascii)

  /** A row as stored: timestamps cut to microseconds. */
  function Persisted(c: Credential): Credential {
    c.(issuedAt := Stored(c.issuedAt), expiresAt := StoredOption(c.expiresAt),
       activatedAt := StoredOption(c.activatedAt), extractEnqueuedAt := StoredOption(c.extractEnqueuedAt))
  }

  function StoreRows(rows: Rows, creds: seq<Credential>): Rows {
    if creds == [] then rows
    else StoreRows(rows, creds[..|creds| - 1])[creds[|creds| - 1].id := Persisted(creds[|creds| - 1])]
  }

  /** Primary keys: the new ids are fresh and differ from one another. */
  predicate KeysFree(rows: Rows, creds: seq<Credential>) {
    && (forall i :: 0 <= i < |creds| ==> creds[i].id !in rows && creds[i].id != "")
    && (forall i, j :: 0 <= i < j < |creds| ==> creds[i].id != creds[j].id)
  }

  /** issuePrepareCredentials: activated at birth, the acting officer as issuer. */
  function Issuing(it: Item, id: Id, uri: string, actor: Id, now: Time): Credential {
    Blank(id).(holder := it.holder, submitter := actor, issuer := Some(actor), organization := it.organization,
               kind := it.kind, number := it.number, name := it.name, meta := it.meta, fileHash := it.fileHash,
               fileUri := Some(uri), extractEnqueuedAt := Some(now), issuedAt := it.issuedAt.GetOr(now),
               expiresAt := it.expiresAt, activatedAt := Some(now))
  }

  /** submitPrepareCredentials: a pending row, no issuer, no extraction. */
  function Submitting(it: Item, id: Id, uri: string, actor: Id, now: Time): Credential {
    Blank(id).(holder := actor, submitter := actor, organization := it.organization, kind := it.kind,
               number := it.number, name := it.name, meta := it.meta, fileHash := it.fileHash,
               fileUri := Some(uri), issuedAt := it.issuedAt.GetOr(now), expiresAt := it.expiresAt)
  }

  function Prepare(items: seq<Item>, ids: seq<Id>, uris: seq<string>, actor: Id, now: Time,
                   issue: bool): (r: seq<Credential>)
    requires |ids| == |items| && |uris| == |items|
    ensures |r| == |items|
  {
    seq(|items|, i requires 0 <= i < |items| =>
      if issue then Issuing(items[i], ids[i], uris[i], actor, now)
      else Submitting(items[i], ids[i], uris[i], actor, now))
  }

  /** Reference rows as validation sees them: present ids and whether each may be used. */
  datatype Catalog = Catalog(kinds: map<Id, bool>, organizations: map<Id, bool>, competencies: map<Id, bool>)

  predicate Usable(m: map<Id, bool>, id: Id) {
    id in m && m[id]
  }

  predicate NumberTaken(rows: Rows, it: Item) {
    it.number.Some? && it.number.value != "" &&
    exists id | id in rows :: rows[id].organization == it.organization && rows[id].number == it.number
  }

  predicate ReferencesUsable(it: Item, catalog: Catalog) {
    && Usable(catalog.kinds, it.kind)
    && Usable(catalog.organizations, it.organization)
    && (forall k :: 0 <= k < |it.competencies| ==> Usable(catalog.competencies, it.competencies[k]))
  }

  /** A batch that issueValidate lets through: known holders, hashes neither issued on chain nor
      repeated, usable references, free numbers. */
  predicate IssueAccepted(w: World, items: seq<Item>, catalog: Catalog) {
    && (forall i :: 0 <= i < |items| ==>
          items[i].holder in w.users && R.StatusOf(w.chain, items[i].fileHash) != R.Issued
          && ReferencesUsable(items[i], catalog) && !NumberTaken(w.rows, items[i]))
    && (forall i, j :: 0 <= i < j < |items| ==> items[i].fileHash != items[j].fileHash)
  }

  function Issue(w: World, items: seq<Item>, ids: seq<Id>, uris: seq<string>, actor: Id, catalog: Catalog,
                 fault: Fault): Step
    requires |ids| == |items| && |uris| == |items|
  {
    if !IssueAccepted(w, items, catalog) then Step(w, Failed(Invalid))
    else if fault == StorageFails then Step(w, Failed(Internal))
    else IssueWrite(w, Prepare(items, ids, uris, actor, w.clock, true), actor, fault)
  }

  /** issueCommit: store, announce, mint, all in one unit of work. */
  function IssueWrite(w: World, creds: seq<Credential>, actor: Id, fault: Fault): Step {
    if fault == StoreFails || !KeysFree(w.rows, creds) then Step(w, Failed(Internal))
    else
      var rows := StoreRows(w.rows, creds);
      if !SchemaHolds(rows, w.users) then Step(w, Failed(DuplicateHash))
      else if fault == NotesFail then Step(w, Failed(Internal))
      else
        var notes := RecordNotes(w.notes, creds, RegisteredNote, w.clock);
        Settle(w, notes, MintCredentials(w, rows, AddressOf(w.users, actor), creds, fault), fault)
  }

  predicate SubmitAccepted(w: World, items: seq<Item>, catalog: Catalog) {
    && (forall i, id | 0 <= i < |items| && id in w.rows :: Active(w.rows[id]) ==>
         w.rows[id].fileHash != items[i].fileHash)
    && (forall i :: 0 <= i < |items| ==> ReferencesUsable(items[i], catalog) && !NumberTaken(w.rows, items[i]))
  }

  function Submit(w: World, items: seq<Item>, ids: seq<Id>, uris: seq<string>, actor: Id, catalog: Catalog,
                  fault: Fault): Step
    requires |ids| == |items| && |uris| == |items|
  {
    if !SubmitAccepted(w, items, catalog) then Step(w, Failed(Invalid))
    else SubmitWrite(w, Prepare(items, ids, uris, actor, w.clock, false), fault)
  }

  function SubmitWrite(w: World, creds: seq<Credential>, fault: Fault): Step {
    if fault != NoFault || !KeysFree(w.rows, creds) then Step(w, Failed(Internal))
    else
      var rows := StoreRows(w.rows, creds);
      if !SchemaHolds(rows, w.users) then Step(w, Failed(DuplicateHash)) else Step(w.(rows := rows), Done)
  }

  // ----- Update: pending rows only -----

  /** The fields a client may send (credential_request.go). */
  datatype Edit = Edit(id: Id, name: string, number: Option<string>, kind: Id, organization: Id,
                       issuedAt: Time, expiresAt: Option<Time>, meta: Option<string>)

  function EditPatch(e: Edit): Credential {
    Blank(e.id).(name := e.name, number := e.number, kind := e.kind, organization := e.organization,
                 issuedAt := e.issuedAt, expiresAt := e.expiresAt, meta := e.meta)
  }

  function EditPatches(edits: seq<Edit>): (r: seq<Credential>)
    ensures |r| == |edits|
  {
    seq(|edits|, i requires 0 <= i < |edits| => EditPatch(edits[i]))
  }

  /** A changed reference must exist and be usable. */
  function ReferenceRefusal(wanted: Id, current: Id, known: map<Id, bool>, unknown: Error,
                            inactive: Error): Option<Error> {
    if wanted == "" || wanted == current then None
    else if wanted !in known then Some(unknown)
    else if !known[wanted] then Some(inactive)
    else None
  }

  function EditRefusal(w: World, e: Edit, catalog: Catalog): Option<Error>
    requires e.id in w.rows
  {
    var target := w.rows[e.id];
    if StatusOf(target, w.clock) != Pending then Some(NotPending)
    else ReferenceRefusal(e.kind, target.kind, catalog.kinds, UnknownKind, InactiveKind)
         .Or(ReferenceRefusal(e.organization, target.organization, catalog.organizations, UnknownOrganization,
                              InactiveOrganization))
  }

  function UpdateRefusal(w: World, edits: seq<Edit>, catalog: Catalog): Option<Error>
    requires forall i :: 0 <= i < |edits| ==> edits[i].id in w.rows
  {
    if edits == [] then None
    else EditRefusal(w, edits[0], catalog).Or(UpdateRefusal(w, edits[1..], catalog))
  }

  /** A changed number that some row of the same organization already carries. */
  predicate NumberClash(w: World, e: Edit)
    requires e.id in w.rows
  {
    var target := w.rows[e.id];
    var organization := if e.organization != "" then e.organization else target.organization;
    && e.number.Some? && e.number.value != target.number.GetOr("")
    && exists id | id in w.rows :: w.rows[id].organization == organization && w.rows[id].number == e.number
  }

  function Update(w: World, edits: seq<Edit>, catalog: Catalog, fault: Fault): Step {
    if exists i :: 0 <= i < |edits| && edits[i].id !in w.rows then Step(w, Failed(NotFound))
    else
      var refusal := UpdateRefusal(w, edits, catalog);
      if refusal.Some? then Step(w, Failed(refusal.value))
      else if exists i :: 0 <= i < |edits| && NumberClash(w, edits[i]) then Step(w, Failed(NumberDuplicate))
      else UpdateWrite(w, edits, fault)
  }

  function UpdateWrite(w: World, edits: seq<Edit>, fault: Fault): Step {
    var rows := UpdateRows(w.rows, EditPatches(edits), w.clock);
    if fault != NoFault || !SchemaHolds(rows, w.users) then Step(w, Failed(Internal)) else Step(w.(rows := rows), Done)
  }

  // ----- Extraction: re-extract and the worker's stamps -----

  predicate AllFailed(targets: seq<Credential>) {
    forall i :: 0 <= i < |targets| ==> ExtractStateOf(targets[i]) == ExtractFailed && targets[i].fileUri.Some?
  }

  /** ClearExtractOutcome: a fresh attempt, the previous result set to NULL. */
  function Cleared(c: Credential, now: Time): Credential {
    c.(extractEnqueuedAt := Some(Stored(now)), extractedAt := None, extractFailedAt := None,
       extractError := None, updatedAt := Some(Stored(now)))
  }

  function ClearOutcome(rows: Rows, order: seq<Id>, now: Time): Rows {
    map id | id in rows :: if id in order then Cleared(rows[id], now) else rows[id]
  }

  function FailureStamp(c: Credential, now: Time, message: string): Credential {
    Blank(c.id).(extractFailedAt := Some(now), extractError := Some(c.extractError.GetOr(message)))
  }

  /** The reset commits first; a failed enqueue then re-stamps its row and keeps the earlier jobs. */
  function ReExtract(w: World, ids: seq<Id>, order: seq<Id>, fault: Fault): Step
    requires IsScan(order, ids, w.rows)
  {
    if SomeMissing(ids, w.rows) then Step(w, Failed(NotFound))
    else if !AllFailed(Fetch(w.rows, order)) then Step(w, Failed(NotEligible))
    else if fault == StoreFails || fault == CommitFails then Step(w, Failed(Internal))
    else ReEnqueue(w, ClearOutcome(w.rows, order, w.clock), order, fault)
  }

  const REENQUEUE_FAILED := "reenqueue failed"

  /** After the reset committed as `rows`. */
  function ReEnqueue(w: World, rows: Rows, order: seq<Id>, fault: Fault): Step
    requires forall id :: id in order ==> id in w.rows
  {
    if fault.RestampFails? && fault.at < |order| then
      Step(w.(rows := rows, jobs := w.jobs + order[..fault.at]), Failed(Internal))
    else if fault.EnqueueFails? && fault.at < |order| then
      var stamp := FailureStamp(w.rows[order[fault.at]], w.clock, REENQUEUE_FAILED);
      Step(w.(rows := UpdateRows(rows, [stamp], w.clock), jobs := w.jobs + order[..fault.at]), Failed(Internal))
    else Step(w.(rows := rows, jobs := w.jobs + order), Done)
  }

  function Extracted(id: Id, now: Time): Credential {
    Blank(id).(extractedAt := Some(now))
  }

  function ExtractionFailed(id: Id, now: Time, message: string): Credential {
    Blank(id).(extractFailedAt := Some(now), extractError := Some(message))
  }

  // ----- The machine -----

  /** Everything that moves the world: requests with what the environment does to them, the
      extraction worker's stamps, accounts and the clock. */
  datatype Action =
    | DoApprove(ids: seq<Id>, order: seq<Id>, actor: Id, usable: set<Id>, fault: Fault)
    | DoReject(ids: seq<Id>, order: seq<Id>, actor: Id, reasons: map<Id, string>, fault: Fault)
    | DoRevoke(ids: seq<Id>, order: seq<Id>, actor: Id, grounds: map<Id, Option<string>>, blockTime: nat, fault: Fault)
    | DoIssue(items: seq<Item>, newIds: seq<Id>, uris: seq<string>, actor: Id, catalog: Catalog, fault: Fault)
    | DoSubmit(items: seq<Item>, newIds: seq<Id>, uris: seq<string>, actor: Id, catalog: Catalog, fault: Fault)
    | DoUpdate(edits: seq<Edit>, catalog: Catalog, fault: Fault)
    | DoReExtract(ids: seq<Id>, order: seq<Id>, fault: Fault)
    | WorkerStamp(stamp: Credential)
    | Accounts(users: Users)
    | Tick(now: Time)

  /** What the worker may write: success, or failure with its message. */
  predicate IsStamp(p: Credential, now: Time) {
    p == Extracted(p.id, now) || (p.extractError.Some? && p == ExtractionFailed(p.id, now, p.extractError.value))
  }

  /** Accounts are added and trashed; none disappears and none changes its wallet. */
  ghost predicate UsersGrow(users: Users, users': Users) {
    && "" !in users'
    && forall id :: id in users ==> id in users' && users'[id].address == users[id].address
                                    && users'[id].walletValid == users[id].walletValid
  }

  /** What the environment guarantees: a scan returns the rows asked for, the caller is an account,
      uploads get an id and a path each, and time does not run backwards. */
  ghost predicate Enabled(w: World, a: Action) {
    match a
    case DoApprove(ids, order, actor, _, _) => IsScan(order, ids, w.rows) && actor in w.users
    case DoReject(ids, order, _, _, _) => IsScan(order, ids, w.rows)
    case DoRevoke(ids, order, _, _, _, _) => IsScan(order, ids, w.rows)
    case DoIssue(items, newIds, uris, _, _, _) => |newIds| == |items| && |uris| == |items|
    case DoSubmit(items, newIds, uris, _, _, _) => |newIds| == |items| && |uris| == |items|
    case DoUpdate(_, _, _) => true
    case DoReExtract(ids, order, _) => IsScan(order, ids, w.rows)
    case WorkerStamp(stamp) => IsStamp(stamp, w.clock)
    case Accounts(users) => UsersGrow(w.users, users)
    case Tick(now) => now >= w.clock
  }

  ghost function Do(w: World, a: Action): Step
    requires Enabled(w, a)
  {
    match a
    case DoApprove(ids, order, actor, usable, fault) => Approve(w, ids, order, actor, usable, fault)
    case DoReject(ids, order, actor, reasons, fault) => Reject(w, ids, order, actor, reasons, fault)
    case DoRevoke(ids, order, actor, grounds, blockTime, fault) =>
      Revoke(w, ids, order, actor, grounds, blockTime, fault)
    case DoIssue(items, newIds, uris, actor, catalog, fault) => Issue(w, items, newIds, uris, actor, catalog, fault)
    case DoSubmit(items, newIds, uris, actor, catalog, fault) => Submit(w, items, newIds, uris, actor, catalog, fault)
    case DoUpdate(edits, catalog, fault) => Update(w, edits, catalog, fault)
    case DoReExtract(ids, order, fault) => ReExtract(w, ids, order, fault)
    case WorkerStamp(stamp) => Step(w.(rows := UpdateRows(w.rows, [stamp], w.clock)), Done)
    case Accounts(users) => Step(w.(users := users), Done)
    case Tick(now) => Step(w.(clock := now), Done)
  }

  /** A run; an action that is not enabled does not happen. */
  ghost function Run(w: World, actions: seq<Action>): World {
    if actions == [] then w
    else
      var w' := Run(w, actions[..|actions| - 1]);
      var a := actions[|actions| - 1];
      if Enabled(w', a) then Do(w', a).world else w'
  }

  /** An empty database over any registry that keeps its own rules. */
  ghost predicate Initial(w: World) {
    w.rows == map[] && w.notes == map[] && R.Sound(w.chain) && "" !in w.users
  }
}
