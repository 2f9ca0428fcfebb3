/** The credential row, the states derived from its timestamps, and the nil-means-skip update of
    the credential repository, shown to be what the batched statement does to the table. */
module Credentials {
  import opened Base
  import Sql = CaseSql

  datatype Credential = Credential(
    id: Id,
    holder: Id,
    submitter: Id,
    issuer: Option<Id>,
    organization: Id,
    kind: Id,
    number: Option<string>,
    name: string,
    meta: Option<string>,
    tokenId: Option<TokenId>,
    fileHash: Ascii,
    fileUri: Option<string>,
    issuedAt: Time,
    expiresAt: Option<Time>,
    activatedAt: Option<Time>,
    rejectedAt: Option<Time>,
    rejecter: Option<Id>,
    rejectionReason: Option<string>,
    revokedAt: Option<Time>,
    revoker: Option<Id>,
    revocationReason: Option<string>,
    extractEnqueuedAt: Option<Time>,
    extractedAt: Option<Time>,
    extractFailedAt: Option<Time>,
    extractError: Option<string>,
    updatedAt: Option<Time>
  )

  /** Go's zero time, 0001-01-01T00:00:00Z. */
  const ZERO_TIME: Time := -62135596800 * 1_000_000_000

  /** The struct that a partial update starts from: an id, every other field zero. */
  function Blank(id: Id): Credential {
    Credential(id, "", "", None, "", "", None, "", None, None, "", None, ZERO_TIME, None, None,
               None, None, None, None, None, None, None, None, None, None, None)
  }

  // ----- Derived states (domain/credential.go) -----

  datatype Status = Pending | Approved | Rejected | Revoked | Expired

  predicate Lapsed(c: Credential, now: Time) {
    c.expiresAt.Some? && c.expiresAt.value <= now
  }

  function StatusOf(c: Credential, now: Time): Status {
    if c.revokedAt.Some? then Revoked
    else if c.rejectedAt.Some? then Rejected
    else if Lapsed(c, now) then Expired
    else if c.activatedAt.Some? then Approved
    else Pending
  }

  datatype ExtractState = ExtractPending | ExtractSucceeded | ExtractFailed | Unextracted

  function ExtractStateOf(c: Credential): ExtractState {
    if c.extractFailedAt.Some? then ExtractFailed
    else if c.extractedAt.Some? then ExtractSucceeded
    else if c.extractEnqueuedAt.Some? then ExtractPending
    else Unextracted
  }

  // ----- Postgres timestamps and chain seconds -----

  /** A timestamptz keeps microseconds; the driver truncates. */
  function Stored(t: Time): (r: Time)
    ensures r % 1000 == 0 && r <= t < r + 1000
    ensures t % 1000 == 0 ==> r == t
  {
    t - t % 1000
  }

  function StoredOption(t: Option<Time>): Option<Time> {
    match t case Some(v) => Some(Stored(v)) case None => None
  }

  const U64: int := 0x1_0000_0000_0000_0000

  /** credentialIssuedAtToChain: whole seconds, floored, converted to uint64 with wrap-around. */
  function IssuedAtToChain(t: Time): nat {
    if t == ZERO_TIME then 0 else (t / 1_000_000_000) % U64
  }

  function ExpiresAtToChain(t: Option<Time>): nat {
    match t case None => 0 case Some(v) => (v / 1_000_000_000) % U64
  }

  function NumberToChain(n: Option<string>): string {
    n.GetOr("")
  }

  /** Truncating to microseconds never moves a timestamp into another second, so the value written
      to the chain before the row is stored is the value computed from the row read back. */
  lemma {:induction false} StoredKeepsSeconds(t: Time)
    ensures Stored(t) / 1_000_000_000 == t / 1_000_000_000
    ensures Stored(Stored(t)) == Stored(t)
  {
    var q := t / 1000;
    assert Stored(t) == q * 1000;
    assert t == q * 1000 + t % 1000;
    var s := t / 1_000_000_000;
    assert q / 1_000_000 == s;
  }

  // ----- The repository (gorm_credential_repository.go) -----

  type Rows = map<Id, Credential>

  /** One record of an Update batch on one row: zero-valued fields leave the row alone. The
      statement has no clause for revocation_reason, holder_user_id or file_hash. */
  function ApplyPatch(row: Credential, p: Credential): Credential {
    row.(
      name := if p.name != "" then p.name else row.name,
      number := p.number.Or(row.number),
      submitter := if p.submitter != "" then p.submitter else row.submitter,
      issuer := if p.issuer.Some? && p.issuer.value != "" then p.issuer else row.issuer,
      organization := if p.organization != "" then p.organization else row.organization,
      kind := if p.kind != "" then p.kind else row.kind,
      expiresAt := StoredOption(p.expiresAt).Or(row.expiresAt),
      issuedAt := if p.issuedAt != ZERO_TIME then Stored(p.issuedAt) else row.issuedAt,
      activatedAt := StoredOption(p.activatedAt).Or(row.activatedAt),
      rejecter := p.rejecter.Or(row.rejecter),
      rejectedAt := StoredOption(p.rejectedAt).Or(row.rejectedAt),
      rejectionReason := p.rejectionReason.Or(row.rejectionReason),
      meta := p.meta.Or(row.meta),
      tokenId := p.tokenId.Or(row.tokenId),
      fileUri := p.fileUri.Or(row.fileUri),
      revokedAt := StoredOption(p.revokedAt).Or(row.revokedAt),
      revoker := p.revoker.Or(row.revoker),
      extractEnqueuedAt := StoredOption(p.extractEnqueuedAt).Or(row.extractEnqueuedAt),
      extractFailedAt := StoredOption(p.extractFailedAt).Or(row.extractFailedAt),
      extractError := p.extractError.Or(row.extractError),
      extractedAt := StoredOption(p.extractedAt).Or(row.extractedAt)
    )
  }

  /** A whole batch on one row. Where two records share the id the earlier one wins, column by column. */
  function PatchRow(row: Credential, batch: seq<Credential>): Credential {
    if batch == [] then row
    else if batch[0].id == row.id then ApplyPatch(PatchRow(row, batch[1..]), batch[0])
    else PatchRow(row, batch[1..])
  }

  predicate Names(batch: seq<Credential>, id: Id) {
    exists i :: 0 <= i < |batch| && batch[i].id == id
  }

  /** Update on the table, stamping updated_at on every row the batch names. */
  function UpdateRows(rows: Rows, batch: seq<Credential>, now: Time): Rows {
    if ProvidesNothing(batch) then rows
    else (map id | id in rows :: Touched(rows[id], batch, now))
  }

  function Touched(row: Credential, batch: seq<Credential>, now: Time): Credential {
    if Names(batch, row.id) then PatchRow(row, batch).(updatedAt := Some(Stored(now))) else row
  }

  predicate ProvidesNothing(batch: seq<Credential>) {
    forall i :: 0 <= i < |batch| ==> Provided(batch[i]) == map[]
  }

  // ----- The same update as cells -----

  const COLUMNS: seq<Sql.Column> := [
    Sql.NAME, Sql.NUMBER, Sql.SUBMITTER_USER_ID, Sql.ISSUER_USER_ID, Sql.ISSUER_ORGANIZATION_ID, Sql.TYPE_ID,
    Sql.EXPIRES_AT, Sql.ISSUED_AT, Sql.ACTIVATED_AT, Sql.REJECTER_USER_ID, Sql.REJECTED_AT, Sql.REJECTION_REASON,
    Sql.META, Sql.TOKEN_ID, Sql.FILE_URI, Sql.REVOKED_AT, Sql.REVOKER_USER_ID, Sql.EXTRACT_ENQUEUED_AT,
    Sql.EXTRACT_FAILED_AT, Sql.EXTRACT_ERROR, Sql.EXTRACTED_AT]

  function TextCell(t: Option<string>): Sql.Cell {
    match t case Some(v) => Sql.Text(v) case None => Sql.Null
  }

  function TimeCell(t: Option<Time>): Sql.Cell {
    match t case Some(v) => Sql.Instant(Stored(v)) case None => Sql.Null
  }

  /** What a column of a stored row holds. */
  function CellOf(c: Credential, col: Sql.Column): Sql.Cell {
    match col
    case ID => Sql.Text(c.id)
    case HOLDER_USER_ID => Sql.Text(c.holder)
    case FILE_HASH => Sql.Text(c.fileHash)
    case REVOCATION_REASON => TextCell(c.revocationReason)
    case UPDATED_AT => TimeCell(c.updatedAt)
    case NAME => Sql.Text(c.name)
    case NUMBER => TextCell(c.number)
    case SUBMITTER_USER_ID => Sql.Text(c.submitter)
    case ISSUER_USER_ID => TextCell(c.issuer)
    case ISSUER_ORGANIZATION_ID => Sql.Text(c.organization)
    case TYPE_ID => Sql.Text(c.kind)
    case EXPIRES_AT => TimeCell(c.expiresAt)
    case ISSUED_AT => Sql.Instant(Stored(c.issuedAt))
    case ACTIVATED_AT => TimeCell(c.activatedAt)
    case REJECTER_USER_ID => TextCell(c.rejecter)
    case REJECTED_AT => TimeCell(c.rejectedAt)
    case REJECTION_REASON => TextCell(c.rejectionReason)
    case META => TextCell(c.meta)
    case TOKEN_ID => (match c.tokenId case Some(t) => Sql.Digest(t) case None => Sql.Null)
    case FILE_URI => TextCell(c.fileUri)
    case REVOKED_AT => TimeCell(c.revokedAt)
    case REVOKER_USER_ID => TextCell(c.revoker)
    case EXTRACT_ENQUEUED_AT => TimeCell(c.extractEnqueuedAt)
    case EXTRACT_FAILED_AT => TimeCell(c.extractFailedAt)
    case EXTRACT_ERROR => TextCell(c.extractError)
    case EXTRACTED_AT => TimeCell(c.extractedAt)
    case _ => Sql.Null
  }

  /** Whether `getValue` of the column yields a value for this record. */
  predicate HasColumn(p: Credential, col: Sql.Column) {
    match col
    case NAME => p.name != ""
    case SUBMITTER_USER_ID => p.submitter != ""
    case ISSUER_USER_ID => p.issuer.Some? && p.issuer.value != ""
    case ISSUER_ORGANIZATION_ID => p.organization != ""
    case TYPE_ID => p.kind != ""
    case ISSUED_AT => p.issuedAt != ZERO_TIME
    case ID => false
    case HOLDER_USER_ID => false
    case FILE_HASH => false
    case REVOCATION_REASON => false
    case UPDATED_AT => false
    case _ => CellOf(p, col) != Sql.Null
  }

  function Provided(p: Credential): map<Sql.Column, Sql.Cell> {
    map col | col in COLUMNS && HasColumn(p, col) :: CellOf(p, col)
  }

  function Patches(batch: seq<Credential>): seq<Sql.Patch> {
    seq(|batch|, i requires 0 <= i < |batch| => Sql.Patch(batch[i].id, Provided(batch[i])))
  }

  const ALL_COLUMNS: seq<Sql.Column> :=
    COLUMNS + [Sql.ID, Sql.HOLDER_USER_ID, Sql.FILE_HASH, Sql.REVOCATION_REASON, Sql.UPDATED_AT]

  function Encode(c: Credential): Sql.Cells {
    map col | col in ALL_COLUMNS :: CellOf(c, col)
  }

  function EncodeTable(rows: Rows): Sql.Table {
    map id | id in rows :: Encode(rows[id])
  }

  // ----- Reading a stored row back -----

  function TextOf(cell: Sql.Cell): string {
    if cell.Text? then cell.text else ""
  }

  function MaybeText(cell: Sql.Cell): Option<string> {
    if cell.Text? then Some(cell.text) else None
  }

  function MaybeTime(cell: Sql.Cell): Option<Time> {
    if cell.Instant? then Some(cell.at) else None
  }

  /** The columns of a stored row, as Encode writes them. */
  function Columns(c: Credential): Sql.Column -> Sql.Cell {
    (col: Sql.Column) => CellOf(c, col)
  }

  /** The row a reader makes of a row's columns. */
  function Decode(cells: Sql.Column -> Sql.Cell): Credential
  {
    Credential(
      id := TextOf(cells(Sql.ID)), holder := TextOf(cells(Sql.HOLDER_USER_ID)),
      submitter := TextOf(cells(Sql.SUBMITTER_USER_ID)), issuer := MaybeText(cells(Sql.ISSUER_USER_ID)),
      organization := TextOf(cells(Sql.ISSUER_ORGANIZATION_ID)), kind := TextOf(cells(Sql.TYPE_ID)),
      number := MaybeText(cells(Sql.NUMBER)), name := TextOf(cells(Sql.NAME)), meta := MaybeText(cells(Sql.META)),
      tokenId := if cells(Sql.TOKEN_ID).Digest? then Some(cells(Sql.TOKEN_ID).token) else None,
      fileHash := AsciiOf(TextOf(cells(Sql.FILE_HASH))), fileUri := MaybeText(cells(Sql.FILE_URI)),
      issuedAt := MaybeTime(cells(Sql.ISSUED_AT)).GetOr(0), expiresAt := MaybeTime(cells(Sql.EXPIRES_AT)),
      activatedAt := MaybeTime(cells(Sql.ACTIVATED_AT)), rejectedAt := MaybeTime(cells(Sql.REJECTED_AT)),
      rejecter := MaybeText(cells(Sql.REJECTER_USER_ID)), rejectionReason := MaybeText(cells(Sql.REJECTION_REASON)),
      revokedAt := MaybeTime(cells(Sql.REVOKED_AT)), revoker := MaybeText(cells(Sql.REVOKER_USER_ID)),
      revocationReason := MaybeText(cells(Sql.REVOCATION_REASON)),
      extractEnqueuedAt := MaybeTime(cells(Sql.EXTRACT_ENQUEUED_AT)), extractedAt := MaybeTime(cells(Sql.EXTRACTED_AT)),
      extractFailedAt := MaybeTime(cells(Sql.EXTRACT_FAILED_AT)), extractError := MaybeText(cells(Sql.EXTRACT_ERROR)),
      updatedAt := MaybeTime(cells(Sql.UPDATED_AT)))
  }

  function AsciiOf(s: string): Ascii {
    if forall i :: 0 <= i < |s| ==> (s[i] as int) < 128 then s else ""
  }

  predicate WholeMicros(t: Option<Time>) {
    t.Some? ==> t.value % 1000 == 0
  }

  lemma {:induction false} MaybeTimeBack(t: Option<Time>)
    requires WholeMicros(t)
    ensures MaybeTime(TimeCell(t)) == t
  {
  }

  lemma {:induction false} MaybeTextBack(t: Option<string>)
    ensures MaybeText(TextCell(t)) == t
  {
  }

  predicate TimesWhole(c: Credential) {
    && c.issuedAt % 1000 == 0 && WholeMicros(c.expiresAt) && WholeMicros(c.activatedAt) && WholeMicros(c.rejectedAt)
    && WholeMicros(c.revokedAt) && WholeMicros(c.extractEnqueuedAt) && WholeMicros(c.extractedAt)
    && WholeMicros(c.extractFailedAt) && WholeMicros(c.updatedAt)
  }

  /** Which columns hold which fields. */
  predicate NamesHold(cells: Sql.Column -> Sql.Cell, c: Credential)
  {
    && TextOf(cells(Sql.ID)) == c.id && TextOf(cells(Sql.HOLDER_USER_ID)) == c.holder
    && TextOf(cells(Sql.SUBMITTER_USER_ID)) == c.submitter
    && TextOf(cells(Sql.ISSUER_ORGANIZATION_ID)) == c.organization && TextOf(cells(Sql.TYPE_ID)) == c.kind
    && TextOf(cells(Sql.NAME)) == c.name
  }

  predicate TextsHold(cells: Sql.Column -> Sql.Cell, c: Credential)
  {
    && MaybeText(cells(Sql.ISSUER_USER_ID)) == c.issuer && MaybeText(cells(Sql.NUMBER)) == c.number
    && MaybeText(cells(Sql.META)) == c.meta && MaybeText(cells(Sql.FILE_URI)) == c.fileUri
    && MaybeText(cells(Sql.REJECTER_USER_ID)) == c.rejecter
  }

  predicate ReasonsHold(cells: Sql.Column -> Sql.Cell, c: Credential)
  {
    && MaybeText(cells(Sql.REJECTION_REASON)) == c.rejectionReason
    && MaybeText(cells(Sql.REVOKER_USER_ID)) == c.revoker
    && MaybeText(cells(Sql.REVOCATION_REASON)) == c.revocationReason
    && MaybeText(cells(Sql.EXTRACT_ERROR)) == c.extractError
  }

  predicate ReviewsHold(cells: Sql.Column -> Sql.Cell, c: Credential)
  {
    && MaybeTime(cells(Sql.EXPIRES_AT)) == c.expiresAt && MaybeTime(cells(Sql.ACTIVATED_AT)) == c.activatedAt
    && MaybeTime(cells(Sql.REJECTED_AT)) == c.rejectedAt && MaybeTime(cells(Sql.REVOKED_AT)) == c.revokedAt
  }

  predicate StampsHold(cells: Sql.Column -> Sql.Cell, c: Credential)
  {
    && MaybeTime(cells(Sql.EXTRACT_ENQUEUED_AT)) == c.extractEnqueuedAt
    && MaybeTime(cells(Sql.EXTRACTED_AT)) == c.extractedAt
    && MaybeTime(cells(Sql.EXTRACT_FAILED_AT)) == c.extractFailedAt
    && MaybeTime(cells(Sql.UPDATED_AT)) == c.updatedAt
  }

  predicate RestHold(cells: Sql.Column -> Sql.Cell, c: Credential)
  {
    && TextOf(cells(Sql.FILE_HASH)) == c.fileHash && MaybeTime(cells(Sql.ISSUED_AT)) == Some(c.issuedAt)
    && (if c.tokenId == None then cells(Sql.TOKEN_ID) == Sql.Null
        else cells(Sql.TOKEN_ID) == Sql.Digest(c.tokenId.value))
  }

  lemma {:induction false} NamesWritten(c: Credential)
    ensures NamesHold(Columns(c), c)
  {
  }

  lemma {:induction false} TextsWritten(c: Credential)
    ensures TextsHold(Columns(c), c)
  {
    MaybeTextBack(c.issuer);
    MaybeTextBack(c.number);
    MaybeTextBack(c.meta);
    MaybeTextBack(c.fileUri);
    MaybeTextBack(c.rejecter);
  }

  lemma {:induction false} ReasonsWritten(c: Credential)
    ensures ReasonsHold(Columns(c), c)
  {
    MaybeTextBack(c.rejectionReason);
    MaybeTextBack(c.revoker);
    MaybeTextBack(c.revocationReason);
    MaybeTextBack(c.extractError);
  }

  lemma {:induction false} ReviewsWritten(c: Credential)
    requires TimesWhole(c)
    ensures ReviewsHold(Columns(c), c)
  {
    MaybeTimeBack(c.expiresAt);
    MaybeTimeBack(c.activatedAt);
    MaybeTimeBack(c.rejectedAt);
    MaybeTimeBack(c.revokedAt);
  }

  lemma {:induction false} StampsWritten(c: Credential)
    requires TimesWhole(c)
    ensures StampsHold(Columns(c), c)
  {
    MaybeTimeBack(c.extractEnqueuedAt);
    MaybeTimeBack(c.extractedAt);
    MaybeTimeBack(c.extractFailedAt);
    MaybeTimeBack(c.updatedAt);
  }

  lemma {:induction false} RestWritten(c: Credential)
    requires TimesWhole(c)
    ensures RestHold(Columns(c), c)
  {
  }

  lemma {:induction false} DecodeIs(cells: Sql.Column -> Sql.Cell, c: Credential)
    requires NamesHold(cells, c) && TextsHold(cells, c) && ReasonsHold(cells, c) && ReviewsHold(cells, c)
    requires StampsHold(cells, c) && RestHold(cells, c)
    ensures Decode(cells) == c
  {
  }

  /** A row whose timestamps are whole microseconds, as every stored row's are, is read back from its
      columns exactly: no two fields share a column and none is lost. */
  lemma {:induction false} RowReadsBack(c: Credential)
    requires TimesWhole(c)
    ensures Decode(Columns(c)) == c && forall col :: col in ALL_COLUMNS ==> Encode(c)[col] == Columns(c)(col)
  {
    NamesWritten(c);
    TextsWritten(c);
    ReasonsWritten(c);
    ReviewsWritten(c);
    StampsWritten(c);
    RestWritten(c);
    DecodeIs(Columns(c), c);
  }

  /** Rows are stored under their own id. */
  ghost predicate Keyed(rows: Rows) {
    forall id :: id in rows ==> rows[id].id == id
  }

  lemma {:induction false} ApplyPatchCell(row: Credential, p: Credential, col: Sql.Column)
    ensures CellOf(ApplyPatch(row, p), col)
         == if col in Provided(p) then Provided(p)[col] else CellOf(row, col)
  {
    if col in COLUMNS {
      ApplyPatchColumn(row, p, col);
    } else {
      assert col !in Provided(p);
    }
  }

  lemma {:induction false} ApplyPatchColumn(row: Credential, p: Credential, col: Sql.Column)
    ensures CellOf(ApplyPatch(row, p), col) == if HasColumn(p, col) then CellOf(p, col) else CellOf(row, col)
  {
    match col
    case NAME =>
    case NUMBER =>
    case EXPIRES_AT =>
    case ISSUED_AT =>
    case TOKEN_ID =>
    case _ =>
  }

  lemma {:induction false} PatchesTail(batch: seq<Credential>)
    requires batch != []
    ensures Patches(batch)[1..] == Patches(batch[1..])
    ensures Patches(batch)[0] == Sql.Patch(batch[0].id, Provided(batch[0]))
  {
  }

  lemma {:induction false} PatchRowCell(row: Credential, batch: seq<Credential>, col: Sql.Column)
    ensures PatchRow(row, batch).id == row.id
    ensures CellOf(PatchRow(row, batch), col) == Sql.FirstProvided(Patches(batch), row.id, col).GetOr(CellOf(row, col))
  {
    if batch != [] {
      PatchRowCell(row, batch[1..], col);
      PatchesTail(batch);
      ApplyPatchCell(PatchRow(row, batch[1..]), batch[0], col);
    }
  }

  lemma {:induction false} ColumnsDistinct()
    ensures Distinct(COLUMNS) && Sql.UPDATED_AT !in COLUMNS && Sql.KEY !in COLUMNS
  {
  }

  lemma {:induction false} EncodeWellFormed(rows: Rows)
    requires Keyed(rows)
    ensures Sql.WellFormed(EncodeTable(rows), COLUMNS)
  {
  }

  lemma {:induction false} NamesMentions(batch: seq<Credential>, id: Id)
    ensures Names(batch, id) <==> Sql.Mentions(Patches(batch), id)
  {
    if Names(batch, id) {
      var i :| 0 <= i < |batch| && batch[i].id == id;
      assert Patches(batch)[i].id == id;
    }
    if Sql.Mentions(Patches(batch), id) {
      var i :| 0 <= i < |batch| && Patches(batch)[i].id == id;
      assert batch[i].id == id;
    }
  }

  lemma {:induction false} NothingToDo(batch: seq<Credential>)
    ensures ProvidesNothing(batch) <==> forall col | col in COLUMNS :: !Sql.Provides(Patches(batch), col)
  {
    if ProvidesNothing(batch) {
      forall col | col in COLUMNS ensures !Sql.Provides(Patches(batch), col) {
        forall i | 0 <= i < |batch| ensures col !in Patches(batch)[i].sets {
          assert Provided(batch[i]) == map[];
        }
      }
    } else {
      var i :| 0 <= i < |batch| && Provided(batch[i]) != map[];
      var col :| col in Provided(batch[i]);
      assert col in Patches(batch)[i].sets;
      assert Sql.Provides(Patches(batch), col);
    }
  }

  lemma {:induction false} RestampCell(row: Credential, at: Option<Time>, col: Sql.Column)
    ensures col != Sql.UPDATED_AT ==> CellOf(row.(updatedAt := at), col) == CellOf(row, col)
    ensures CellOf(row.(updatedAt := at), Sql.UPDATED_AT) == TimeCell(at)
  {
    match col
    case NAME =>
    case _ =>
  }

  lemma {:induction false} TouchedCell(row: Credential, batch: seq<Credential>, col: Sql.Column, now: Time)
    requires col in ALL_COLUMNS && Names(batch, row.id)
    ensures CellOf(Touched(row, batch, now), col)
         == Sql.PatchRow(Encode(row), Patches(batch), COLUMNS, row.id, Stored(now))[col]
  {
    PatchRowCell(row, batch, col);
    RestampCell(PatchRow(row, batch), Some(Stored(now)), col);
    if col !in COLUMNS && col != Sql.UPDATED_AT {
      UnlistedColumn(batch, row.id, col);
    }
  }

  lemma {:induction false} UnlistedColumn(batch: seq<Credential>, id: Id, col: Sql.Column)
    requires col !in COLUMNS
    ensures Sql.FirstProvided(Patches(batch), id, col) == None
  {
    if batch != [] {
      PatchesTail(batch);
      UnlistedColumn(batch[1..], id, col);
    }
  }

  /** The repository's update and the batched statement are the same change: running the statement
      on the encoded table encodes the table that UpdateRows describes. */
  lemma {:induction false} UpdateRowsIsTheStatement(rows: Rows, batch: seq<Credential>, now: Time)
    requires Keyed(rows)
    ensures Sql.Meaning(Sql.CompiledText("credentials", COLUMNS, Patches(batch)),
                        Sql.CompiledArgs(COLUMNS, Patches(batch)), EncodeTable(rows), Stored(now))
         == Some(EncodeTable(UpdateRows(rows, batch, now)))
  {
    ColumnsDistinct();
    EncodeWellFormed(rows);
    Sql.StatementPatchesRows("credentials", EncodeTable(rows), COLUMNS, Patches(batch), Stored(now));
    EncodeUpdated(rows, batch, now);
  }

  lemma {:induction false} EncodeUpdated(rows: Rows, batch: seq<Credential>, now: Time)
    requires Keyed(rows)
    ensures Sql.Patched(EncodeTable(rows), Patches(batch), COLUMNS, Stored(now))
       == EncodeTable(UpdateRows(rows, batch, now))
  {
    NothingToDo(batch);
    if !ProvidesNothing(batch) {
      forall id | id in rows
        ensures Encode(Touched(rows[id], batch, now))
             == if Sql.Mentions(Patches(batch), id)
                then Sql.PatchRow(Encode(rows[id]), Patches(batch), COLUMNS, id, Stored(now))
                else Encode(rows[id])
      {
        NamesMentions(batch, id);
        if Names(batch, id) {
          EncodeTouched(rows[id], batch, now);
        }
      }
    }
  }

  lemma {:induction false} EncodeTouched(row: Credential, batch: seq<Credential>, now: Time)
    requires Names(batch, row.id)
    ensures Encode(Touched(row, batch, now)) == Sql.PatchRow(Encode(row), Patches(batch), COLUMNS, row.id, Stored(now))
  {
    forall col | col in ALL_COLUMNS
      ensures CellOf(Touched(row, batch, now), col)
         == Sql.PatchRow(Encode(row), Patches(batch), COLUMNS, row.id, Stored(now))[col]
    {
      TouchedCell(row, batch, col, now);
    }
  }

  /** A field the statement has no clause for survives every update: in particular the reason given
      with a revocation is never written. */
  lemma {:induction false} UnlistedFieldsSurvive(row: Credential, batch: seq<Credential>)
    ensures var r := PatchRow(row, batch);
      r.revocationReason == row.revocationReason && r.holder == row.holder && r.fileHash == row.fileHash
      && r.id == row.id && r.updatedAt == row.updatedAt
  {
    if batch != [] {
      UnlistedFieldsSurvive(row, batch[1..]);
    }
  }
}
