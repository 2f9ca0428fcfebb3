/** What a committed rejection, revocation, edit or re-extraction leaves in every table, field by field. */
module RowEffects {
  import opened Base
  import opened Credentials
  import opened Payload
  import opened Lifecycle
  import opened LifecycleInvariant
  import opened LifecycleRuns
  import opened LostWork
  import opened Effects
  import R = Registry
  import Sql = CaseSql

  // ----- Reject -----

  /** A rejected row: by the actor, now, with the reason given for it or none. */
  predicate RejectedTo(c: Credential, c': Credential, actor: Id, reasons: map<Id, string>, now: Time) {
    c' == c.(rejecter := Some(actor), rejectedAt := Some(Stored(now)), updatedAt := Some(Stored(now)),
             rejectionReason := Some(if c.id in reasons then reasons[c.id] else ""))
  }

  lemma {:induction false} RejectionApplied(c: Credential, actor: Id, reasons: map<Id, string>, now: Time)
    ensures Provided(RejectionUpdate(c.id, now, actor, reasons)) != map[]
    ensures RejectedTo(c, ApplyPatch(c, RejectionUpdate(c.id, now, actor, reasons)).(updatedAt := Some(Stored(now))),
                       actor, reasons, now)
  {
    Provides(RejectionUpdate(c.id, now, actor, reasons), Sql.REJECTED_AT);
  }

  /** The next world of a committed rejection. */
  ghost predicate Rejects(w: World, w': World, order: seq<Id>, actor: Id, reasons: map<Id, string>) {
    && w' == w.(rows := w'.rows, notes := w'.notes) && OthersStay(w.rows, w'.rows, order)
    && (forall i :: 0 <= i < |order| ==> order[i] in w.rows && order[i] in w'.rows
                                         && RejectedTo(w.rows[order[i]], w'.rows[order[i]], actor, reasons, w.clock))
    && Told(w.notes, w'.notes, w'.rows, order, RejectedNote, w.clock)
  }

  lemma {:induction false} RejectedRows(rows: Rows, order: seq<Id>, actor: Id, reasons: map<Id, string>, now: Time)
    requires Keyed(rows) && ScanOf(order, rows)
    ensures var rows' := UpdateRows(rows, RejectionUpdates(Fetch(rows, order), now, actor, reasons), now);
      && OthersStay(rows, rows', order)
      && (forall i :: 0 <= i < |order| ==>
            order[i] in rows' && RejectedTo(rows[order[i]], rows'[order[i]], actor, reasons, now))
  {
    var batch := RejectionUpdates(Fetch(rows, order), now, actor, reasons);
    forall i | 0 <= i < |order|
      ensures batch[i].id == order[i] && Provided(batch[i]) != map[]
      ensures RejectedTo(rows[order[i]], ApplyPatch(rows[order[i]], batch[i]).(updatedAt := Some(Stored(now))),
                         actor, reasons, now)
    {
      RejectionApplied(rows[order[i]], actor, reasons, now);
    }
    OneEach(rows, order, batch, now);
  }

  lemma {:induction false} RejectWriteCommits(w: World, order: seq<Id>, actor: Id, reasons: map<Id, string>,
                                              fault: Fault)
    requires Inv(w) && ScanOf(order, w.rows) && RejectWrite(w, order, actor, reasons, fault).outcome == Done
    ensures Rejects(w, RejectWrite(w, order, actor, reasons, fault).world, order, actor, reasons)
  {
    RejectedRows(w.rows, order, actor, reasons, w.clock);
    TargetsTold(w, UpdateRows(w.rows, RejectionUpdates(Fetch(w.rows, order), w.clock, actor, reasons), w.clock), order,
                RejectedNote);
  }

  lemma {:induction false} RejectCommits(w: World, a: Action)
    requires Inv(w) && a.DoReject? && Enabled(w, a) && Do(w, a).outcome == Done
    ensures Rejects(w, Do(w, a).world, a.order, a.actor, a.reasons)
  {
    ScanIsScan(a.order, a.ids, w.rows);
    RejectWriteCommits(w, a.order, a.actor, a.reasons, a.fault);
  }

  // ----- Revoke -----

  /** A revoked row: by the actor, now. The reason given is not written. */
  predicate RevokedTo(c: Credential, c': Credential, actor: Id, now: Time) {
    c' == c.(revoker := Some(actor), revokedAt := Some(Stored(now)), updatedAt := Some(Stored(now)))
  }

  lemma {:induction false} RevocationApplied(c: Credential, actor: Id, grounds: map<Id, Option<string>>, now: Time)
    ensures Provided(RevocationUpdate(c.id, now, actor, grounds)) != map[]
    ensures RevokedTo(c, ApplyPatch(c, RevocationUpdate(c.id, now, actor, grounds)).(updatedAt := Some(Stored(now))),
                      actor, now)
  {
    Provides(RevocationUpdate(c.id, now, actor, grounds), Sql.REVOKED_AT);
  }

  /** Exactly the records of the listed rows are stamped with the block's time. */
  ghost predicate RecordsStamped(chain: R.Chain, chain': R.Chain, rows: Rows, order: seq<Id>, at: nat) {
    && chain'.records.Keys == chain.records.Keys
    && (forall t :: t in chain.records ==>
          chain'.records[t]
          == if TokenAmong(rows, order, t) then chain.records[t].(revokedAt := at) else chain.records[t])
  }

  /** The next world of a committed revocation. */
  ghost predicate Revokes(w: World, w': World, order: seq<Id>, actor: Id, blockTime: nat) {
    && w' == w.(rows := w'.rows, notes := w'.notes, chain := w'.chain) && OthersStay(w.rows, w'.rows, order)
    && (forall i :: 0 <= i < |order| ==> order[i] in w.rows && order[i] in w'.rows
                                         && RevokedTo(w.rows[order[i]], w'.rows[order[i]], actor, w.clock))
    && RecordsStamped(w.chain, w'.chain, w.rows, order, blockTime)
    && Told(w.notes, w'.notes, w'.rows, order, RevokedNote, w.clock)
  }

  lemma {:induction false} RevokedRowsAre(w: World, order: seq<Id>, actor: Id, grounds: map<Id, Option<string>>)
    requires Keyed(w.rows) && ScanOf(order, w.rows)
    ensures var rows' := RevokedRows(w, order, actor, grounds);
      && OthersStay(w.rows, rows', order)
      && (forall i :: 0 <= i < |order| ==>
            order[i] in rows' && RevokedTo(w.rows[order[i]], rows'[order[i]], actor, w.clock))
  {
    var batch := RevocationUpdates(Fetch(w.rows, order), w.clock, actor, grounds);
    forall i | 0 <= i < |order|
      ensures batch[i].id == order[i] && Provided(batch[i]) != map[]
      ensures RevokedTo(w.rows[order[i]],
                        ApplyPatch(w.rows[order[i]], batch[i]).(updatedAt := Some(Stored(w.clock))), actor, w.clock)
    {
      RevocationApplied(w.rows[order[i]], actor, grounds, w.clock);
    }
    OneEach(w.rows, order, batch, w.clock);
  }

  lemma {:induction false} TokensAmong(rows: Rows, order: seq<Id>, t: TokenId)
    requires ScanOf(order, rows)
    ensures t in TokensOf(Fetch(rows, order)) <==> TokenAmong(rows, order, t)
  {
    TokensAre(Fetch(rows, order));
    if TokenAmong(rows, order, t) {
      var i :| 0 <= i < |order| && rows[order[i]].tokenId == Some(t);
      assert Fetch(rows, order)[i].tokenId == Some(t);
    }
    if t in TokensOf(Fetch(rows, order)) {
      TokensOwned(rows, order, t);
    }
  }

  lemma {:induction false} CallDone(w: World, done: World, tokens: seq<TokenId>, revoker: Address, blockTime: nat,
                                    fault: Fault)
    requires tokens != []
    ensures var s := RevokeOnChain(w, done, tokens, revoker, blockTime, fault);
      s.outcome == Done ==>
        R.RevokeBatch(w.chain, revoker, tokens, blockTime) == Some(s.world.chain)
        && s.world == done.(chain := s.world.chain)
  {
  }

  lemma {:induction false} BatchStamps(w: World, chain': R.Chain, order: seq<Id>, revoker: Address, blockTime: nat)
    requires R.Sound(w.chain) && ScanOf(order, w.rows)
    requires R.RevokeBatch(w.chain, revoker, TokensOf(Fetch(w.rows, order)), blockTime) == Some(chain')
    ensures RecordsStamped(w.chain, chain', w.rows, order, blockTime)
  {
    var tokens := TokensOf(Fetch(w.rows, order));
    R.RevokeBatchStamps(w.chain, revoker, tokens, blockTime);
    forall t ensures t in tokens <==> TokenAmong(w.rows, order, t) {
      TokensAmong(w.rows, order, t);
    }
  }

  lemma {:induction false} CallStamps(w: World, done: World, order: seq<Id>, revoker: Address, blockTime: nat,
                                      fault: Fault)
    requires Inv(w) && ScanOf(order, w.rows) && order != []
    requires forall i :: 0 <= i < |order| ==> IsRevocable(w.rows[order[i]])
    ensures var s := RevokeOnChain(w, done, TokensOf(Fetch(w.rows, order)), revoker, blockTime, fault);
      s.outcome == Done ==>
        s.world == done.(chain := s.world.chain) && RecordsStamped(w.chain, s.world.chain, w.rows, order, blockTime)
  {
    var tokens := TokensOf(Fetch(w.rows, order));
    TargetsHaveTokens(w, order);
    CallDone(w, done, tokens, revoker, blockTime, fault);
    if RevokeOnChain(w, done, tokens, revoker, blockTime, fault).outcome == Done {
      BatchStamps(w, RevokeOnChain(w, done, tokens, revoker, blockTime, fault).world.chain, order, revoker, blockTime);
    }
  }

  lemma {:induction false} RevokeWriteCommits(w: World, order: seq<Id>, actor: Id, grounds: map<Id, Option<string>>,
                                              blockTime: nat, fault: Fault)
    requires Inv(w) && ScanOf(order, w.rows) && order != []
    requires forall i :: 0 <= i < |order| ==> IsRevocable(w.rows[order[i]])
    requires RevokeWrite(w, order, actor, grounds, blockTime, fault).outcome == Done
    ensures Revokes(w, RevokeWrite(w, order, actor, grounds, blockTime, fault).world, order, actor, blockTime)
  {
    var rows' := RevokedRows(w, order, actor, grounds);
    RevokedRowsAre(w, order, actor, grounds);
    TargetsTold(w, rows', order, RevokedNote);
    var done := w.(rows := rows', notes := RecordNotes(w.notes, Fetch(w.rows, order), RevokedNote, w.clock));
    CallStamps(w, done, order, AddressOf(w.users, actor), blockTime, fault);
  }

  lemma {:induction false} RevokeCommits(w: World, a: Action)
    requires Inv(w) && a.DoRevoke? && Enabled(w, a) && a.order != [] && Do(w, a).outcome == Done
    ensures Revokes(w, Do(w, a).world, a.order, a.actor, a.blockTime)
  {
    ScanIsScan(a.order, a.ids, w.rows);
    RevocableTargets(w.rows, a.order);
    RevokeWriteCommits(w, a.order, a.actor, a.grounds, a.blockTime, a.fault);
  }

  // ----- Update -----

  /** Of the edits that name a row, the first that gives a value decides; without one the row keeps its own. */
  ghost predicate FirstWins<V>(ids: seq<Id>, given: seq<Option<V>>, id: Id, before: V, after: V)
    requires |given| == |ids|
  {
    && (forall i :: 0 <= i < |ids| && Decides(ids, given, id, i) ==> after == given[i].value)
    && ((forall i :: 0 <= i < |ids| && ids[i] == id ==> given[i] == None) ==> after == before)
  }

  ghost predicate Decides<V>(ids: seq<Id>, given: seq<Option<V>>, id: Id, i: nat)
    requires i < |ids| == |given|
  {
    ids[i] == id && given[i].Some? && forall j :: 0 <= j < i && ids[j] == id ==> given[j] == None
  }

  lemma {:induction false} FirstWinsHead<V>(ids: seq<Id>, given: seq<Option<V>>, id: Id, before: V, mid: V, after: V)
    requires |given| == |ids| && ids != [] && FirstWins(ids[1..], given[1..], id, before, mid)
    requires after == if ids[0] == id && given[0].Some? then given[0].value else mid
    ensures FirstWins(ids, given, id, before, after)
  {
    forall i | 0 <= i < |ids| && Decides(ids, given, id, i) ensures after == given[i].value {
      if i > 0 {
        assert ids[1..][i - 1] == ids[i] && given[1..][i - 1] == given[i];
        assert Decides(ids[1..], given[1..], id, i - 1);
      }
    }
    if forall i :: 0 <= i < |ids| && ids[i] == id ==> given[i] == None {
      forall i | 0 <= i < |ids[1..]| && ids[1..][i] == id ensures given[1..][i] == None {
        assert ids[i + 1] == id;
      }
    }
  }

  function EditIds(edits: seq<Edit>): (r: seq<Id>)
    ensures |r| == |edits|
  {
    seq(|edits|, i requires 0 <= i < |edits| => edits[i].id)
  }

  function Given<V>(edits: seq<Edit>, field: Edit -> Option<V>): (r: seq<Option<V>>)
    ensures |r| == |edits|
  {
    seq(|edits|, i requires 0 <= i < |edits| => field(edits[i]))
  }

  function TextGiven(s: string): Option<string> {
    if s == "" then None else Some(s)
  }

  function NameOf(e: Edit): Option<string> {
    TextGiven(e.name)
  }

  function KindOf(e: Edit): Option<Id> {
    TextGiven(e.kind)
  }

  function OrganizationOf(e: Edit): Option<Id> {
    TextGiven(e.organization)
  }

  function NumberOf(e: Edit): Option<Option<string>> {
    if e.number == None then None else Some(e.number)
  }

  function MetaOf(e: Edit): Option<Option<string>> {
    if e.meta == None then None else Some(e.meta)
  }

  function IssuedAtOf(e: Edit): Option<Time> {
    if e.issuedAt == ZERO_TIME then None else Some(Stored(e.issuedAt))
  }

  function ExpiresAtOf(e: Edit): Option<Option<Time>> {
    if e.expiresAt == None then None else Some(Some(Stored(e.expiresAt.value)))
  }

  predicate GivesAnything(e: Edit) {
    || e.name != "" || e.kind != "" || e.organization != "" || e.number.Some? || e.meta.Some?
    || e.issuedAt != ZERO_TIME || e.expiresAt.Some?
  }

  /** An edited row: seven fields as the edits decide, every other field but the stamp as it was. */
  ghost predicate EditedTo(c: Credential, c': Credential, edits: seq<Edit>) {
    && FirstWins(EditIds(edits), Given(edits, NameOf), c.id, c.name, c'.name)
    && FirstWins(EditIds(edits), Given(edits, KindOf), c.id, c.kind, c'.kind)
    && FirstWins(EditIds(edits), Given(edits, OrganizationOf), c.id, c.organization, c'.organization)
    && FirstWins(EditIds(edits), Given(edits, NumberOf), c.id, c.number, c'.number)
    && FirstWins(EditIds(edits), Given(edits, MetaOf), c.id, c.meta, c'.meta)
    && FirstWins(EditIds(edits), Given(edits, IssuedAtOf), c.id, c.issuedAt, c'.issuedAt)
    && FirstWins(EditIds(edits), Given(edits, ExpiresAtOf), c.id, c.expiresAt, c'.expiresAt)
    && c' == c.(name := c'.name, kind := c'.kind, organization := c'.organization, number := c'.number, meta := c'.meta,
                issuedAt := c'.issuedAt, expiresAt := c'.expiresAt, updatedAt := c'.updatedAt)
  }

  lemma {:induction false} GivenTail<V>(edits: seq<Edit>, field: Edit -> Option<V>)
    requires edits != []
    ensures EditIds(edits)[1..] == EditIds(edits[1..]) && Given(edits, field)[1..] == Given(edits[1..], field)
  {
  }

  lemma {:induction false} FieldHead<V>(edits: seq<Edit>, field: Edit -> Option<V>, id: Id, before: V, mid: V, after: V)
    requires edits != [] && FirstWins(EditIds(edits[1..]), Given(edits[1..], field), id, before, mid)
    requires after == if edits[0].id == id && field(edits[0]).Some? then field(edits[0]).value else mid
    ensures FirstWins(EditIds(edits), Given(edits, field), id, before, after)
  {
    GivenTail(edits, field);
    FirstWinsHead(EditIds(edits), Given(edits, field), id, before, mid, after);
  }

  /** One edit applied on top. */
  predicate OnTop(c: Credential, c': Credential, e: Edit, here: bool) {
    && c'.name == (if here && NameOf(e).Some? then NameOf(e).value else c.name)
    && c'.kind == (if here && KindOf(e).Some? then KindOf(e).value else c.kind)
    && c'.organization == (if here && OrganizationOf(e).Some? then OrganizationOf(e).value else c.organization)
    && c'.number == (if here && NumberOf(e).Some? then NumberOf(e).value else c.number)
    && c'.meta == (if here && MetaOf(e).Some? then MetaOf(e).value else c.meta)
    && c'.issuedAt == (if here && IssuedAtOf(e).Some? then IssuedAtOf(e).value else c.issuedAt)
    && c'.expiresAt == (if here && ExpiresAtOf(e).Some? then ExpiresAtOf(e).value else c.expiresAt)
    && c' == c.(name := c'.name, kind := c'.kind, organization := c'.organization, number := c'.number, meta := c'.meta,
                issuedAt := c'.issuedAt, expiresAt := c'.expiresAt)
  }

  lemma {:induction false} PatchOnTop(c: Credential, e: Edit)
    ensures OnTop(c, ApplyPatch(c, EditPatch(e)), e, true)
  {
  }

  lemma {:induction false} EditedHead(c: Credential, mid: Credential, after: Credential, edits: seq<Edit>)
    requires edits != [] && EditedTo(c, mid, edits[1..]) && OnTop(mid, after, edits[0], edits[0].id == c.id)
    ensures EditedTo(c, after, edits)
  {
    FieldHead(edits, NameOf, c.id, c.name, mid.name, after.name);
    FieldHead(edits, KindOf, c.id, c.kind, mid.kind, after.kind);
    FieldHead(edits, OrganizationOf, c.id, c.organization, mid.organization, after.organization);
    FieldHead(edits, NumberOf, c.id, c.number, mid.number, after.number);
    FieldHead(edits, MetaOf, c.id, c.meta, mid.meta, after.meta);
    FieldHead(edits, IssuedAtOf, c.id, c.issuedAt, mid.issuedAt, after.issuedAt);
    FieldHead(edits, ExpiresAtOf, c.id, c.expiresAt, mid.expiresAt, after.expiresAt);
  }

  lemma {:induction false} EditPatchesTail(edits: seq<Edit>)
    requires edits != []
    ensures EditPatches(edits)[1..] == EditPatches(edits[1..]) && EditPatches(edits)[0] == EditPatch(edits[0])
    ensures EditPatch(edits[0]).id == edits[0].id
  {
  }

  lemma {:induction false} PatchedByEdits(c: Credential, edits: seq<Edit>)
    ensures PatchRow(c, EditPatches(edits)).id == c.id
    ensures EditedTo(c, PatchRow(c, EditPatches(edits)), edits)
  {
    if edits != [] {
      EditPatchesTail(edits);
      PatchedByEdits(c, edits[1..]);
      var mid := PatchRow(c, EditPatches(edits[1..]));
      PatchOnTop(mid, edits[0]);
      EditedHead(c, mid, PatchRow(c, EditPatches(edits)), edits);
    }
  }

  lemma {:induction false} NothingGiven(e: Edit)
    ensures Provided(EditPatch(e)) == map[] <==> !GivesAnything(e)
  {
    var p := EditPatch(e);
    if GivesAnything(e) {
      var col := if e.name != "" then Sql.NAME else if e.kind != "" then Sql.TYPE_ID
                 else if e.organization != "" then Sql.ISSUER_ORGANIZATION_ID else if e.number.Some? then Sql.NUMBER
                 else if e.meta.Some? then Sql.META else if e.issuedAt != ZERO_TIME then Sql.ISSUED_AT
                 else Sql.EXPIRES_AT;
      Provides(p, col);
    } else {
      forall col | col in COLUMNS ensures !HasColumn(p, col) {
      }
    }
  }

  lemma {:induction false} NoneDecides<V>(edits: seq<Edit>, field: Edit -> Option<V>, id: Id, own: V)
    requires forall i :: 0 <= i < |edits| && edits[i].id == id ==> field(edits[i]) == None
    ensures FirstWins(EditIds(edits), Given(edits, field), id, own, own)
  {
  }

  lemma {:induction false} SameIfNothing(c: Credential, edits: seq<Edit>)
    requires forall i :: 0 <= i < |edits| && edits[i].id == c.id ==> !GivesAnything(edits[i])
    ensures EditedTo(c, c, edits)
  {
    NoneDecides(edits, NameOf, c.id, c.name);
    NoneDecides(edits, KindOf, c.id, c.kind);
    NoneDecides(edits, OrganizationOf, c.id, c.organization);
    NoneDecides(edits, NumberOf, c.id, c.number);
    NoneDecides(edits, MetaOf, c.id, c.meta);
    NoneDecides(edits, IssuedAtOf, c.id, c.issuedAt);
    NoneDecides(edits, ExpiresAtOf, c.id, c.expiresAt);
  }

  predicate AnyGiven(edits: seq<Edit>) {
    exists i :: 0 <= i < |edits| && GivesAnything(edits[i])
  }

  predicate Edited(edits: seq<Edit>, id: Id) {
    exists i :: 0 <= i < |edits| && edits[i].id == id
  }

  /** The next world of a committed update: named rows edited and stamped, all others as they were. */
  ghost predicate Updates(w: World, w': World, edits: seq<Edit>) {
    && w' == w.(rows := w'.rows) && w'.rows.Keys == w.rows.Keys
    && (forall id :: id in w.rows ==> EditedTo(w.rows[id], w'.rows[id], edits))
    && (forall id :: id in w.rows && !(AnyGiven(edits) && Edited(edits, id)) ==> w'.rows[id] == w.rows[id])
    && (forall id :: id in w.rows && AnyGiven(edits) && Edited(edits, id) ==>
          w'.rows[id].updatedAt == Some(Stored(w.clock)))
  }

  lemma {:induction false} NothingProvided(edits: seq<Edit>)
    ensures ProvidesNothing(EditPatches(edits)) <==> !AnyGiven(edits)
  {
    forall i | 0 <= i < |edits| ensures Provided(EditPatches(edits)[i]) == map[] <==> !GivesAnything(edits[i]) {
      NothingGiven(edits[i]);
    }
  }

  lemma {:induction false} RestampEdited(c: Credential, c': Credential, edits: seq<Edit>, at: Option<Time>)
    requires EditedTo(c, c', edits)
    ensures EditedTo(c, c'.(updatedAt := at), edits)
  {
  }

  lemma {:induction false} EditsNamed(edits: seq<Edit>, id: Id)
    ensures Names(EditPatches(edits), id) <==> Edited(edits, id)
  {
    if Edited(edits, id) {
      var i :| 0 <= i < |edits| && edits[i].id == id;
      assert EditPatches(edits)[i].id == id;
    }
  }

  lemma {:induction false} TouchedByEdits(c: Credential, edits: seq<Edit>, now: Time)
    ensures EditedTo(c, Touched(c, EditPatches(edits), now), edits)
    ensures Edited(edits, c.id) ==> Touched(c, EditPatches(edits), now).updatedAt == Some(Stored(now))
    ensures !Edited(edits, c.id) ==> Touched(c, EditPatches(edits), now) == c
  {
    EditsNamed(edits, c.id);
    if Edited(edits, c.id) {
      PatchedByEdits(c, edits);
      RestampEdited(c, PatchRow(c, EditPatches(edits)), edits, Some(Stored(now)));
    } else {
      SameIfNothing(c, edits);
    }
  }

  /** Where the table of a committed update comes from. */
  ghost predicate RowsEdited(rows: Rows, rows': Rows, edits: seq<Edit>, now: Time) {
    rows'.Keys == rows.Keys && forall id :: id in rows ==> RowEdited(rows[id], rows'[id], edits, now)
  }

  ghost predicate RowEdited(c: Credential, c': Credential, edits: seq<Edit>, now: Time) {
    && EditedTo(c, c', edits)
    && (AnyGiven(edits) && Edited(edits, c.id) ==> c'.updatedAt == Some(Stored(now)))
    && (!(AnyGiven(edits) && Edited(edits, c.id)) ==> c' == c)
  }

  lemma {:induction false} RowIsEdited(c: Credential, edits: seq<Edit>, now: Time)
    ensures RowEdited(c, if AnyGiven(edits) then Touched(c, EditPatches(edits), now) else c, edits, now)
  {
    if AnyGiven(edits) {
      TouchedByEdits(c, edits, now);
    } else {
      SameIfNothing(c, edits);
    }
  }

  lemma {:induction false} RowsAreEdited(rows: Rows, edits: seq<Edit>, now: Time)
    ensures RowsEdited(rows, UpdateRows(rows, EditPatches(edits), now), edits, now)
  {
    NothingProvided(edits);
    forall id | id in rows ensures RowEdited(rows[id], UpdateRows(rows, EditPatches(edits), now)[id], edits, now) {
      RowIsEdited(rows[id], edits, now);
    }
  }

  lemma {:induction false} UpdateWriteCommits(w: World, edits: seq<Edit>, fault: Fault)
    requires Keyed(w.rows) && UpdateWrite(w, edits, fault).outcome == Done
    ensures Updates(w, UpdateWrite(w, edits, fault).world, edits)
  {
    RowsAreEdited(w.rows, edits, w.clock);
    var rows' := UpdateRows(w.rows, EditPatches(edits), w.clock);
    forall id | id in w.rows ensures RowEdited(w.rows[id], rows'[id], edits, w.clock) && w.rows[id].id == id {
    }
  }

  lemma {:induction false} UpdateCommits(w: World, a: Action)
    requires Inv(w) && a.DoUpdate? && Do(w, a).outcome == Done
    ensures Updates(w, Do(w, a).world, a.edits)
  {
    UpdateIsWrite(w, a.edits, a.catalog, a.fault);
    UpdateWriteCommits(w, a.edits, a.fault);
  }

  lemma {:induction false} UpdateIsWrite(w: World, edits: seq<Edit>, catalog: Catalog, fault: Fault)
    requires Update(w, edits, catalog, fault).outcome == Done
    ensures Update(w, edits, catalog, fault) == UpdateWrite(w, edits, fault)
  {
  }

  /** Every field is what the edit gives, and its own value where the edit gives none. */
  predicate OwnEdited(c: Credential, c': Credential, e: Edit) {
    c' == c.(name := if e.name != "" then e.name else c.name,
             kind := if e.kind != "" then e.kind else c.kind,
             organization := if e.organization != "" then e.organization else c.organization,
             number := if e.number.Some? then e.number else c.number,
             meta := if e.meta.Some? then e.meta else c.meta,
             issuedAt := if e.issuedAt != ZERO_TIME then Stored(e.issuedAt) else c.issuedAt,
             expiresAt := if e.expiresAt.Some? then Some(Stored(e.expiresAt.value)) else c.expiresAt,
             updatedAt := c'.updatedAt)
  }

  lemma {:induction false} OwnEdit(c: Credential, c': Credential, edits: seq<Edit>, k: nat)
    requires k < |edits| && edits[k].id == c.id && EditedTo(c, c', edits)
    requires forall i, j :: 0 <= i < j < |edits| ==> edits[i].id != edits[j].id
    ensures OwnEdited(c, c', edits[k])
  {
    OwnField(edits, NameOf, k, c.name, c'.name);
    OwnField(edits, KindOf, k, c.kind, c'.kind);
    OwnField(edits, OrganizationOf, k, c.organization, c'.organization);
    OwnField(edits, NumberOf, k, c.number, c'.number);
    OwnField(edits, MetaOf, k, c.meta, c'.meta);
    OwnField(edits, IssuedAtOf, k, c.issuedAt, c'.issuedAt);
    OwnField(edits, ExpiresAtOf, k, c.expiresAt, c'.expiresAt);
  }

  /** With distinct ids each named row has exactly what its own edit gives. */
  lemma {:induction false} OwnEditDecides(w: World, a: Action, k: nat)
    requires Inv(w) && a.DoUpdate? && Do(w, a).outcome == Done && k < |a.edits|
    requires forall i, j :: 0 <= i < j < |a.edits| ==> a.edits[i].id != a.edits[j].id
    ensures a.edits[k].id in w.rows && a.edits[k].id in Do(w, a).world.rows
    ensures OwnEdited(w.rows[a.edits[k].id], Do(w, a).world.rows[a.edits[k].id], a.edits[k])
  {
    UpdateCommits(w, a);
    assert a.edits[k].id in w.rows;
    assert w.rows[a.edits[k].id].id == a.edits[k].id;
    OwnEdit(w.rows[a.edits[k].id], Do(w, a).world.rows[a.edits[k].id], a.edits, k);
  }

  lemma {:induction false} OwnField<V>(edits: seq<Edit>, field: Edit -> Option<V>, k: nat, before: V, after: V)
    requires k < |edits| && forall i, j :: 0 <= i < j < |edits| ==> edits[i].id != edits[j].id
    requires FirstWins(EditIds(edits), Given(edits, field), edits[k].id, before, after)
    ensures after == if field(edits[k]).Some? then field(edits[k]).value else before
  {
    assert EditIds(edits)[k] == edits[k].id && Given(edits, field)[k] == field(edits[k]);
    if field(edits[k]).Some? {
      assert Decides(EditIds(edits), Given(edits, field), edits[k].id, k);
    }
  }

  // ----- ReExtract -----

  /** A row whose extraction starts afresh: pending, with no trace of the last attempt. */
  predicate Restarted(c: Credential, c': Credential, now: Time) {
    c' == c.(extractEnqueuedAt := Some(Stored(now)), extractedAt := None, extractFailedAt := None, extractError := None,
             updatedAt := Some(Stored(now)))
  }

  /** A restarted row whose job was refused: failed again, with its last error or the one that says so. */
  predicate Refailed(c: Credential, c': Credential, now: Time) {
    c' == c.(extractEnqueuedAt := Some(Stored(now)), extractedAt := None, extractFailedAt := Some(Stored(now)),
             extractError := Some(if c.extractError.Some? then c.extractError.value else "reenqueue failed"),
             updatedAt := Some(Stored(now)))
  }

  ghost predicate Restarts(rows: Rows, rows': Rows, order: seq<Id>, now: Time, refused: Option<Id>) {
    && OthersStay(rows, rows', order)
    && (forall i :: 0 <= i < |order| ==> order[i] in rows && order[i] in rows')
    && (forall i :: 0 <= i < |order| ==>
          if refused == Some(order[i]) then Refailed(rows[order[i]], rows'[order[i]], now)
          else Restarted(rows[order[i]], rows'[order[i]], now))
  }

  lemma {:induction false} ResetRestarts(rows: Rows, order: seq<Id>, now: Time)
    requires ScanOf(order, rows)
    ensures Restarts(rows, ClearOutcome(rows, order, now), order, now, None)
  {
  }

  lemma {:induction false} StampApplied(c: Credential, before: Credential, now: Time)
    requires before.id == c.id
    ensures Provided(FailureStamp(before, now, REENQUEUE_FAILED)) != map[]
    ensures ApplyPatch(c, FailureStamp(before, now, REENQUEUE_FAILED))
         == c.(extractFailedAt := Some(Stored(now)),
               extractError := Some(if before.extractError.Some? then before.extractError.value
                                    else "reenqueue failed"))
  {
    Provides(FailureStamp(before, now, REENQUEUE_FAILED), Sql.EXTRACT_FAILED_AT);
  }

  lemma {:induction false} StampedAlone(rows: Rows, id: Id, before: Credential, now: Time)
    requires Keyed(rows) && id in rows && before.id == id
    ensures UpdateRows(rows, [FailureStamp(before, now, REENQUEUE_FAILED)], now)
         == rows[id := rows[id].(extractFailedAt := Some(Stored(now)), updatedAt := Some(Stored(now)),
                                 extractError := Some(if before.extractError.Some? then before.extractError.value
                                                      else "reenqueue failed"))]
  {
    var order := [id];
    var batch := [FailureStamp(before, now, REENQUEUE_FAILED)];
    StampApplied(rows[id], before, now);
    OneEach(rows, order, batch, now);
    assert order[0] == id;
  }

  lemma {:induction false} RefusedRestarts(rows: Rows, order: seq<Id>, now: Time, k: nat)
    requires Keyed(rows) && ScanOf(order, rows) && k < |order|
    ensures var stamp := FailureStamp(rows[order[k]], now, REENQUEUE_FAILED);
      Restarts(rows, UpdateRows(ClearOutcome(rows, order, now), [stamp], now), order, now, Some(order[k]))
  {
    StampedAlone(ClearOutcome(rows, order, now), order[k], rows[order[k]], now);
    ResetRestarts(rows, order, now);
  }

  /** Where the queue stops taking jobs. */
  function Stops(fault: Fault, n: nat): nat {
    if (fault.EnqueueFails? || fault.RestampFails?) && fault.at < n then fault.at else n
  }

  /** The world after a committed reset: jobs as far as the queue takes them; a refused job fails its row
      again, unless that write fails as well. */
  ghost predicate ReExtracts(w: World, w': World, order: seq<Id>, fault: Fault) {
    var k := Stops(fault, |order|);
    && w' == w.(rows := w'.rows, jobs := w.jobs + order[..k])
    && Restarts(w.rows, w'.rows, order, w.clock, if fault.EnqueueFails? && k < |order| then Some(order[k]) else None)
  }

  lemma {:induction false} ReEnqueueIs(w: World, order: seq<Id>, fault: Fault)
    requires Keyed(w.rows) && ScanOf(order, w.rows)
    ensures var s := ReEnqueue(w, ClearOutcome(w.rows, order, w.clock), order, fault);
      ReExtracts(w, s.world, order, fault) && (s.outcome == Done <==> Stops(fault, |order|) == |order|)
  {
    if fault.EnqueueFails? && fault.at < |order| {
      RefusedRestarts(w.rows, order, w.clock, fault.at);
    } else {
      ResetRestarts(w.rows, order, w.clock);
      assert order[..|order|] == order;
    }
  }

  /** What may be extracted again. */
  ghost predicate Eligible(w: World, ids: seq<Id>, order: seq<Id>)
    requires forall id :: id in order ==> id in w.rows
  {
    && (forall i :: 0 <= i < |ids| ==> ids[i] in w.rows)
    && (forall id :: id in order ==> w.rows[id].extractFailedAt.Some? && w.rows[id].fileUri.Some?)
  }

  /** What is left of a re-extraction, and whether it succeeds. */
  ghost predicate ReExtracted(w: World, s: Step, order: seq<Id>, resets: bool, fault: Fault) {
    && (s.outcome == Done <==> resets && Stops(fault, |order|) == |order|)
    && (if resets then ReExtracts(w, s.world, order, fault) else s.world == w)
  }

  lemma {:induction false} ReExtractIs(w: World, ids: seq<Id>, order: seq<Id>, fault: Fault)
    requires Keyed(w.rows) && IsScan(order, ids, w.rows)
    ensures ReExtracted(w, ReExtract(w, ids, order, fault), order,
                        Eligible(w, ids, order) && fault != StoreFails && fault != CommitFails, fault)
  {
    ScanIsScan(order, ids, w.rows);
    FailedTargets(w.rows, order);
    ReEnqueueIs(w, order, fault);
  }

  /** A re-extraction is refused, changing nothing, unless every target exists, has failed and has a file;
      then the reset is committed and the jobs are queued as above. */
  lemma {:induction false} ReExtractExactly(w: World, a: Action)
    requires Inv(w) && a.DoReExtract? && Enabled(w, a)
    ensures ReExtracted(w, Do(w, a), a.order,
                        Eligible(w, a.ids, a.order) && a.fault != StoreFails && a.fault != CommitFails, a.fault)
  {
    ReExtractIs(w, a.ids, a.order, a.fault);
  }

  lemma {:induction false} FailedTargets(rows: Rows, order: seq<Id>)
    requires ScanOf(order, rows)
    ensures AllFailed(Fetch(rows, order))
       <==> forall id :: id in order ==> rows[id].extractFailedAt.Some? && rows[id].fileUri.Some?
  {
    if AllFailed(Fetch(rows, order)) {
      forall id | id in order ensures rows[id].extractFailedAt.Some? && rows[id].fileUri.Some? {
        var i :| 0 <= i < |order| && order[i] == id;
        assert Fetch(rows, order)[i] == rows[id];
      }
    } else {
      var i :| 0 <= i < |order| && !(ExtractStateOf(Fetch(rows, order)[i]) == ExtractFailed
                                     && Fetch(rows, order)[i].fileUri.Some?);
      assert order[i] in order;
    }
  }

  /** So a row that was reset waits for extraction again, and one whose job was refused has failed. */
  lemma {:induction false} RestartedIsPending(c: Credential, c': Credential, now: Time)
    ensures Restarted(c, c', now) ==> ExtractStateOf(c') == ExtractPending
    ensures Refailed(c, c', now) ==> ExtractStateOf(c') == ExtractFailed
  {
  }
}
