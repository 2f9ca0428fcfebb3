/** Why an operation is refused, in terms of the stored timestamps and the request: each error code has
    its exact cause, and a refusal changes nothing. */
module Refusals {
  import opened Base
  import opened Credentials
  import opened Payload
  import opened Lifecycle
  import opened LifecycleInvariant
  import opened LifecycleRuns
  import opened LostWork
  import R = Registry

  // ----- Reviews -----

  /** Nobody has reviewed or revoked the row, and its expiry, if it has one, is still ahead. */
  predicate AwaitsReview(c: Credential, now: Time) {
    && c.activatedAt == None && c.rejectedAt == None && c.revokedAt == None
    && (c.expiresAt.Some? ==> now < c.expiresAt.value)
  }

  /** What stands in the way of a review: revocation before rejection, expiry and approval. */
  predicate BarsReview(c: Credential, now: Time, e: Error) {
    match e
    case AlreadyRevoked => c.revokedAt.Some?
    case AlreadyRejected => c.revokedAt == None && c.rejectedAt.Some?
    case AlreadyExpired => c.revokedAt == None && c.rejectedAt == None && c.expiresAt.Some? && c.expiresAt.value <= now
    case AlreadyApproved =>
      && c.revokedAt == None && c.rejectedAt == None && (c.expiresAt.Some? ==> now < c.expiresAt.value)
      && c.activatedAt.Some?
    case _ => false
  }

  lemma {:induction false} ReviewRefusalIs(c: Credential, now: Time)
    ensures ReviewRefusal(c, now) == None <==> AwaitsReview(c, now)
    ensures forall e :: ReviewRefusal(c, now) == Some(e) <==> BarsReview(c, now, e)
  {
  }

  /** What stands in the way of an approval: of the review, or of the row's references. */
  predicate BarsApproval(c: Credential, now: Time, usable: set<Id>, e: Error) {
    BarsReview(c, now, e) || (AwaitsReview(c, now) && c.id !in usable && e == InactiveMetadata)
  }

  predicate MayApprove(c: Credential, now: Time, usable: set<Id>) {
    AwaitsReview(c, now) && c.id in usable
  }

  /** Target `k` is the first that is barred. */
  ghost predicate FirstBarred(targets: seq<Credential>, now: Time, usable: set<Id>, k: nat, e: Error) {
    && k < |targets| && BarsApproval(targets[k], now, usable, e)
    && forall j :: 0 <= j < k ==> MayApprove(targets[j], now, usable)
  }

  lemma {:induction false} ApproveRefusalIs(targets: seq<Credential>, now: Time, usable: set<Id>)
    ensures ApproveRefusal(targets, now, usable) == None
       <==> forall k :: 0 <= k < |targets| ==> MayApprove(targets[k], now, usable)
    ensures ApproveRefusal(targets, now, usable).Some? ==>
      exists k: nat :: FirstBarred(targets, now, usable, k, ApproveRefusal(targets, now, usable).value)
  {
    if targets != [] {
      ReviewRefusalIs(targets[0], now);
      ApproveRefusalIs(targets[1..], now, usable);
      assert forall k :: 0 < k < |targets| ==> targets[k] == targets[1..][k - 1];
      if MayApprove(targets[0], now, usable) {
        if ApproveRefusal(targets, now, usable).Some? {
          var e := ApproveRefusal(targets, now, usable).value;
          var k: nat :| FirstBarred(targets[1..], now, usable, k, e);
          assert FirstBarred(targets, now, usable, k + 1, e);
        }
      } else {
        assert FirstBarred(targets, now, usable, 0, ApproveRefusal(targets, now, usable).value);
      }
    }
  }

  lemma {:induction false} BarredFirst(targets: seq<Credential>, now: Time, usable: set<Id>, k: nat, e: Error)
    requires FirstBarred(targets, now, usable, k, e)
    ensures ApproveRefusal(targets, now, usable) == Some(e)
  {
    ReviewRefusalIs(targets[0], now);
    if k > 0 {
      assert MayApprove(targets[0], now, usable);
      assert forall j :: 0 < j < |targets| ==> targets[j] == targets[1..][j - 1];
      forall j | 0 <= j < k - 1 ensures MayApprove(targets[1..][j], now, usable) {
        assert MayApprove(targets[j + 1], now, usable);
      }
      BarredFirst(targets[1..], now, usable, k - 1, e);
    }
  }

  /** An approval is refused with NotFound exactly when a target is missing, and otherwise for what bars
      the first target that is barred; refused, it changes nothing. */
  lemma {:induction false} ApproveRefused(w: World, a: Action)
    requires a.DoApprove? && Enabled(w, a)
    ensures !AllFound(a.ids, w.rows) ==> Do(w, a) == Step(w, Failed(NotFound))
    ensures AllFound(a.ids, w.rows) ==>
      forall k: nat, e :: FirstBarred(Fetch(w.rows, a.order), w.clock, a.usable, k, e) ==>
        Do(w, a) == Step(w, Failed(e))
    ensures Do(w, a).outcome == Done ==>
      AllFound(a.ids, w.rows) && forall id :: id in a.order ==> MayApprove(w.rows[id], w.clock, a.usable)
  {
    var targets := Fetch(w.rows, a.order);
    ApproveRefusalIs(targets, w.clock, a.usable);
    forall k: nat, e | FirstBarred(targets, w.clock, a.usable, k, e)
      ensures ApproveRefusal(targets, w.clock, a.usable) == Some(e)
    {
      BarredFirst(targets, w.clock, a.usable, k, e);
    }
    assert forall i :: 0 <= i < |a.order| ==> targets[i] == w.rows[a.order[i]];
  }

  lemma {:induction false} RejectRefusalIs(targets: seq<Credential>, now: Time)
    ensures RejectRefusal(targets, now) == None <==> forall k :: 0 <= k < |targets| ==> AwaitsReview(targets[k], now)
    ensures RejectRefusal(targets, now).Some? ==>
      exists k: nat :: FirstReviewed(targets, now, k, RejectRefusal(targets, now).value)
  {
    if targets != [] {
      ReviewRefusalIs(targets[0], now);
      RejectRefusalIs(targets[1..], now);
      assert forall k :: 0 < k < |targets| ==> targets[k] == targets[1..][k - 1];
      if AwaitsReview(targets[0], now) {
        if RejectRefusal(targets, now).Some? {
          var e := RejectRefusal(targets, now).value;
          var k: nat :| FirstReviewed(targets[1..], now, k, e);
          assert FirstReviewed(targets, now, k + 1, e);
        }
      } else {
        assert FirstReviewed(targets, now, 0, RejectRefusal(targets, now).value);
      }
    }
  }

  ghost predicate FirstReviewed(targets: seq<Credential>, now: Time, k: nat, e: Error) {
    k < |targets| && BarsReview(targets[k], now, e) && forall j :: 0 <= j < k ==> AwaitsReview(targets[j], now)
  }

  /** Rejecting never meets a constraint. */
  lemma {:induction false} RejectingSchema(w: World, order: seq<Id>, actor: Id, reasons: map<Id, string>)
    requires Inv(w) && ScanOf(order, w.rows)
    requires forall i :: 0 <= i < |order| ==> IsPending(w.rows[order[i]])
    ensures SchemaHolds(UpdateRows(w.rows, RejectionUpdates(Fetch(w.rows, order), w.clock, actor, reasons), w.clock),
                        w.users)
  {
    var rows' := UpdateRows(w.rows, RejectionUpdates(Fetch(w.rows, order), w.clock, actor, reasons), w.clock);
    RejectionWrite(w.rows, order, w.clock, actor, reasons);
    forall id | id in w.rows ensures Harmless(w.rows[id], rows'[id], w.users) {
      assert RowAllowed(w.rows[id], w.users);
      if id in order {
        var i :| 0 <= i < |order| && order[i] == id;
        assert IsPending(w.rows[order[i]]);
        ChangedAt(w.rows, rows', order, RejectedRow, id);
      }
    }
    HarmlessSchema(w.rows, rows', w.users);
  }

  ghost predicate AllAwait(rows: Rows, order: seq<Id>, now: Time)
    requires forall id :: id in order ==> id in rows
  {
    forall id :: id in order ==> AwaitsReview(rows[id], now)
  }

  /** A rejection commits exactly when every target exists and awaits review and nothing fails; otherwise
      it changes nothing, and a target that has been reviewed is named before any failure. */
  lemma {:induction false} RejectExactly(w: World, a: Action)
    requires Inv(w) && a.DoReject? && Enabled(w, a)
    ensures var s := Do(w, a);
      var found := AllFound(a.ids, w.rows);
      && (s.outcome == Done <==> found && AllAwait(w.rows, a.order, w.clock) && a.fault == NoFault)
      && (s.outcome.Failed? ==> s.world == w)
      && (!found ==> s.outcome == Failed(NotFound))
      && (found && !AllAwait(w.rows, a.order, w.clock) ==>
            exists k: nat, e :: FirstReviewed(Fetch(w.rows, a.order), w.clock, k, e) && s.outcome == Failed(e))
  {
    ScanIsScan(a.order, a.ids, w.rows);
    var targets := Fetch(w.rows, a.order);
    RejectRefusalIs(targets, w.clock);
    FetchAwaits(w.rows, a.order, w.clock);
    if RejectRefusal(targets, w.clock) == None {
      NotRefusedArePending(targets, w.clock);
      FetchPending(w.rows, a.order);
      RejectingSchema(w, a.order, a.actor, a.reasons);
    }
  }

  lemma {:induction false} FetchAwaits(rows: Rows, order: seq<Id>, now: Time)
    requires ScanOf(order, rows)
    ensures AllAwait(rows, order, now) <==> forall k :: 0 <= k < |order| ==> AwaitsReview(Fetch(rows, order)[k], now)
  {
    forall id | id in order && !AwaitsReview(rows[id], now)
      ensures exists k :: 0 <= k < |order| && !AwaitsReview(Fetch(rows, order)[k], now)
    {
      var k :| 0 <= k < |order| && order[k] == id;
      assert Fetch(rows, order)[k] == rows[id];
    }
    forall k | 0 <= k < |order| ensures Fetch(rows, order)[k] == rows[order[k]] && order[k] in order {
    }
  }

  ghost predicate AllFound(ids: seq<Id>, rows: Rows) {
    forall i :: 0 <= i < |ids| ==> ids[i] in rows
  }

  ghost predicate SomeRevoked(rows: Rows, order: seq<Id>)
    requires forall id :: id in order ==> id in rows
  {
    exists id :: id in order && rows[id].revokedAt.Some?
  }

  ghost predicate SomeUnapproved(rows: Rows, order: seq<Id>)
    requires forall id :: id in order ==> id in rows
  {
    exists id :: id in order && (rows[id].activatedAt == None || rows[id].rejectedAt.Some?)
  }

  lemma {:induction false} TargetsChecked(rows: Rows, order: seq<Id>)
    requires ScanOf(order, rows)
    ensures AnyRevoked(Fetch(rows, order)) <==> SomeRevoked(rows, order)
    ensures AnyNotApproved(Fetch(rows, order)) <==> SomeUnapproved(rows, order)
  {
    var targets := Fetch(rows, order);
    forall i | 0 <= i < |order| ensures targets[i] == rows[order[i]] && order[i] in order {
    }
    forall id | id in order ensures exists i :: 0 <= i < |targets| && targets[i] == rows[id] {
      var i :| 0 <= i < |order| && order[i] == id;
      assert targets[i] == rows[id];
    }
  }

  /** A revocation names a missing target first, then a revoked one, then one that is not approved. */
  lemma {:induction false} RevokeRefused(w: World, a: Action)
    requires a.DoRevoke? && Enabled(w, a)
    ensures !AllFound(a.ids, w.rows) ==> Do(w, a) == Step(w, Failed(NotFound))
    ensures AllFound(a.ids, w.rows) && SomeRevoked(w.rows, a.order) ==> Do(w, a) == Step(w, Failed(AlreadyRevoked))
    ensures AllFound(a.ids, w.rows) && !SomeRevoked(w.rows, a.order) && SomeUnapproved(w.rows, a.order) ==>
      Do(w, a) == Step(w, Failed(NotApproved))
    ensures Do(w, a).outcome == Done ==>
      AllFound(a.ids, w.rows) && !SomeRevoked(w.rows, a.order) && !SomeUnapproved(w.rows, a.order)
  {
    ScanIsScan(a.order, a.ids, w.rows);
    TargetsChecked(w.rows, a.order);
  }

  // ----- Edits -----

  predicate Refers(wanted: Id, current: Id, known: map<Id, bool>) {
    wanted == "" || wanted == current || (wanted in known && known[wanted])
  }

  /** An edit that may be written: its row awaits review, and a new type or organization exists and is usable. */
  predicate MayEdit(c: Credential, e: Edit, catalog: Catalog, now: Time) {
    && AwaitsReview(c, now) && Refers(e.kind, c.kind, catalog.kinds)
    && Refers(e.organization, c.organization, catalog.organizations)
  }

  predicate Missing(wanted: Id, current: Id, known: map<Id, bool>) {
    wanted != "" && wanted != current && wanted !in known
  }

  predicate Unusable(wanted: Id, current: Id, known: map<Id, bool>) {
    wanted != "" && wanted != current && wanted in known && !known[wanted]
  }

  predicate BarsEdit(c: Credential, e: Edit, catalog: Catalog, now: Time, error: Error) {
    match error
    case NotPending => !AwaitsReview(c, now)
    case UnknownKind => AwaitsReview(c, now) && Missing(e.kind, c.kind, catalog.kinds)
    case InactiveKind => AwaitsReview(c, now) && Unusable(e.kind, c.kind, catalog.kinds)
    case UnknownOrganization =>
      && AwaitsReview(c, now) && Refers(e.kind, c.kind, catalog.kinds)
      && Missing(e.organization, c.organization, catalog.organizations)
    case InactiveOrganization =>
      && AwaitsReview(c, now) && Refers(e.kind, c.kind, catalog.kinds)
      && Unusable(e.organization, c.organization, catalog.organizations)
    case _ => false
  }

  lemma {:induction false} EditRefusalIs(w: World, e: Edit, catalog: Catalog)
    requires e.id in w.rows
    ensures EditRefusal(w, e, catalog) == None <==> MayEdit(w.rows[e.id], e, catalog, w.clock)
    ensures forall error ::
      EditRefusal(w, e, catalog) == Some(error) <==> BarsEdit(w.rows[e.id], e, catalog, w.clock, error)
  {
    ReviewRefusalIs(w.rows[e.id], w.clock);
  }

  lemma {:induction false} UpdateRefusalIs(w: World, edits: seq<Edit>, catalog: Catalog)
    requires forall i :: 0 <= i < |edits| ==> edits[i].id in w.rows
    ensures UpdateRefusal(w, edits, catalog) == None
       <==> forall i :: 0 <= i < |edits| ==> MayEdit(w.rows[edits[i].id], edits[i], catalog, w.clock)
    ensures UpdateRefusal(w, edits, catalog).Some? ==>
      exists k: nat :: FirstUneditable(w, edits, catalog, k, UpdateRefusal(w, edits, catalog).value)
  {
    if edits != [] {
      EditRefusalIs(w, edits[0], catalog);
      assert forall i :: 0 < i < |edits| ==> edits[i] == edits[1..][i - 1];
      UpdateRefusalIs(w, edits[1..], catalog);
      if UpdateRefusal(w, edits, catalog).Some? {
        var error := UpdateRefusal(w, edits, catalog).value;
        if MayEdit(w.rows[edits[0].id], edits[0], catalog, w.clock) {
          var k: nat :| FirstUneditable(w, edits[1..], catalog, k, error);
          assert FirstUneditable(w, edits, catalog, k + 1, error);
        } else {
          assert FirstUneditable(w, edits, catalog, 0, error);
        }
      }
    }
  }

  ghost predicate FirstUneditable(w: World, edits: seq<Edit>, catalog: Catalog, k: nat, error: Error)
    requires forall i :: 0 <= i < |edits| ==> edits[i].id in w.rows
  {
    && k < |edits| && BarsEdit(w.rows[edits[k].id], edits[k], catalog, w.clock, error)
    && forall j :: 0 <= j < k ==> MayEdit(w.rows[edits[j].id], edits[j], catalog, w.clock)
  }

  /** Another number than the row's own, which some row of the edited row's organization has already. */
  ghost predicate TakesNumber(rows: Rows, e: Edit)
    requires e.id in rows
  {
    var c := rows[e.id];
    && e.number.Some? && (if c.number.Some? then e.number != c.number else e.number.value != "")
    && exists id :: id in rows && rows[id].number == e.number
                    && rows[id].organization == (if e.organization == "" then c.organization else e.organization)
  }

  ghost predicate EditsFound(rows: Rows, edits: seq<Edit>) {
    forall i :: 0 <= i < |edits| ==> edits[i].id in rows
  }

  ghost predicate Editable(w: World, edits: seq<Edit>, catalog: Catalog)
    requires EditsFound(w.rows, edits)
  {
    forall i :: 0 <= i < |edits| ==> MayEdit(w.rows[edits[i].id], edits[i], catalog, w.clock)
  }

  ghost predicate NumbersFree(rows: Rows, edits: seq<Edit>)
    requires EditsFound(rows, edits)
  {
    forall i :: 0 <= i < |edits| ==> !TakesNumber(rows, edits[i])
  }

  lemma {:induction false} ClashIs(w: World, edits: seq<Edit>)
    requires EditsFound(w.rows, edits)
    ensures (exists i :: 0 <= i < |edits| && NumberClash(w, edits[i])) <==> !NumbersFree(w.rows, edits)
  {
    forall i | 0 <= i < |edits| ensures NumberClash(w, edits[i]) <==> TakesNumber(w.rows, edits[i]) {
    }
  }

  /** An update commits exactly when every row exists, may be edited, takes no other row's number, keeps the
      constraints, and nothing fails; otherwise it changes nothing, for the first of these causes. */
  lemma {:induction false} UpdateExactly(w: World, a: Action)
    requires a.DoUpdate?
    ensures var s := Do(w, a);
      && (s.outcome == Done <==>
            && EditsFound(w.rows, a.edits) && Editable(w, a.edits, a.catalog) && NumbersFree(w.rows, a.edits)
            && a.fault == NoFault && SchemaHolds(UpdateRows(w.rows, EditPatches(a.edits), w.clock), w.users))
      && (s.outcome.Failed? ==> s.world == w)
      && (!EditsFound(w.rows, a.edits) ==> s.outcome == Failed(NotFound))
      && (EditsFound(w.rows, a.edits) && !Editable(w, a.edits, a.catalog) ==>
            exists k: nat, error :: FirstUneditable(w, a.edits, a.catalog, k, error) && s.outcome == Failed(error))
      && (EditsFound(w.rows, a.edits) && Editable(w, a.edits, a.catalog) && !NumbersFree(w.rows, a.edits) ==>
            s.outcome == Failed(NumberDuplicate))
  {
    if EditsFound(w.rows, a.edits) {
      UpdateRefusalIs(w, a.edits, a.catalog);
      ClashIs(w, a.edits);
    }
  }

  // ----- New credentials -----

  /** The references of an item exist and are usable, and no row of its organization has its number. */
  ghost predicate ItemFine(it: Item, rows: Rows, catalog: Catalog) {
    && it.kind in catalog.kinds && catalog.kinds[it.kind]
    && it.organization in catalog.organizations && catalog.organizations[it.organization]
    && (forall k :: 0 <= k < |it.competencies| ==>
          it.competencies[k] in catalog.competencies && catalog.competencies[it.competencies[k]])
    && (it.number.Some? && it.number.value != "" ==>
          forall id :: id in rows && rows[id].organization == it.organization ==> rows[id].number != it.number)
  }

  /** Validation lets an issuance through exactly when every holder is known, no file is issued or
      repeated, and every item is fine. */
  lemma {:induction false} IssueAcceptedIs(w: World, items: seq<Item>, catalog: Catalog)
    ensures IssueAccepted(w, items, catalog)
       <==> && (forall i :: 0 <= i < |items| ==> items[i].holder in w.users && ItemFine(items[i], w.rows, catalog))
            && (forall i :: 0 <= i < |items| ==>
                  items[i].fileHash in w.chain.statuses ==> w.chain.statuses[items[i].fileHash] != R.Issued)
            && (forall i, j :: 0 <= i < j < |items| ==> items[i].fileHash != items[j].fileHash)
  {
    forall i | 0 <= i < |items|
      ensures ItemFine(items[i], w.rows, catalog)
         <==> ReferencesUsable(items[i], catalog) && !NumberTaken(w.rows, items[i])
    {
    }
  }

  /** Validation lets a submission through exactly when no row that is neither revoked nor rejected has one
      of its files, and every item is fine. */
  lemma {:induction false} SubmitAcceptedIs(w: World, items: seq<Item>, catalog: Catalog)
    ensures SubmitAccepted(w, items, catalog)
       <==> && (forall i :: 0 <= i < |items| ==> ItemFine(items[i], w.rows, catalog))
            && (forall i, id :: 0 <= i < |items| && id in w.rows && w.rows[id].fileHash == items[i].fileHash ==>
                  w.rows[id].revokedAt.Some? || w.rows[id].rejectedAt.Some?)
  {
    forall i | 0 <= i < |items|
      ensures ItemFine(items[i], w.rows, catalog)
         <==> ReferencesUsable(items[i], catalog) && !NumberTaken(w.rows, items[i])
    {
    }
  }

  // ----- The contract's answer -----

  predicate SomeIssued(chain: R.Chain, creds: seq<Credential>) {
    exists i :: 0 <= i < |creds| && creds[i].fileHash in chain.statuses && chain.statuses[creds[i].fileHash] == R.Issued
  }

  lemma {:induction false} AfterMintError(w: World, rows: Rows, notes: Notes, chain: R.Chain, creds: seq<Credential>,
                                          records: seq<R.Record>, fault: Fault)
    requires |creds| == |records| && SchemaHolds(UpdateRows(rows, TokenUpdates(creds, records), w.clock), w.users)
    ensures Settle(w, notes, AfterMint(w, rows, chain, creds, records, fault), fault).outcome ==
      if fault == MinedUnseen then Failed(ChainFailed)
      else if StrikesAfterMint(fault, |creds|) then Failed(Internal) else Done
  {
  }

  /** Why a unit of work that got as far as its mint fails: a file already issued is a duplicate, any other
      refusal or a lost wait is the chain's, and what comes after is internal. */
  lemma {:induction false} MintErrorIs(w: World, rows: Rows, notes: Notes, signer: Address, creds: seq<Credential>,
                                       fault: Fault)
    requires creds != []
    requires MintAccepted(w, signer, creds) ==> SchemaHolds(MintedRows(w, rows, signer, creds), w.users)
    ensures Settle(w, notes, MintCredentials(w, rows, signer, creds, fault), fault).outcome ==
      if fault == CallFails then Failed(ChainFailed)
      else if !MintAccepted(w, signer, creds) then
        Failed(if SomeIssued(w.chain, creds) then DuplicateHash else ChainFailed)
      else if fault == MinedUnseen then Failed(ChainFailed)
      else if StrikesAfterMint(fault, |creds|) then Failed(Internal) else Done
  {
    var records := RecordsFor(creds, w.users, signer, R.NonceOf(w.chain, signer));
    if MintAccepted(w, signer, creds) {
      AfterMintError(w, rows, notes, R.IssueBatch(w.chain, signer, records).value, creds, records, fault);
    }
  }

  // ----- What the tables always satisfy -----

  /** In every reachable world: numbers are unique in their organization, tokens and active files among
      all rows, a row is not both approved and rejected, and its holder and issuer are accounts. */
  lemma {:induction false} ReachableTables(w: World, actions: seq<Action>, a: Id, b: Id)
    requires Initial(w) && a in Run(w, actions).rows && b in Run(w, actions).rows
    ensures var w' := Run(w, actions);
      var c, d := w'.rows[a], w'.rows[b];
      && c.id == a && c.holder in w'.users && (c.issuer.Some? ==> c.issuer.value in w'.users)
      && !(c.activatedAt.Some? && c.rejectedAt.Some?)
      && (a != b && c.number.Some? && c.number == d.number ==> c.organization != d.organization)
      && (a != b && c.tokenId.Some? ==> c.tokenId != d.tokenId)
      && (a != b && c.fileHash == d.fileHash ==>
            c.revokedAt.Some? || c.rejectedAt.Some? || d.revokedAt.Some? || d.rejectedAt.Some?)
  {
    ReachableWorlds(w, actions);
    var w' := Run(w, actions);
    assert RowAllowed(w'.rows[a], w'.users);
  }
}
