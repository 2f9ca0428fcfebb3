/** The credential service as it runs: an object holding the tables, the chain and the queue, whose
    methods loop over slices, write, call the chain in the middle of a unit of work and roll back.
    Every method is the transition of the same name in Lifecycle. */
module CredentialServices {
  import opened Base
  import opened Credentials
  import opened Payload
  import opened Lifecycle
  import R = Registry

  // ----- Loops over slices -----

  /** The notifications of a batch, one per credential, as recordLifecycleNotifications collects them. */
  method CollectNotes(creds: seq<Credential>, kind: NoteKind) returns (pending: seq<NoteKey>)
    ensures pending == NoteKeys(FirstOnly(creds), kind)
  {
    pending := [];
    var seen: set<Id> := {};
    for i := 0 to |creds|
      invariant forall id :: id in seen <==> SeenIn(creds[..i], id)
      invariant pending == NoteKeys(FirstOnly(creds[..i]), kind)
    {
      var c := creds[i];
      assert creds[..i + 1][..i] == creds[..i];
      SeenSnoc(creds[..i + 1]);
      if c.id != "" && c.holder != "" && c.id !in seen {
        seen := seen + {c.id};
        pending := pending + [NoteFor(c, kind)];
      }
    }
    assert creds[..|creds|] == creds;
  }

  function NoteKeys(creds: seq<Credential>, kind: NoteKind): seq<NoteKey> {
    seq(|creds|, i requires 0 <= i < |creds| => NoteFor(creds[i], kind))
  }

  /** The credentials that count for notifications: named, held, and not seen before. */
  function FirstOnly(creds: seq<Credential>): seq<Credential> {
    if creds == [] then []
    else
      var front := creds[..|creds| - 1];
      var c := creds[|creds| - 1];
      if c.id != "" && c.holder != "" && !SeenIn(front, c.id) then FirstOnly(front) + [c] else FirstOnly(front)
  }

  predicate SeenIn(creds: seq<Credential>, id: Id) {
    exists i :: 0 <= i < |creds| && creds[i].id == id && id != "" && creds[i].holder != ""
  }

  lemma {:induction false} SeenSnoc(creds: seq<Credential>)
    requires creds != []
    ensures var n := |creds| - 1;
      forall id :: SeenIn(creds, id) <==>
        (SeenIn(creds[..n], id) || (creds[n].id == id && id != "" && creds[n].holder != ""))
  {
    var n := |creds| - 1;
    forall id ensures SeenIn(creds, id) <==>
      (SeenIn(creds[..n], id) || (creds[n].id == id && id != "" && creds[n].holder != ""))
    {
      if SeenIn(creds, id) {
        var i :| 0 <= i < |creds| && creds[i].id == id && id != "" && creds[i].holder != "";
        assert i < n ==> creds[..n][i] == creds[i];
      }
      if SeenIn(creds[..n], id) {
        var i :| 0 <= i < n && creds[..n][i].id == id && id != "" && creds[..n][i].holder != "";
        assert creds[i] == creds[..n][i];
      }
    }
  }

  /** INSERT … ON CONFLICT DO NOTHING. */
  function AddAll(notes: Notes, keys: seq<NoteKey>, now: Time): Notes {
    if keys == [] then notes
    else AddNote(AddAll(notes, keys[..|keys| - 1], now), keys[|keys| - 1], now)
  }

  predicate Named(c: Credential) {
    c.id != "" && c.holder != ""
  }

  lemma {:induction false} AddedAreRecorded(notes: Notes, creds: seq<Credential>, kind: NoteKind, now: Time)
    requires forall i :: 0 <= i < |creds| ==> Named(creds[i])
    ensures AddAll(notes, NoteKeys(creds, kind), now) == RecordNotes(notes, creds, kind, now)
  {
    if creds != [] {
      var n := |creds| - 1;
      AddedAreRecorded(notes, creds[..n], kind, now);
      assert NoteKeys(creds, kind)[..n] == NoteKeys(creds[..n], kind);
    }
  }

  lemma {:induction false} FirstAreNamed(creds: seq<Credential>)
    ensures forall i :: 0 <= i < |FirstOnly(creds)| ==> Named(FirstOnly(creds)[i])
  {
    if creds != [] {
      FirstAreNamed(creds[..|creds| - 1]);
    }
  }

  lemma {:induction false} RecordSnoc(notes: Notes, creds: seq<Credential>, c: Credential, kind: NoteKind, now: Time)
    requires Named(c)
    ensures RecordNotes(notes, creds + [c], kind, now)
       == AddNote(RecordNotes(notes, creds, kind, now), NoteFor(c, kind), now)
  {
    assert (creds + [c])[..|creds|] == creds;
  }

  /** Skipping repeats in the slice changes nothing: the insert would have skipped them. It needs the
      repeats to have the same holder, as copies of one row do. */
  lemma {:induction false} RepeatsAreSkipped(notes: Notes, creds: seq<Credential>, kind: NoteKind, now: Time)
    requires forall i, j :: 0 <= i < j < |creds| && creds[i].id == creds[j].id ==> creds[i].holder == creds[j].holder
    ensures RecordNotes(notes, FirstOnly(creds), kind, now) == RecordNotes(notes, creds, kind, now)
  {
    if creds != [] {
      var n := |creds| - 1;
      RepeatsAreSkipped(notes, creds[..n], kind, now);
      if Named(creds[n]) {
        if SeenIn(creds[..n], creds[n].id) {
          SeenIsRecorded(notes, creds, kind, now);
        } else {
          RecordSnoc(notes, FirstOnly(creds[..n]), creds[n], kind, now);
        }
      }
    }
  }

  lemma {:induction false} SeenIsRecorded(notes: Notes, creds: seq<Credential>, kind: NoteKind, now: Time)
    requires creds != [] && SeenIn(creds[..|creds| - 1], creds[|creds| - 1].id)
    requires forall i, j :: 0 <= i < j < |creds| && creds[i].id == creds[j].id ==> creds[i].holder == creds[j].holder
    ensures NoteFor(creds[|creds| - 1], kind) in RecordNotes(notes, creds[..|creds| - 1], kind, now)
  {
    var n := |creds| - 1;
    var i :| 0 <= i < n && creds[..n][i].id == creds[n].id && creds[n].id != "" && creds[..n][i].holder != "";
    assert creds[i] == creds[..n][i];
    RecordedAlready(notes, creds[..n], kind, now, i);
  }

  lemma {:induction false} RecordedAlready(notes: Notes, creds: seq<Credential>, kind: NoteKind, now: Time, i: nat)
    requires i < |creds| && creds[i].id != "" && creds[i].holder != ""
    ensures NoteFor(creds[i], kind) in RecordNotes(notes, creds, kind, now)
  {
    var n := |creds| - 1;
    if i < n {
      assert creds[..n][i] == creds[i];
      RecordedAlready(notes, creds[..n], kind, now, i);
    }
  }

  method TokenUpdatesOf(creds: seq<Credential>, records: seq<R.Record>) returns (updates: seq<Credential>)
    requires |creds| == |records|
    ensures updates == TokenUpdates(creds, records)
  {
    updates := [];
    for i := 0 to |creds|
      invariant |updates| == i && forall k :: 0 <= k < i ==>
        updates[k] == Blank(creds[k].id).(tokenId := Some(records[k].id))
    {
      updates := updates + [Blank(creds[i].id).(tokenId := Some(records[i].id))];
    }
  }

  method IssuancesOf(creds: seq<Credential>, users: Users, signer: Address, nonce: Word)
    returns (records: seq<R.Record>)
    ensures records == RecordsFor(creds, users, signer, nonce)
  {
    records := [];
    for i := 0 to |creds|
      invariant |records| == i && forall k :: 0 <= k < i ==> records[k] == RecordFor(creds[k], users, signer, nonce)
    {
      records := records + [RecordFor(creds[i], users, signer, nonce)];
    }
  }

  method ApproveCheck(targets: seq<Credential>, usable: set<Id>, now: Time) returns (refusal: Option<Error>)
    ensures refusal == ApproveRefusal(targets, now, usable)
  {
    for i := 0 to |targets|
      invariant ApproveRefusal(targets, now, usable) == ApproveRefusal(targets[i..], now, usable)
    {
      assert targets[i..][1..] == targets[i + 1..];
      match StatusOf(targets[i], now)
      case Approved => return Some(AlreadyApproved);
      case Rejected => return Some(AlreadyRejected);
      case Revoked => return Some(AlreadyRevoked);
      case Expired => return Some(AlreadyExpired);
      case Pending =>
        if targets[i].id !in usable {
          return Some(InactiveMetadata);
        }
    }
    return None;
  }

  method ApprovalUpdatesOf(targets: seq<Credential>, actor: Id, now: Time) returns (updates: seq<Credential>)
    ensures updates == ApprovalUpdates(targets, now, actor)
  {
    updates := [];
    for i := 0 to |targets|
      invariant |updates| == i && forall k :: 0 <= k < i ==> updates[k] == ApprovalUpdate(targets[k].id, now, actor)
    {
      updates := updates + [ApprovalUpdate(targets[i].id, now, actor)];
    }
  }

  method RejectCheck(targets: seq<Credential>, now: Time) returns (refusal: Option<Error>)
    ensures refusal == RejectRefusal(targets, now)
  {
    for i := 0 to |targets|
      invariant RejectRefusal(targets, now) == RejectRefusal(targets[i..], now)
    {
      assert targets[i..][1..] == targets[i + 1..];
      match StatusOf(targets[i], now)
      case Approved => return Some(AlreadyApproved);
      case Rejected => return Some(AlreadyRejected);
      case Revoked => return Some(AlreadyRevoked);
      case Expired => return Some(AlreadyExpired);
      case Pending =>
    }
    return None;
  }

  method RejectionUpdatesOf(targets: seq<Credential>, actor: Id, reasons: map<Id, string>, now: Time)
    returns (updates: seq<Credential>)
    ensures updates == RejectionUpdates(targets, now, actor, reasons)
  {
    updates := [];
    for i := 0 to |targets|
      invariant |updates| == i && forall k :: 0 <= k < i ==>
        updates[k] == RejectionUpdate(targets[k].id, now, actor, reasons)
    {
      updates := updates + [RejectionUpdate(targets[i].id, now, actor, reasons)];
    }
  }

  /** Revoked targets are looked for in the whole batch before unapproved ones are. */
  method RevokeCheck(targets: seq<Credential>) returns (refusal: Option<Error>)
    ensures refusal
       == if AnyRevoked(targets) then Some(AlreadyRevoked)
          else if AnyNotApproved(targets) then Some(NotApproved) else None
  {
    var revoked, notApproved := false, false;
    for i := 0 to |targets|
      invariant revoked == AnyRevoked(targets[..i]) && notApproved == AnyNotApproved(targets[..i])
    {
      assert targets[..i + 1] == targets[..i] + [targets[i]];
      if targets[i].revokedAt.Some? {
        revoked := true;
        assert targets[..i + 1][i] == targets[i];
      }
      if targets[i].activatedAt == None || targets[i].rejectedAt.Some? {
        notApproved := true;
        assert targets[..i + 1][i] == targets[i];
      }
    }
    assert targets[..|targets|] == targets;
    return if revoked then Some(AlreadyRevoked) else if notApproved then Some(NotApproved) else None;
  }

  method RevocationUpdatesOf(targets: seq<Credential>, actor: Id, grounds: map<Id, Option<string>>, now: Time)
    returns (updates: seq<Credential>, tokens: seq<TokenId>)
    ensures updates == RevocationUpdates(targets, now, actor, grounds) && tokens == TokensOf(targets)
  {
    updates, tokens := [], [];
    for i := 0 to |targets|
      invariant |updates| == i && forall k :: 0 <= k < i ==>
        updates[k] == RevocationUpdate(targets[k].id, now, actor, grounds)
      invariant tokens == TokensOf(targets[..i])
    {
      assert targets[..i + 1][..i] == targets[..i];
      updates := updates + [RevocationUpdate(targets[i].id, now, actor, grounds)];
      if targets[i].tokenId.Some? {
        tokens := tokens + [targets[i].tokenId.value];
      }
    }
    assert targets[..|targets|] == targets;
  }

  // ----- The service -----

  class CredentialService {
    var rows: Rows
    var notes: Notes
    var chain: R.Chain
    var jobs: seq<Id>
    var users: Users

    constructor (chain: R.Chain, users: Users)
      ensures At(0) == World(map[], map[], chain, [], users, 0)
    {
      rows, notes, jobs := map[], map[], [];
      this.chain, this.users := chain, users;
    }

    /** The world at the instant the operation reads its clock. */
    function At(now: Time): World
      reads this
    {
      World(rows, notes, chain, jobs, users, now)
    }

    /** recordLifecycleNotifications. */
    method RecordLifecycleNotifications(creds: seq<Credential>, kind: NoteKind, now: Time)
      requires forall i, j :: 0 <= i < j < |creds| && creds[i].id == creds[j].id ==> creds[i].holder == creds[j].holder
      modifies this`notes
      ensures notes == RecordNotes(old(notes), creds, kind, now)
    {
      var pending := CollectNotes(creds, kind);
      FirstAreNamed(creds);
      AddedAreRecorded(notes, FirstOnly(creds), kind, now);
      RepeatsAreSkipped(notes, creds, kind, now);
      for i := 0 to |pending|
        invariant notes == AddAll(old(notes), pending[..i], now)
      {
        assert pending[..i + 1][..i] == pending[..i];
        if pending[i] !in notes {
          notes := notes[pending[i] := Note(now, None)];
        }
      }
      assert pending[..|pending|] == pending;
    }

    /** The repository's Update inside a unit of work: the statement, then the constraints. */
    method UpdateCredentials(updates: seq<Credential>, now: Time) returns (ok: bool)
      modifies this`rows
      ensures ok == SchemaHolds(UpdateRows(old(rows), updates, now), users)
      ensures rows == if ok then UpdateRows(old(rows), updates, now) else old(rows)
    {
      var rows' := UpdateRows(rows, updates, now);
      ok := SchemaHolds(rows', users);
      if ok {
        rows := rows';
      }
    }

    /** Enqueues one extraction job per credential until the queue refuses. */
    method EnqueueAll(ids: seq<Id>, fault: Fault) returns (ok: bool)
      modifies this`jobs
      ensures ok == !(fault.EnqueueFails? && fault.at < |ids|)
      ensures jobs == old(jobs) + (if ok then ids else ids[..fault.at])
    {
      for i := 0 to |ids|
        invariant jobs == old(jobs) + ids[..i]
        invariant fault.EnqueueFails? ==> i <= fault.at
      {
        if fault == EnqueueFails(i) {
          return false;
        }
        jobs := jobs + [ids[i]];
      }
      assert ids[..|ids|] == ids;
      return true;
    }

    /** How a mint ends: the chain and the queue as far as they got, the rows only if all went well. */
    ghost predicate Ends(m: Mint, error: Option<Error>)
      reads this
    {
      && chain == m.chain && jobs == m.jobs
      && (if m.rows.Some? then error == None && rows == m.rows.value else error == Some(m.error))
    }

    /** mintCredentials. */
    method Mint(signer: Address, creds: seq<Credential>, now: Time, fault: Fault) returns (error: Option<Error>)
      modifies this`rows, this`chain, this`jobs
      ensures Ends(MintCredentials(old(At(now)), old(rows), signer, creds, fault), error)
    {
      ghost var w := At(now);
      if creds == [] {
        return None;
      }
      var records := IssuancesOf(creds, users, signer, R.NonceOf(chain, signer));
      if fault == CallFails {
        return Some(ChainFailed);
      }
      var mined := R.IssueBatch(chain, signer, records);
      if mined == None {
        return Some(if AnyIssued(chain, creds) then DuplicateHash else ChainFailed);
      }
      chain := mined.value;
      AfterMintIgnores(w, At(now), rows, chain, creds, records, fault);
      error := FinishMint(creds, records, now, fault);
    }

    /** What follows the mined transaction: tokens, then jobs. */
    method FinishMint(creds: seq<Credential>, records: seq<R.Record>, now: Time, fault: Fault)
      returns (error: Option<Error>)
      requires |creds| == |records| && creds != []
      modifies this`rows, this`jobs
      ensures Ends(AfterMint(old(At(now)), old(rows), chain, creds, records, fault), error)
    {
      if fault == MinedUnseen {
        return Some(ChainFailed);
      }
      var updates := TokenUpdatesOf(creds, records);
      if fault == TokenWriteFails {
        return Some(Internal);
      }
      var written := UpdateCredentials(updates, now);
      if !written {
        return Some(Internal);
      }
      var queued := EnqueueAll(IdsOf(creds), fault);
      return if queued then None else Some(Internal);
    }

    /** The end of a unit of work that announces and mints; `w` is the world it started from. */
    method AnnounceAndMint(ghost w: World, told: seq<Credential>, kind: NoteKind, signer: Address,
                           creds: seq<Credential>,
                           now: Time, fault: Fault) returns (error: Option<Error>)
      requires w.chain == chain && w.jobs == jobs && w.users == users && w.clock == now
      requires forall i, j :: 0 <= i < j < |told| && told[i].id == told[j].id ==> told[i].holder == told[j].holder
      modifies this`rows, this`notes, this`chain, this`jobs
      ensures Settled(w, error, fault)
           == Settle(w, RecordNotes(old(notes), told, kind, now),
                     MintCredentials(w, old(rows), signer, creds, fault), fault)
    {
      RecordLifecycleNotifications(told, kind, now);
      MintIgnoresTables(w, At(now), rows, signer, creds, fault);
      error := Mint(signer, creds, now, fault);
    }

    // ----- Approve -----

    /** The body of the unit of work once the targets may be approved. */
    method ApproveBody(order: seq<Id>, actor: Id, now: Time, fault: Fault) returns (error: Option<Error>)
      requires Distinct(order) && (forall id :: id in order ==> id in rows) && Keyed(rows)
      modifies this`rows, this`notes, this`chain, this`jobs
      ensures Settled(old(At(now)), error, fault) == ApproveWrite(old(At(now)), order, actor, fault)
    {
      ghost var w := At(now);
      var targets := Fetch(rows, order);
      DistinctTargets(rows, order);
      var updates := ApprovalUpdatesOf(targets, actor, now);
      if fault == StoreFails {
        return Some(Internal);
      }
      var written := UpdateCredentials(updates, now);
      if !written || fault == NotesFail {
        return Some(Internal);
      }
      error := AnnounceAndMint(w, targets, ApprovedNote, AddressOf(users, actor), Fetch(rows, order), now, fault);
    }

    /** What a unit of work that ended like this leaves: `w` is the world it started from. */
    ghost function Settled(w: World, error: Option<Error>, fault: Fault): Step
      reads this
    {
      var w' := w.(chain := chain, jobs := jobs);
      if error.Some? then Step(w', Failed(error.value))
      else if fault == LinksFail || fault == CommitFails then Step(w', Failed(Internal))
      else Step(w'.(rows := rows, notes := notes), Done)
    }

    /** Commit or roll back. */
    method Close(ghost w: World, rows0: Rows, notes0: Notes, error: Option<Error>, fault: Fault)
      returns (outcome: Outcome)
      requires w.rows == rows0 && w.notes == notes0 && w.users == users
      modifies this`rows, this`notes
      ensures Step(At(w.clock), outcome) == old(Settled(w, error, fault))
    {
      if error.Some? {
        outcome := Failed(error.value);
      } else if fault == LinksFail || fault == CommitFails {
        outcome := Failed(Internal);
      } else {
        outcome := Done;
      }
      if outcome != Done {
        rows, notes := rows0, notes0;
      }
    }

    method AnyMissing(ids: seq<Id>) returns (missing: bool)
      ensures missing == SomeMissing(ids, rows)
    {
      for i := 0 to |ids|
        invariant forall k :: 0 <= k < i ==> ids[k] in rows
      {
        if ids[i] !in rows {
          return true;
        }
      }
      return false;
    }

    method Approve(ids: seq<Id>, order: seq<Id>, actor: Id, usable: set<Id>, now: Time, fault: Fault)
      returns (outcome: Outcome)
      requires IsScan(order, ids, rows) && Keyed(rows)
      modifies this`rows, this`notes, this`chain, this`jobs
      ensures Step(At(now), outcome) == Lifecycle.Approve(old(At(now)), ids, order, actor, usable, fault)
    {
      ghost var w := At(now);
      var rows0, notes0 := rows, notes;
      var missing := AnyMissing(ids);
      if missing {
        return Failed(NotFound);
      }
      var refusal := ApproveCheck(Fetch(rows, order), usable, now);
      if refusal.Some? {
        return Failed(refusal.value);
      }
      var error := ApproveBody(order, actor, now, fault);
      outcome := Close(w, rows0, notes0, error, fault);
    }

    // ----- Reject and Revoke -----

    method Reject(ids: seq<Id>, order: seq<Id>, actor: Id, reasons: map<Id, string>, now: Time, fault: Fault)
      returns (outcome: Outcome)
      requires IsScan(order, ids, rows) && Keyed(rows)
      modifies this`rows, this`notes
      ensures Step(At(now), outcome) == Lifecycle.Reject(old(At(now)), ids, order, actor, reasons, fault)
    {
      var missing := AnyMissing(ids);
      if missing {
        return Failed(NotFound);
      }
      var refusal := RejectCheck(Fetch(rows, order), now);
      if refusal.Some? {
        return Failed(refusal.value);
      }
      outcome := RejectBody(order, actor, reasons, now, fault);
    }

    method RejectBody(order: seq<Id>, actor: Id, reasons: map<Id, string>, now: Time, fault: Fault)
      returns (outcome: Outcome)
      requires Distinct(order) && (forall id :: id in order ==> id in rows) && Keyed(rows)
      modifies this`rows, this`notes
      ensures Step(At(now), outcome) == RejectWrite(old(At(now)), order, actor, reasons, fault)
    {
      var rows0, notes0 := rows, notes;
      var targets := Fetch(rows, order);
      DistinctTargets(rows, order);
      var updates := RejectionUpdatesOf(targets, actor, reasons, now);
      var written := UpdateCredentials(updates, now);
      if !written {
        return Failed(Internal);
      }
      RecordLifecycleNotifications(targets, RejectedNote, now);
      if fault != NoFault {
        rows, notes := rows0, notes0;
        return Failed(Internal);
      }
      return Done;
    }

    method Revoke(ids: seq<Id>, order: seq<Id>, actor: Id, grounds: map<Id, Option<string>>, now: Time, blockTime: nat,
                  fault: Fault)
      returns (outcome: Outcome)
      requires IsScan(order, ids, rows) && Keyed(rows)
      modifies this`rows, this`notes, this`chain
      ensures Step(At(now), outcome) == Lifecycle.Revoke(old(At(now)), ids, order, actor, grounds, blockTime, fault)
    {
      var missing := AnyMissing(ids);
      if missing {
        return Failed(NotFound);
      }
      var refusal := RevokeCheck(Fetch(rows, order));
      if refusal.Some? {
        return Failed(refusal.value);
      }
      outcome := RevokeBody(order, actor, grounds, now, blockTime, fault);
    }

    method RevokeBody(order: seq<Id>, actor: Id, grounds: map<Id, Option<string>>, now: Time, blockTime: nat,
                      fault: Fault)
      returns (outcome: Outcome)
      requires Distinct(order) && (forall id :: id in order ==> id in rows) && Keyed(rows)
      modifies this`rows, this`notes, this`chain
      ensures Step(At(now), outcome) == RevokeWrite(old(At(now)), order, actor, grounds, blockTime, fault)
    {
      ghost var w := At(now);
      var rows0 := rows;
      var targets := Fetch(rows, order);
      DistinctTargets(rows, order);
      var updates, tokens := RevocationUpdatesOf(targets, actor, grounds, now);
      if fault == StoreFails {
        return Failed(Internal);
      }
      var written := UpdateCredentials(updates, now);
      if !written {
        return Failed(Internal);
      }
      outcome := AnnounceAndRevoke(w, rows0, targets, tokens, AddressOf(users, actor), now, blockTime, fault);
    }

    method AnnounceAndRevoke(ghost w: World, rows0: Rows, targets: seq<Credential>, tokens: seq<TokenId>,
                             revoker: Address, now: Time, blockTime: nat, fault: Fault)
      returns (outcome: Outcome)
      requires now == w.clock && w == At(w.clock).(rows := rows0)
      requires forall i, j :: 0 <= i < j < |targets| && targets[i].id == targets[j].id ==>
        targets[i].holder == targets[j].holder
      modifies this`rows, this`notes, this`chain
      ensures fault == NotesFail ==> Step(At(w.clock), outcome) == Step(w, Failed(Internal))
      ensures fault != NotesFail ==>
        Step(At(w.clock), outcome)
        == RevokeOnChain(w, old(At(w.clock)).(notes := RecordNotes(old(notes), targets, RevokedNote, w.clock)),
                         tokens, revoker, blockTime, fault)
    {
      if fault == NotesFail {
        rows := rows0;
        return Failed(Internal);
      }
      var notes0 := notes;
      RecordLifecycleNotifications(targets, RevokedNote, now);
      outcome := SyncRevoke(w, rows0, notes0, tokens, revoker, blockTime, fault);
    }

    /** syncBlockchainRevoke and the end of its unit of work, which began in `w`. */
    method SyncRevoke(ghost w: World, rows0: Rows, notes0: Notes, tokens: seq<TokenId>, revoker: Address,
                      blockTime: nat, fault: Fault)
      returns (outcome: Outcome)
      requires w == At(w.clock).(rows := rows0, notes := notes0)
      modifies this`rows, this`notes, this`chain
      ensures Step(At(w.clock), outcome) == RevokeOnChain(w, old(At(w.clock)), tokens, revoker, blockTime, fault)
    {
      outcome := Done;
      if tokens != [] {
        var mined := if fault == CallFails then None else R.RevokeBatch(chain, revoker, tokens, blockTime);
        if mined == None {
          outcome := Failed(ChainFailed);
        } else {
          chain := mined.value;
          if fault == MinedUnseen {
            outcome := Failed(ChainFailed);
          }
        }
      }
      if outcome == Done && fault == CommitFails {
        outcome := Failed(Internal);
      }
      if outcome != Done {
        rows, notes := rows0, notes0;
      }
    }

    // ----- Issue and Submit -----

    method StoreCredentials(creds: seq<Credential>) returns (ok: bool)
      requires KeysFree(rows, creds)
      modifies this`rows
      ensures ok == SchemaHolds(StoreRows(old(rows), creds), users)
      ensures rows == if ok then StoreRows(old(rows), creds) else old(rows)
    {
      var rows' := rows;
      for i := 0 to |creds|
        invariant rows' == StoreRows(rows, creds[..i])
      {
        assert creds[..i + 1][..i] == creds[..i];
        rows' := rows'[creds[i].id := Persisted(creds[i])];
      }
      assert creds[..|creds|] == creds;
      ok := SchemaHolds(rows', users);
      if ok {
        rows := rows';
      }
    }

    /** issueValidate: the problems found, by item and field. */
    method IssueValidate(items: seq<Item>, catalog: Catalog) returns (problems: map<(nat, Field), Problem>)
      ensures problems == map[] <==> IssueAccepted(At(0), items, catalog)
      ensures ProblemsUpTo(problems, items, |items|, rows, chain, users, catalog)
    {
      problems := map[];
      var seen: set<Ascii> := {};
      for i := 0 to |items|
        invariant ProblemsUpTo(problems, items, i, rows, chain, users, catalog)
        invariant forall h :: h in seen <==> SeenFile(items, i, h, chain, users)
      {
        var it := items[i];
        FileTaken(items, i, seen, chain, users);
        if it.holder !in users {
          OneProblem(problems, items, i, HolderField, Unknown, rows, chain, users, catalog);
          problems := problems[(i, HolderField) := Unknown];
        } else if R.StatusOf(chain, it.fileHash) == R.Issued || it.fileHash in seen {
          OneProblem(problems, items, i, FileField, Duplicate, rows, chain, users, catalog);
          problems := problems[(i, FileField) := Duplicate];
        } else {
          seen := seen + {it.fileHash};
          var found := ItemProblems(it, rows, catalog);
          ItemsProblems(problems, items, i, found, rows, chain, users, catalog);
          problems := problems + AtItem(found, i);
        }
      }
      NoProblemsIsAccepted(At(0), problems, items, catalog);
    }

    method Issue(items: seq<Item>, newIds: seq<Id>, uris: seq<string>, actor: Id, catalog: Catalog, now: Time,
                 fault: Fault)
      returns (outcome: Outcome)
      requires |newIds| == |items| && |uris| == |items|
      modifies this`rows, this`notes, this`chain, this`jobs
      ensures Step(At(now), outcome) == Lifecycle.Issue(old(At(now)), items, newIds, uris, actor, catalog, fault)
    {
      ghost var w := At(now);
      var rows0, notes0 := rows, notes;
      var problems := IssueValidate(items, catalog);
      if problems != map[] {
        return Failed(Invalid);
      }
      if fault == StorageFails {
        return Failed(Internal);
      }
      var creds := PrepareAll(items, newIds, uris, actor, now, true);
      var error := IssueBody(creds, actor, now, fault);
      outcome := Close(w, rows0, notes0, error, fault);
    }

    /** issueCommit. */
    method IssueBody(creds: seq<Credential>, actor: Id, now: Time, fault: Fault) returns (error: Option<Error>)
      modifies this`rows, this`notes, this`chain, this`jobs
      ensures Settled(old(At(now)), error, fault) == IssueWrite(old(At(now)), creds, actor, fault)
    {
      ghost var w := At(now);
      if fault == StoreFails || !KeysFree(rows, creds) {
        return Some(Internal);
      }
      var stored := StoreCredentials(creds);
      if !stored {
        return Some(DuplicateHash);
      }
      if fault == NotesFail {
        return Some(Internal);
      }
      error := AnnounceAndMint(w, creds, RegisteredNote, AddressOf(users, actor), creds, now, fault);
    }

    /** submitValidate: a file that an active row has stops the batch at once; the problems of the
        references and the numbers are found item by item. */
    method SubmitValidate(items: seq<Item>, catalog: Catalog) returns (problems: map<(nat, Field), Problem>)
      ensures problems == map[]
         <==> FilesFree(items, rows) && forall k :: 0 <= k < |items| ==> Submittable(items[k], rows, catalog)
      ensures !FilesFree(items, rows) ==> problems == map[(0, FileField) := Duplicate]
      ensures FilesFree(items, rows) ==> FieldsUpTo(problems, items, |items|, rows, catalog)
    {
      if !FilesFree(items, rows) {
        problems := map[(0, FileField) := Duplicate];
        assert (0, FileField) in problems;
        return;
      }
      problems := map[];
      for i := 0 to |items|
        invariant problems == map[] <==> forall k :: 0 <= k < i ==> Submittable(items[k], rows, catalog)
        invariant FieldsUpTo(problems, items, i, rows, catalog)
      {
        var found := ItemProblems(items[i], rows, catalog);
        FieldsOfItem(problems, items, i, found, rows, catalog);
        NoneAdded(problems, found, i);
        assert Submittable(items[i], rows, catalog) <==> found == map[];
        problems := problems + AtItem(found, i);
      }
    }

    method Submit(items: seq<Item>, newIds: seq<Id>, uris: seq<string>, actor: Id, catalog: Catalog, now: Time,
                  fault: Fault)
      returns (outcome: Outcome)
      requires |newIds| == |items| && |uris| == |items|
      modifies this`rows
      ensures Step(At(now), outcome) == Lifecycle.Submit(old(At(now)), items, newIds, uris, actor, catalog, fault)
    {
      var problems := SubmitValidate(items, catalog);
      SubmittableIsAccepted(At(now), items, catalog);
      if problems != map[] {
        return Failed(Invalid);
      }
      var creds := PrepareAll(items, newIds, uris, actor, now, false);
      if !KeysFree(rows, creds) || fault != NoFault {
        return Failed(Internal);
      }
      var stored := StoreCredentials(creds);
      return if stored then Done else Failed(DuplicateHash);
    }

    // ----- Update and ReExtract -----

    method UpdateCheck(edits: seq<Edit>, catalog: Catalog, now: Time) returns (refusal: Option<Error>)
      requires forall i :: 0 <= i < |edits| ==> edits[i].id in rows
      ensures refusal == UpdateRefusal(At(now), edits, catalog)
    {
      for i := 0 to |edits|
        invariant UpdateRefusal(At(now), edits, catalog) == UpdateRefusal(At(now), edits[i..], catalog)
      {
        assert edits[i..][1..] == edits[i + 1..];
        refusal := EditRefusal(At(now), edits[i], catalog);
        if refusal.Some? {
          return;
        }
      }
      return None;
    }

    method Update(edits: seq<Edit>, catalog: Catalog, now: Time, fault: Fault) returns (outcome: Outcome)
      modifies this`rows
      ensures Step(At(now), outcome) == Lifecycle.Update(old(At(now)), edits, catalog, fault)
    {
      for i := 0 to |edits|
        invariant forall k :: 0 <= k < i ==> edits[k].id in rows
        invariant rows == old(rows)
      {
        if edits[i].id !in rows {
          return Failed(NotFound);
        }
      }
      var refusal := UpdateCheck(edits, catalog, now);
      if refusal.Some? {
        return Failed(refusal.value);
      }
      for i := 0 to |edits|
        invariant forall k :: 0 <= k < i ==> !NumberClash(At(now), edits[k])
        invariant rows == old(rows)
      {
        if NumberClash(At(now), edits[i]) {
          return Failed(NumberDuplicate);
        }
      }
      if fault != NoFault {
        return Failed(Internal);
      }
      var written := UpdateCredentials(EditPatches(edits), now);
      return if written then Done else Failed(Internal);
    }

    method ReExtract(ids: seq<Id>, order: seq<Id>, now: Time, fault: Fault) returns (outcome: Outcome)
      requires IsScan(order, ids, rows)
      modifies this`rows, this`jobs
      ensures Step(At(now), outcome) == Lifecycle.ReExtract(old(At(now)), ids, order, fault)
    {
      var missing := AnyMissing(ids);
      if missing {
        return Failed(NotFound);
      }
      if !AllFailed(Fetch(rows, order)) {
        return Failed(NotEligible);
      }
      if fault == StoreFails || fault == CommitFails {
        return Failed(Internal);
      }
      outcome := EnqueueAgain(ClearOutcome(rows, order, now), order, now, fault);
    }

    /** The reset is committed as `cleared`; a refused job is compensated on its row. */
    method EnqueueAgain(cleared: Rows, order: seq<Id>, now: Time, fault: Fault) returns (outcome: Outcome)
      requires forall id :: id in order ==> id in rows
      modifies this`rows, this`jobs
      ensures Step(At(now), outcome) == ReEnqueue(old(At(now)), cleared, order, fault)
    {
      var targets := Fetch(rows, order);
      rows := cleared;
      for i := 0 to |order|
        invariant rows == cleared && jobs == old(jobs) + order[..i]
        invariant fault.EnqueueFails? || fault.RestampFails? ==> i <= fault.at
      {
        if fault == RestampFails(i) {
          return Failed(Internal);
        }
        if fault == EnqueueFails(i) {
          rows := UpdateRows(rows, [FailureStamp(targets[i], now, REENQUEUE_FAILED)], now);
          return Failed(Internal);
        }
        jobs := jobs + [order[i]];
      }
      assert order[..|order|] == order;
      return Done;
    }
  }

  // ----- Validation of one item -----

  datatype Field = HolderField | FileField | KindField | OrganizationField | NumberField | CompetencyField

  datatype Problem = Unknown | Unusable | Duplicate

  function ReferenceProblem(m: map<Id, bool>, id: Id): Option<Problem> {
    if id !in m then Some(Unknown) else if !m[id] then Some(Unusable) else None
  }

  function CompetencyProblem(m: map<Id, bool>, ids: seq<Id>): (r: Option<Problem>)
    ensures r == None <==> forall k :: 0 <= k < |ids| ==> Usable(m, ids[k])
  {
    if ids == [] then None
    else
      assert ids == [ids[0]] + ids[1..];
      ReferenceProblem(m, ids[0]).Or(CompetencyProblem(m, ids[1..]))
  }

  function Entry(field: Field, problem: Option<Problem>): map<Field, Problem> {
    if problem.Some? then map[field := problem.value] else map[]
  }

  /** What is wrong with an item whose holder and file are fine. */
  function ItemProblems(it: Item, rows: Rows, catalog: Catalog): (r: map<Field, Problem>)
    ensures r == map[] <==> ReferencesUsable(it, catalog) && !NumberTaken(rows, it)
  {
    var kind := ReferenceProblem(catalog.kinds, it.kind);
    var organization := ReferenceProblem(catalog.organizations, it.organization);
    var number := NumberProblem(it, rows);
    var competency := CompetencyProblem(catalog.competencies, it.competencies);
    var r := Entry(KindField, kind) + Entry(OrganizationField, organization) + Entry(NumberField, number)
           + Entry(CompetencyField, competency);
    assert r == map[] <==> kind == None && organization == None && number == None && competency == None by {
      assert kind.Some? ==> KindField in r;
      assert organization.Some? ==> OrganizationField in r;
      assert number.Some? ==> NumberField in r;
      assert competency.Some? ==> CompetencyField in r;
    }
    r
  }

  /** What is wrong with one field of an item whose holder and file are fine. */
  predicate FieldProblem(it: Item, f: Field, p: Problem, rows: Rows, catalog: Catalog) {
    match f
    case KindField => ReferenceIs(catalog.kinds, it.kind, p)
    case OrganizationField => ReferenceIs(catalog.organizations, it.organization, p)
    case NumberField =>
      && p == Duplicate && it.number.Some? && it.number.value != ""
      && exists id | id in rows :: rows[id].organization == it.organization && rows[id].number == it.number
    case CompetencyField => FirstUnusable(catalog.competencies, it.competencies, p)
    case _ => false
  }

  /** The reference does not exist, or may not be used. */
  predicate ReferenceIs(m: map<Id, bool>, id: Id, p: Problem) {
    (id !in m && p == Unknown) || (id in m && !m[id] && p == Unusable)
  }

  /** The problem of the first reference that has one. */
  predicate FirstUnusable(m: map<Id, bool>, ids: seq<Id>, p: Problem) {
    exists k :: 0 <= k < |ids| && ReferenceIs(m, ids[k], p) && forall j :: 0 <= j < k ==> ids[j] in m && m[ids[j]]
  }

  lemma {:induction false} FirstUnusableTail(m: map<Id, bool>, ids: seq<Id>, p: Problem)
    requires ids != []
    ensures FirstUnusable(m, ids, p)
       <==> ReferenceIs(m, ids[0], p) || (ids[0] in m && m[ids[0]] && FirstUnusable(m, ids[1..], p))
  {
    if k :| 0 <= k < |ids| && ReferenceIs(m, ids[k], p) && forall j :: 0 <= j < k ==> ids[j] in m && m[ids[j]] {
      if k > 0 {
        assert ids[1..][k - 1] == ids[k];
        assert forall j :: 0 <= j < k - 1 ==> ids[1..][j] == ids[j + 1];
      }
    }
    if k :| 0 <= k < |ids[1..]| && ReferenceIs(m, ids[1..][k], p)
            && forall j :: 0 <= j < k ==> ids[1..][j] in m && m[ids[1..][j]] {
      assert ids[k + 1] == ids[1..][k];
      if ids[0] in m && m[ids[0]] {
        forall j | 0 <= j < k + 1 ensures ids[j] in m && m[ids[j]] {
          assert j > 0 ==> ids[1..][j - 1] == ids[j];
        }
      }
    }
  }

  lemma {:induction false} CompetencyProblemIs(m: map<Id, bool>, ids: seq<Id>, p: Problem)
    ensures CompetencyProblem(m, ids) == Some(p) <==> FirstUnusable(m, ids, p)
  {
    if ids != [] {
      FirstUnusableTail(m, ids, p);
      CompetencyProblemIs(m, ids[1..], p);
    }
  }

  function NumberProblem(it: Item, rows: Rows): Option<Problem> {
    if NumberTaken(rows, it) then Some(Duplicate) else None
  }

  /** The problem of one field, as it is entered. */
  function ProblemAt(it: Item, f: Field, rows: Rows, catalog: Catalog): Option<Problem> {
    match f
    case KindField => ReferenceProblem(catalog.kinds, it.kind)
    case OrganizationField => ReferenceProblem(catalog.organizations, it.organization)
    case NumberField => NumberProblem(it, rows)
    case CompetencyField => CompetencyProblem(catalog.competencies, it.competencies)
    case _ => None
  }

  lemma {:induction false} EntriesAre(kind: Option<Problem>, organization: Option<Problem>, number: Option<Problem>,
                                      competency: Option<Problem>, f: Field)
    ensures var r := Entry(KindField, kind) + Entry(OrganizationField, organization) + Entry(NumberField, number)
                     + Entry(CompetencyField, competency);
      var p := match f
               case KindField => kind
               case OrganizationField => organization
               case NumberField => number
               case CompetencyField => competency
               case _ => None;
      (f in r <==> p.Some?) && (f in r ==> Some(r[f]) == p)
  {
  }

  lemma {:induction false} ItemProblemsAre(it: Item, rows: Rows, catalog: Catalog, f: Field, p: Problem)
    ensures f in ItemProblems(it, rows, catalog) && ItemProblems(it, rows, catalog)[f] == p
       <==> FieldProblem(it, f, p, rows, catalog)
  {
    EntriesAre(ReferenceProblem(catalog.kinds, it.kind), ReferenceProblem(catalog.organizations, it.organization),
               NumberProblem(it, rows), CompetencyProblem(catalog.competencies, it.competencies), f);
    ProblemAtIs(it, f, p, rows, catalog);
  }

  lemma {:induction false} ProblemAtIs(it: Item, f: Field, p: Problem, rows: Rows, catalog: Catalog)
    ensures ProblemAt(it, f, rows, catalog) == Some(p) <==> FieldProblem(it, f, p, rows, catalog)
  {
    CompetencyProblemIs(catalog.competencies, it.competencies, p);
  }

  /** What is wrong with item `k`: its holder, or its file if the holder is known, or its fields if both are fine. */
  predicate ProblemOf(items: seq<Item>, k: nat, f: Field, p: Problem, rows: Rows, chain: R.Chain, users: Users,
                      catalog: Catalog)
    requires k < |items|
  {
    if items[k].holder !in users then f == HolderField && p == Unknown
    else if TakenFile(items, k, chain, users) then f == FileField && p == Duplicate
    else FieldProblem(items[k], f, p, rows, catalog)
  }

  /** Issued on chain, or asked for by an earlier item with a known holder. */
  predicate TakenFile(items: seq<Item>, k: nat, chain: R.Chain, users: Users)
    requires k < |items|
  {
    || (items[k].fileHash in chain.statuses && chain.statuses[items[k].fileHash] == R.Issued)
    || exists j :: 0 <= j < k && items[j].holder in users && items[j].fileHash == items[k].fileHash
  }

  ghost predicate SeenFile(items: seq<Item>, n: nat, h: Ascii, chain: R.Chain, users: Users)
    requires n <= |items|
  {
    R.StatusOf(chain, h) != R.Issued && exists j :: 0 <= j < n && items[j].holder in users && items[j].fileHash == h
  }

  lemma {:induction false} FileTaken(items: seq<Item>, k: nat, seen: set<Ascii>, chain: R.Chain, users: Users)
    requires k < |items| && forall h :: h in seen <==> SeenFile(items, k, h, chain, users)
    ensures TakenFile(items, k, chain, users)
       <==> R.StatusOf(chain, items[k].fileHash) == R.Issued || items[k].fileHash in seen
  {
    assert items[k].fileHash in seen <==> SeenFile(items, k, items[k].fileHash, chain, users);
  }

  /** Exactly the problems of the first `n` items. */
  ghost predicate ProblemsUpTo(problems: map<(nat, Field), Problem>, items: seq<Item>, n: nat, rows: Rows,
                               chain: R.Chain,
                               users: Users, catalog: Catalog)
    requires n <= |items|
  {
    && (forall k: nat, f :: k >= n ==> Lookup(problems, k, f) == None)
    && (forall k: nat, f, p :: k < n ==>
          (Lookup(problems, k, f) == Some(p) <==> ProblemOf(items, k, f, p, rows, chain, users, catalog)))
  }

  lemma {:induction false} OneProblem(problems: map<(nat, Field), Problem>, items: seq<Item>, i: nat, field: Field,
                                      problem: Problem, rows: Rows, chain: R.Chain, users: Users, catalog: Catalog)
    requires i < |items| && ProblemsUpTo(problems, items, i, rows, chain, users, catalog)
    requires forall f, p :: ProblemOf(items, i, f, p, rows, chain, users, catalog) <==> f == field && p == problem
    ensures ProblemsUpTo(problems[(i, field) := problem], items, i + 1, rows, chain, users, catalog)
  {
    var after := problems[(i, field) := problem];
    forall k: nat, f
      ensures Lookup(after, k, f) == if k == i && f == field then Some(problem) else Lookup(problems, k, f)
    {
    }
    forall k: nat, f | k >= i + 1 ensures Lookup(after, k, f) == None {
      assert Lookup(problems, k, f) == None;
    }
    forall k: nat, f, p | k < i + 1
      ensures Lookup(after, k, f) == Some(p) <==> ProblemOf(items, k, f, p, rows, chain, users, catalog)
    {
      assert Lookup(problems, i, f) == None;
    }
  }

  lemma {:induction false} ItemsProblems(problems: map<(nat, Field), Problem>, items: seq<Item>, i: nat,
                                         found: map<Field, Problem>, rows: Rows, chain: R.Chain, users: Users,
                                         catalog: Catalog)
    requires i < |items| && ProblemsUpTo(problems, items, i, rows, chain, users, catalog)
    requires items[i].holder in users && !TakenFile(items, i, chain, users)
    requires found == ItemProblems(items[i], rows, catalog)
    ensures ProblemsUpTo(problems + AtItem(found, i), items, i + 1, rows, chain, users, catalog)
  {
    forall f, p ensures f in found && found[f] == p <==> ProblemOf(items, i, f, p, rows, chain, users, catalog) {
      ItemProblemsAre(items[i], rows, catalog, f, p);
    }
    forall k: nat, f ensures Lookup(problems + AtItem(found, i), k, f) == AddedAt(problems, found, i, k, f) {
    }
  }

  function Lookup(problems: map<(nat, Field), Problem>, k: nat, f: Field): Option<Problem> {
    if (k, f) in problems then Some(problems[(k, f)]) else None
  }

  function AddedAt(problems: map<(nat, Field), Problem>, found: map<Field, Problem>, i: nat, k: nat,
                   f: Field): Option<Problem> {
    if k == i && f in found then Some(found[f]) else Lookup(problems, k, f)
  }

  /** Exactly the problems of the fields of the first `n` items. */
  ghost predicate FieldsUpTo(problems: map<(nat, Field), Problem>, items: seq<Item>, n: nat, rows: Rows,
                             catalog: Catalog)
    requires n <= |items|
  {
    && (forall k: nat, f :: k >= n ==> Lookup(problems, k, f) == None)
    && (forall k: nat, f, p :: k < n ==>
          (Lookup(problems, k, f) == Some(p) <==> FieldProblem(items[k], f, p, rows, catalog)))
  }

  lemma {:induction false} FieldsOfItem(problems: map<(nat, Field), Problem>, items: seq<Item>, i: nat,
                                        found: map<Field, Problem>, rows: Rows, catalog: Catalog)
    requires i < |items| && FieldsUpTo(problems, items, i, rows, catalog)
    requires found == ItemProblems(items[i], rows, catalog)
    ensures FieldsUpTo(problems + AtItem(found, i), items, i + 1, rows, catalog)
  {
    forall f, p ensures f in found && found[f] == p <==> FieldProblem(items[i], f, p, rows, catalog) {
      ItemProblemsAre(items[i], rows, catalog, f, p);
    }
    forall k: nat, f ensures Lookup(problems + AtItem(found, i), k, f) == AddedAt(problems, found, i, k, f) {
    }
  }

  function AtItem(found: map<Field, Problem>, i: nat): map<(nat, Field), Problem> {
    map f | f in found :: (i, f) := found[f]
  }

  lemma {:induction false} NoneAdded(problems: map<(nat, Field), Problem>, found: map<Field, Problem>, i: nat)
    ensures problems + AtItem(found, i) == map[] <==> problems == map[] && found == map[]
  {
    if found != map[] {
      var f :| f in found;
      assert (i, f) in AtItem(found, i);
    }
    if problems != map[] {
      var k :| k in problems;
      assert k in problems + AtItem(found, i);
    }
    if problems == map[] && found == map[] {
      assert problems + AtItem(found, i) == map[];
    }
  }

  /** A batch without problems is one that validation lets through. */
  lemma {:induction false} NoProblemsIsAccepted(w: World, problems: map<(nat, Field), Problem>, items: seq<Item>,
                                                catalog: Catalog)
    requires ProblemsUpTo(problems, items, |items|, w.rows, w.chain, w.users, catalog)
    ensures problems == map[] <==> IssueAccepted(w, items, catalog)
  {
    if problems == map[] {
      forall i | 0 <= i < |items|
        ensures items[i].holder in w.users && !TakenFile(items, i, w.chain, w.users)
        ensures ReferencesUsable(items[i], catalog) && !NumberTaken(w.rows, items[i])
      {
        NoProblemOf(w, items, i, catalog);
      }
      forall i, j | 0 <= i < j < |items| ensures items[i].fileHash != items[j].fileHash {
        assert !TakenFile(items, j, w.chain, w.users);
      }
    }
    if IssueAccepted(w, items, catalog) {
      forall key ensures key !in problems {
        AcceptedHasNone(w, problems, items, catalog, key);
      }
      assert problems == map[];
    }
  }

  lemma {:induction false} AcceptedHasNone(w: World, problems: map<(nat, Field), Problem>, items: seq<Item>,
                                           catalog: Catalog, key: (nat, Field))
    requires ProblemsUpTo(problems, items, |items|, w.rows, w.chain, w.users, catalog)
    requires IssueAccepted(w, items, catalog)
    ensures key !in problems
  {
    var (k, f) := key;
    if key in problems {
      assert Lookup(problems, k, f) == Some(problems[key]);
      ItemProblemsAre(items[k], w.rows, catalog, f, problems[(k, f)]);
      assert false;
    }
  }

  lemma {:induction false} WrongField(items: seq<Item>, k: nat, f: Field, p: Problem, w: World, catalog: Catalog)
    requires k < |items| && items[k].holder in w.users && !TakenFile(items, k, w.chain, w.users)
    requires FieldProblem(items[k], f, p, w.rows, catalog)
    ensures ProblemOf(items, k, f, p, w.rows, w.chain, w.users, catalog)
  {
  }

  lemma {:induction false} NoProblemOf(w: World, items: seq<Item>, k: nat, catalog: Catalog)
    requires k < |items| && forall f, p :: !ProblemOf(items, k, f, p, w.rows, w.chain, w.users, catalog)
    ensures items[k].holder in w.users && !TakenFile(items, k, w.chain, w.users)
    ensures ReferencesUsable(items[k], catalog) && !NumberTaken(w.rows, items[k])
  {
    assert !ProblemOf(items, k, HolderField, Unknown, w.rows, w.chain, w.users, catalog);
    assert !ProblemOf(items, k, FileField, Duplicate, w.rows, w.chain, w.users, catalog);
    var found := ItemProblems(items[k], w.rows, catalog);
    forall f ensures f !in found {
      if f in found {
        ItemProblemsAre(items[k], w.rows, catalog, f, found[f]);
        WrongField(items, k, f, found[f], w, catalog);
        assert false;
      }
    }
    assert found == map[];
  }

  /** CountActiveByFileHashes is zero. */
  predicate FilesFree(items: seq<Item>, rows: Rows) {
    forall i, id | 0 <= i < |items| && id in rows :: Active(rows[id]) ==> rows[id].fileHash != items[i].fileHash
  }

  predicate Submittable(it: Item, rows: Rows, catalog: Catalog) {
    ReferencesUsable(it, catalog) && !NumberTaken(rows, it)
  }

  lemma {:induction false} SubmittableIsAccepted(w: World, items: seq<Item>, catalog: Catalog)
    ensures SubmitAccepted(w, items, catalog)
       <==> FilesFree(items, w.rows) && forall k :: 0 <= k < |items| ==> Submittable(items[k], w.rows, catalog)
  {
    assert forall k :: 0 <= k < |items| ==>
      (Submittable(items[k], w.rows, catalog)
       <==> ReferencesUsable(items[k], catalog) && !NumberTaken(w.rows, items[k]));
  }

  method PrepareAll(items: seq<Item>, newIds: seq<Id>, uris: seq<string>, actor: Id, now: Time, issue: bool)
    returns (creds: seq<Credential>)
    requires |newIds| == |items| && |uris| == |items|
    ensures creds == Prepare(items, newIds, uris, actor, now, issue)
  {
    creds := [];
    for i := 0 to |items|
      invariant |creds| == i && forall k :: 0 <= k < i ==>
        creds[k] == Prepare(items, newIds, uris, actor, now, issue)[k]
    {
      creds := creds + [if issue then Issuing(items[i], newIds[i], uris[i], actor, now)
                        else Submitting(items[i], newIds[i], uris[i], actor, now)];
    }
  }

  lemma {:induction false} DistinctTargets(rows: Rows, order: seq<Id>)
    requires Distinct(order) && (forall id :: id in order ==> id in rows) && Keyed(rows)
    ensures forall i, j :: 0 <= i < j < |order| ==> Fetch(rows, order)[i].id != Fetch(rows, order)[j].id
  {
    forall i, j | 0 <= i < j < |order| ensures Fetch(rows, order)[i].id != Fetch(rows, order)[j].id {
      assert order[i] in order && order[j] in order;
    }
  }

  lemma {:induction false} AfterMintIgnores(w: World, w1: World, rows: Rows, chain: R.Chain, creds: seq<Credential>,
                                            records: seq<R.Record>, fault: Fault)
    requires w1.jobs == w.jobs && w1.users == w.users && w1.clock == w.clock && |creds| == |records|
    ensures AfterMint(w1, rows, chain, creds, records, fault) == AfterMint(w, rows, chain, creds, records, fault)
  {
  }

  /** A mint reads only the chain, the queue, the accounts and the clock of its world. */
  lemma {:induction false} MintIgnoresTables(w: World, w1: World, rows: Rows, signer: Address, creds: seq<Credential>,
                                             fault: Fault)
    requires w1.chain == w.chain && w1.jobs == w.jobs && w1.users == w.users && w1.clock == w.clock
    ensures MintCredentials(w1, rows, signer, creds, fault) == MintCredentials(w, rows, signer, creds, fault)
  {
    var records := RecordsFor(creds, w.users, signer, R.NonceOf(w.chain, signer));
    if R.IssueBatch(w.chain, signer, records).Some? {
      AfterMintIgnores(w, w1, rows, R.IssueBatch(w.chain, signer, records).value, creds, records, fault);
    }
  }
}
