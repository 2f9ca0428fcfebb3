/** What runs of the account operations keep: the two role tables agree, and there is one SuperAdmin. */
module RolesInvariant {
  import opened Base
  import opened Roles

  ghost predicate Inv(w: Realm) {
    Agrees(w) && WellFormed(w.users) && OneSuper(w.users)
  }

  /** Who the SuperAdmin is stays, whether live or not. */
  ghost predicate SameSuper(users: Accounts, users': Accounts) {
    forall id :: IsSuper(users, id) <==> IsSuper(users', id)
  }

  /** Losing the role, or becoming live, keeps a single SuperAdmin. */
  lemma {:induction false} StillOneSuper(users: Accounts, users': Accounts)
    requires OneSuper(users)
    requires forall id :: IsSuper(users', id) ==> IsSuper(users, id) && !users'[id].trashed
    ensures OneSuper(users')
  {
    forall a, b | IsSuper(users', a) && IsSuper(users', b) ensures a == b {
      assert IsSuper(users, a) && IsSuper(users, b);
    }
  }

  // ----- Store -----

  lemma {:induction false} AddAllIs(users: Accounts, news: seq<Newcomer>)
    requires forall i :: 0 <= i < |news| ==> news[i].id !in users
    requires forall i, j :: 0 <= i < j < |news| ==> news[i].id != news[j].id
    ensures forall id :: id in users ==> id in AddAll(users, news) && AddAll(users, news)[id] == users[id]
    ensures forall i :: 0 <= i < |news| ==>
      && news[i].id in AddAll(users, news)
      && AddAll(users, news)[news[i].id] == Account(news[i].wallet, news[i].role, false)
    ensures forall id :: id in AddAll(users, news) ==> id in users || exists i :: 0 <= i < |news| && news[i].id == id
  {
    if news != [] {
      var n := |news| - 1;
      AddAllIs(users, news[..n]);
      forall i | 0 <= i < n ensures news[..n][i] == news[i] {
      }
      forall id | id in AddAll(users, news) && id !in users ensures exists i :: 0 <= i < |news| && news[i].id == id {
        if id != news[n].id {
          var i :| 0 <= i < n && news[..n][i].id == id;
          assert news[i].id == id;
        }
      }
    }
  }

  lemma {:induction false} LastOf(changes: seq<Change>, i: nat)
    requires i < |changes| && forall j :: i < j < |changes| ==> changes[j].wallet != changes[i].wallet
    ensures LastRole(changes, changes[i].wallet) == Some(changes[i].role)
  {
    var n := |changes| - 1;
    if i < n {
      assert changes[..n][i] == changes[i];
      assert forall j :: i < j < n ==> changes[..n][j] == changes[j];
      LastOf(changes[..n], i);
    }
  }

  lemma {:induction false} LastOfNone(changes: seq<Change>, a: Wallet)
    requires forall j :: 0 <= j < |changes| ==> changes[j].wallet != a
    ensures LastRole(changes, a) == None
  {
    if changes != [] {
      LastOfNone(changes[..|changes| - 1], a);
    }
  }

  lemma {:induction false} StoreMatches(w: Realm, news: seq<Newcomer>)
    requires Agrees(w) && NewAccounts(w, news)
    ensures Matches(AddAll(w.users, news), w.chain, StoreChanges(news))
  {
    AddAllIs(w.users, news);
    var users' := AddAll(w.users, news);
    var changes := StoreChanges(news);
    forall id | id in users'
      ensures Fits(users'[id], w.chain, changes)
    {
      if id in w.users {
        LastOfNone(changes, w.users[id].wallet);
      } else {
        var i :| 0 <= i < |news| && news[i].id == id;
        LastOf(changes, i);
      }
    }
  }

  lemma {:induction false} StoredWallets(w: Realm, news: seq<Newcomer>)
    requires WellFormed(w.users) && NewAccounts(w, news)
    ensures var users' := AddAll(w.users, news);
      forall a, b :: a in users' && b in users' && a != b ==> users'[a].wallet != users'[b].wallet
  {
    AddAllIs(w.users, news);
    var users' := AddAll(w.users, news);
    forall a, b | a in users' && b in users' && a != b ensures users'[a].wallet != users'[b].wallet {
      if a !in w.users {
        var i :| 0 <= i < |news| && news[i].id == a;
        if b !in w.users {
          var j :| 0 <= j < |news| && news[j].id == b;
          assert i < j || j < i;
        }
      } else if b !in w.users {
        var j :| 0 <= j < |news| && news[j].id == b;
      }
    }
  }

  lemma {:induction false} StoredWellFormed(w: Realm, news: seq<Newcomer>)
    requires WellFormed(w.users) && OneSuper(w.users) && NewAccounts(w, news)
    requires forall i :: 0 <= i < |news| ==> news[i].role != SuperAdmin && news[i].role != NoRole
    ensures WellFormed(AddAll(w.users, news)) && OneSuper(AddAll(w.users, news))
    ensures SameSuper(w.users, AddAll(w.users, news))
  {
    AddAllIs(w.users, news);
    var users' := AddAll(w.users, news);
    StoredWallets(w, news);
    forall id | id in users' ensures users'[id].role != NoRole && (IsSuper(users', id) ==> IsSuper(w.users, id)) {
      if id !in w.users {
        var i :| 0 <= i < |news| && news[i].id == id;
      }
    }
  }

  // ----- Update -----

  lemma {:induction false} EditOfOnce(edits: seq<Edit>, i: nat)
    requires i < |edits| && forall j, k :: 0 <= j < k < |edits| ==> edits[j].id != edits[k].id
    ensures EditOf(edits, edits[i].id) == edits[i].role
  {
    if i > 0 {
      assert edits[1..][i - 1] == edits[i];
      EditOfOnce(edits[1..], i - 1);
    } else if edits[0].role == None {
      EditOfNone(edits[1..], edits[0].id);
    }
  }

  lemma {:induction false} EditOfNone(edits: seq<Edit>, id: Id)
    requires forall j :: 0 <= j < |edits| ==> edits[j].id != id
    ensures EditOf(edits, id) == None
  {
    if edits != [] {
      EditOfNone(edits[1..], id);
    }
  }

  /** The last change for the wallet of an account is what its own edit asks for, if it changes anything. */
  lemma {:induction false} EditChangesAre(users: Accounts, edits: seq<Edit>, id: Id)
    requires WellFormed(users) && id in users
    requires forall i :: 0 <= i < |edits| ==> edits[i].id in users
    requires forall j, k :: 0 <= j < k < |edits| ==> edits[j].id != edits[k].id
    ensures forall i :: 0 <= i < |edits| && edits[i].id == id ==>
      LastRole(EditChanges(users, edits), users[id].wallet)
      == (if edits[i].role == Some(users[id].role) then None else edits[i].role)
    ensures (forall i :: 0 <= i < |edits| ==> edits[i].id != id) ==>
      LastRole(EditChanges(users, edits), users[id].wallet) == None
  {
    if edits != [] {
      var n := |edits| - 1;
      var e := edits[n];
      assert forall i :: 0 <= i < n ==> edits[..n][i] == edits[i];
      EditChangesAre(users, edits[..n], id);
      var front := EditChanges(users, edits[..n]);
      if e.role.Some? && e.role.value != users[e.id].role {
        assert (front + [Change(users[e.id].wallet, e.role.value)])[..|front|] == front;
      }
    }
  }

  lemma {:induction false} UpdateMatches(w: Realm, edits: seq<Edit>)
    requires Agrees(w) && WellFormed(w.users) && EachOnce(w.users, IdsOf(edits))
    requires forall i :: 0 <= i < |edits| ==> edits[i].id in w.users && !w.users[edits[i].id].trashed
    ensures Matches(EditRoles(w.users, edits), w.chain, EditChanges(w.users, edits))
  {
    var users' := EditRoles(w.users, edits);
    assert forall j, k :: 0 <= j < k < |edits| ==> IdsOf(edits)[j] != IdsOf(edits)[k];
    forall id | id in users'
      ensures Fits(users'[id], w.chain, EditChanges(w.users, edits))
    {
      EditChangesAre(w.users, edits, id);
      if i :| 0 <= i < |edits| && edits[i].id == id {
        EditOfOnce(edits, i);
      } else {
        EditOfNone(edits, id);
      }
    }
  }

  lemma {:induction false} EditOfIs(edits: seq<Edit>, id: Id)
    ensures EditOf(edits, id).Some? ==>
      exists i :: 0 <= i < |edits| && edits[i].id == id && edits[i].role == EditOf(edits, id)
  {
    if edits != [] {
      EditOfIs(edits[1..], id);
      if EditOf(edits[1..], id).Some? && !(edits[0].id == id && edits[0].role.Some?) {
        var i :| 0 <= i < |edits[1..]| && edits[1..][i].id == id && edits[1..][i].role == EditOf(edits[1..], id);
        assert edits[i + 1] == edits[1..][i];
      }
    }
  }

  lemma {:induction false} UpdatedWellFormed(users: Accounts, edits: seq<Edit>)
    requires WellFormed(users) && OneSuper(users)
    requires forall i :: 0 <= i < |edits| ==> edits[i].role != Some(SuperAdmin) && edits[i].role != Some(NoRole)
    ensures WellFormed(EditRoles(users, edits)) && OneSuper(EditRoles(users, edits))
    ensures forall id :: IsSuper(EditRoles(users, edits), id) ==> IsSuper(users, id)
  {
    forall id | id in users
      ensures EditRoles(users, edits)[id].role != NoRole
      ensures EditRoles(users, edits)[id].role == SuperAdmin ==> users[id].role == SuperAdmin
    {
      EditOfIs(edits, id);
    }
    forall id | IsSuper(EditRoles(users, edits), id) ensures IsSuper(users, id) {
      assert id in users;
    }
    StillOneSuper(users, EditRoles(users, edits));
  }

  // ----- UpdateRole -----

  lemma {:induction false} AssignLast(users: Accounts, updates: seq<Assignment>, id: Id)
    requires WellFormed(users) && id in users
    requires forall i :: 0 <= i < |updates| ==> updates[i].id in users
    ensures LastRole(AssignChanges(users, updates), users[id].wallet) == FinalRole(updates, id)
  {
    if updates != [] {
      var n := |updates| - 1;
      AssignLast(users, updates[..n], id);
      assert AssignChanges(users, updates)[..n] == AssignChanges(users, updates[..n]);
    }
  }

  lemma {:induction false} SomeRoleIs(updates: seq<Assignment>, id: Id)
    ensures FirstRole(updates, id).Some? <==> exists i :: 0 <= i < |updates| && updates[i].id == id
    ensures FirstRole(updates, id).Some? ==>
      exists i :: 0 <= i < |updates| && updates[i].id == id && Some(updates[i].role) == FirstRole(updates, id)
  {
    if updates != [] {
      SomeRoleIs(updates[1..], id);
      forall i | 0 < i < |updates| ensures updates[i] == updates[1..][i - 1] {
      }
      if updates[0].id != id && FirstRole(updates[1..], id).Some? {
        var i :| 0 <= i < |updates[1..]| && updates[1..][i].id == id
                 && Some(updates[1..][i].role) == FirstRole(updates[1..], id);
        assert updates[i + 1] == updates[1..][i];
      }
    }
  }

  lemma {:induction false} FinalRoleIs(updates: seq<Assignment>, id: Id)
    ensures FinalRole(updates, id).Some? <==> exists i :: 0 <= i < |updates| && updates[i].id == id
  {
    if updates != [] {
      var n := |updates| - 1;
      FinalRoleIs(updates[..n], id);
      forall i | 0 <= i < n ensures updates[..n][i] == updates[i] {
      }
      if i :| 0 <= i < |updates| && updates[i].id == id {
        assert i < n ==> updates[..n][i].id == id;
      }
    }
  }

  lemma {:induction false} AssignMatches(w: Realm, updates: seq<Assignment>)
    requires Agrees(w) && WellFormed(w.users)
    requires forall i :: 0 <= i < |updates| ==> updates[i].id in w.users && !w.users[updates[i].id].trashed
    ensures Matches(AssignRoles(w.users, updates), w.chain, AssignChanges(w.users, updates))
       <==> forall id :: FirstRole(updates, id) == FinalRole(updates, id)
  {
    var users' := AssignRoles(w.users, updates);
    var changes := AssignChanges(w.users, updates);
    forall id
      ensures id in w.users ==>
        (Fits(users'[id], w.chain, changes) <==> FirstRole(updates, id) == FinalRole(updates, id))
              ensures id !in w.users ==> FirstRole(updates, id) == FinalRole(updates, id)
    {
      SomeRoleIs(updates, id);
      FinalRoleIs(updates, id);
      if id in w.users {
        AssignLast(w.users, updates, id);
      }
    }
    assert users'.Keys == w.users.Keys;
    if Matches(users', w.chain, changes) {
      forall id ensures FirstRole(updates, id) == FinalRole(updates, id) {
        assert id in w.users ==> Fits(users'[id], w.chain, changes);
      }
    } else {
      var id :| id in users' && !Fits(users'[id], w.chain, changes);
      assert FirstRole(updates, id) != FinalRole(updates, id);
    }
  }

  lemma {:induction false} AssignedWellFormed(users: Accounts, updates: seq<Assignment>)
    requires WellFormed(users) && OneSuper(users)
    requires forall i :: 0 <= i < |updates| ==> updates[i].role != SuperAdmin && updates[i].role != NoRole
    ensures WellFormed(AssignRoles(users, updates)) && OneSuper(AssignRoles(users, updates))
    ensures forall id :: IsSuper(AssignRoles(users, updates), id) ==> IsSuper(users, id)
    ensures (forall i :: 0 <= i < |updates| ==> !IsSuper(users, updates[i].id)) ==>
      SameSuper(users, AssignRoles(users, updates))
  {
    forall id | id in users
      ensures AssignRoles(users, updates)[id].role != NoRole
      ensures AssignRoles(users, updates)[id].role == SuperAdmin ==> users[id].role == SuperAdmin
      ensures (forall i :: 0 <= i < |updates| ==> updates[i].id != id) ==> AssignRoles(users, updates)[id] == users[id]
    {
      SomeRoleIs(updates, id);
    }
    forall id | IsSuper(AssignRoles(users, updates), id) ensures IsSuper(users, id) {
      assert id in users;
    }
    StillOneSuper(users, AssignRoles(users, updates));
  }

  // ----- Delete and Restore -----

  lemma {:induction false} RevocationsAre(users: Accounts, order: seq<Id>, id: Id)
    requires WellFormed(users) && id in users && Distinct(order) && forall x :: x in order ==> x in users
    ensures LastRole(RevocationsFor(users, order), users[id].wallet)
         == if id in order && !users[id].trashed then Some(NoRole) else None
  {
    if order != [] {
      var n := |order| - 1;
      assert order == order[..n] + [order[n]];
      RevocationsAre(users, order[..n], id);
      var front := RevocationsFor(users, order[..n]);
      assert (front + [Change(users[order[n]].wallet, NoRole)])[..|front|] == front;
    }
  }

  lemma {:induction false} DeleteMatches(w: Realm, ids: seq<Id>, order: seq<Id>)
    requires Agrees(w) && WellFormed(w.users) && IsScan(order, ids, w.users)
    ensures Matches(Trash(w.users, ids), w.chain, RevocationsFor(w.users, order))
  {
    forall id | id in w.users
      ensures Fits(Trash(w.users, ids)[id], w.chain, RevocationsFor(w.users, order))
    {
      RevocationsAre(w.users, order, id);
    }
  }

  lemma {:induction false} RestoreMatches(w: Realm, ids: seq<Id>, order: seq<Id>)
    requires Agrees(w) && WellFormed(w.users) && IsScan(order, ids, w.users)
    ensures Matches(Untrash(w.users, ids), w.chain, RestorationsFor(w.users, order))
  {
    var changes := RestorationsFor(w.users, order);
    forall id | id in w.users
      ensures Fits(Untrash(w.users, ids)[id], w.chain, changes)
    {
      if id in order {
        var i :| 0 <= i < |order| && order[i] == id;
        OthersDiffer(w.users, order, i);
        LastOf(changes, i);
      } else {
        forall j | 0 <= j < |changes| ensures changes[j].wallet != w.users[id].wallet {
          assert order[j] in order;
        }
        LastOfNone(changes, w.users[id].wallet);
      }
    }
  }

  lemma {:induction false} OthersDiffer(users: Accounts, order: seq<Id>, i: nat)
    requires WellFormed(users) && Distinct(order) && i < |order| && forall x :: x in order ==> x in users
    ensures forall j :: i < j < |order| ==>
      RestorationsFor(users, order)[j].wallet != RestorationsFor(users, order)[i].wallet
  {
    forall j | i < j < |order| ensures users[order[j]].wallet != users[order[i]].wallet {
      assert order[j] in order && order[i] in order;
    }
  }

  // ----- Every action -----

  /** What an action that fails nowhere after its transaction keeps: agreement and the one SuperAdmin;
      and a failure leaves both sides untouched. */
  ghost predicate StepKeeps(w: Realm, s: RoleStep) {
    Inv(s.realm) && (s.outcome.Failed? ==> s.realm == w)
  }

  lemma {:induction false} SyncKeeps(w: Realm, users': Accounts, signer: Role, changes: seq<Change>, fault: RoleFault)
    requires Inv(w) && Matches(users', w.chain, changes) && WellFormed(users') && OneSuper(users')
    requires fault != MinedUnseen && fault != LateFails
    ensures StepKeeps(w, Sync(w, users', signer, changes, fault))
  {
    SyncAgrees(w, users', signer, changes, fault);
  }

  lemma {:induction false} StoreKeeps(w: Realm, actor: Id, news: seq<Newcomer>, valid: bool, fault: RoleFault)
    requires Inv(w) && actor in w.users && NewAccounts(w, news) && fault != MinedUnseen && fault != LateFails
    ensures StepKeeps(w, Store(w, actor, news, valid, fault))
    ensures SameSuper(w.users, Store(w, actor, news, valid, fault).realm.users)
  {
    if StoreAllowed(w.users[actor].role, news, valid) && !(exists i :: 0 <= i < |news| && news[i].role == NoRole) {
      StoreMatches(w, news);
      StoredWellFormed(w, news);
      SyncKeeps(w, AddAll(w.users, news), SignerRole(w, actor), StoreChanges(news), fault);
    }
  }

  lemma {:induction false} UpdateKeeps(w: Realm, actor: Id, edits: seq<Edit>, valid: bool, fault: RoleFault)
    requires Inv(w) && actor in w.users && fault != MinedUnseen && fault != LateFails
    ensures StepKeeps(w, Update(w, actor, edits, valid, fault))
  {
    if UpdateStarts(w, actor, edits) && EachOnce(w.users, IdsOf(edits)) && UpdateAllowed(w, actor, edits, valid) {
      forall i | 0 <= i < |edits|
        ensures edits[i].id in w.users && !w.users[edits[i].id].trashed && edits[i].role != Some(SuperAdmin)
      {
        assert IdsOf(edits)[i] == edits[i].id && EditAllowed(w, actor, edits[i]);
      }
      if !(exists i :: 0 <= i < |edits| && edits[i].role == Some(NoRole)) {
        UpdateMatches(w, edits);
        UpdatedWellFormed(w.users, edits);
        SyncKeeps(w, EditRoles(w.users, edits), SignerRole(w, actor), EditChanges(w.users, edits), fault);
      }
    }
  }

  lemma {:induction false} UpdateRoleKeeps(w: Realm, actor: Id, updates: seq<Assignment>, fault: RoleFault)
    requires Inv(w) && actor in w.users && fault != MinedUnseen && fault != LateFails
    requires forall id :: FirstRole(updates, id) == FinalRole(updates, id)
    ensures StepKeeps(w, UpdateRole(w, actor, updates, fault))
    ensures !w.users[actor].trashed ==> SameSuper(w.users, UpdateRole(w, actor, updates, fault).realm.users)
  {
    if AssignmentsPass(w, actor, updates) {
      PassingAssignments(w, actor, updates);
      AssignMatches(w, updates);
      AssignedWellFormed(w.users, updates);
      SyncKeeps(w, AssignRoles(w.users, updates), SignerRole(w, actor), AssignChanges(w.users, updates), fault);
    }
    if !w.users[actor].trashed {
      UpdateRoleSparesSuper(w, actor, updates, fault);
    }
  }

  /** What UpdateRole asks of its batch before it writes. */
  predicate AssignmentsPass(w: Realm, actor: Id, updates: seq<Assignment>)
    requires actor in w.users
  {
    && !(exists i :: 0 <= i < |updates| && !AssignmentAllowed(w, actor, updates[i]))
    && !(exists i :: 0 <= i < |updates| && updates[i].role == NoRole)
  }

  lemma {:induction false} PassingAssignments(w: Realm, actor: Id, updates: seq<Assignment>)
    requires actor in w.users && AssignmentsPass(w, actor, updates)
    ensures forall i :: 0 <= i < |updates| ==> updates[i].id in w.users && !w.users[updates[i].id].trashed
    ensures forall i :: 0 <= i < |updates| ==>
      updates[i].role != SuperAdmin && updates[i].role != NoRole && AssignmentAllowed(w, actor, updates[i])
  {
    forall i | 0 <= i < |updates| ensures AssignmentAllowed(w, actor, updates[i]) && updates[i].role != NoRole {
    }
  }

  /** UpdateRole never changes who the SuperAdmin is, whatever the batch and whatever fails: the policy
      bars an Admin from it, the contract bars everybody below, and the SuperAdmin may not name itself. */
  lemma {:induction false} UpdateRoleSparesSuper(w: Realm, actor: Id, updates: seq<Assignment>, fault: RoleFault)
    requires Inv(w) && actor in w.users && !w.users[actor].trashed
    ensures SameSuper(w.users, UpdateRole(w, actor, updates, fault).realm.users)
  {
    var s := UpdateRole(w, actor, updates, fault);
    if s.outcome == Done && updates != [] {
      PassingAssignments(w, actor, updates);
      SetRolesIs(w.chain, SignerRole(w, actor), AssignChanges(w.users, updates));
      forall i | 0 <= i < |updates| ensures !IsSuper(w.users, updates[i].id) {
        OnlySuperAboveAdmin(w, actor, updates[i]);
      }
      AssignedWellFormed(w.users, updates);
    }
  }

  lemma {:induction false} OnlySuperAboveAdmin(w: Realm, actor: Id, a: Assignment)
    requires Inv(w) && actor in w.users && !w.users[actor].trashed && AssignmentAllowed(w, actor, a)
    requires Rank(SignerRole(w, actor)) >= Rank(Admin)
    ensures !IsSuper(w.users, a.id)
  {
    SignerIs(w, actor);
    assert w.users[actor].role == Admin || IsSuper(w.users, actor);
  }

  /** A committed UpdateRole keeps the tables in agreement if and only if the first and the last role it
      gives to each account are the same; distinct ids always satisfy that. */
  lemma {:induction false} RepeatedIdsExactly(w: Realm, actor: Id, updates: seq<Assignment>)
    requires Inv(w) && actor in w.users && UpdateRole(w, actor, updates, NoFault).outcome == Done
    ensures Agrees(UpdateRole(w, actor, updates, NoFault).realm)
       <==> forall id :: FirstRole(updates, id) == FinalRole(updates, id)
  {
    forall i | 0 <= i < |updates| ensures updates[i].id in w.users && !w.users[updates[i].id].trashed {
      assert AssignmentAllowed(w, actor, updates[i]);
    }
    AssignMatches(w, updates);
    var changes := AssignChanges(w.users, updates);
    if changes != [] {
      SetRolesIs(w.chain, SignerRole(w, actor), changes);
    }
  }

  /** In particular a committed batch of distinct accounts always leaves the two sides agreeing. */
  lemma {:induction false} DistinctIdsAgree(w: Realm, actor: Id, updates: seq<Assignment>)
    requires Inv(w) && actor in w.users && UpdateRole(w, actor, updates, NoFault).outcome == Done
    requires forall i, j :: 0 <= i < j < |updates| ==> updates[i].id != updates[j].id
    ensures Agrees(UpdateRole(w, actor, updates, NoFault).realm)
  {
    forall id ensures FirstRole(updates, id) == FinalRole(updates, id) {
      DistinctIsConsistent(updates, id);
    }
    RepeatedIdsExactly(w, actor, updates);
  }

  /** It can fail: naming a holder twice commits the first role in the database and the last on chain. */
  lemma {:induction false} RepeatedIdsDisagree(w: Realm, actor: Id, id: Id)
    requires Inv(w) && IsSuper(w.users, actor) && id in w.users && id != actor
    requires w.users[id].role == Holder && !w.users[id].trashed
    ensures var s := UpdateRole(w, actor, [Assignment(id, Issuer), Assignment(id, Admin)], NoFault);
      s.outcome == Done && s.realm.users[id].role == Issuer && ChainRole(s.realm.chain, w.users[id].wallet) == Admin
  {
    var updates := [Assignment(id, Issuer), Assignment(id, Admin)];
    var changes := AssignChanges(w.users, updates);
    var wallet := w.users[id].wallet;
    assert changes == [Change(wallet, Issuer), Change(wallet, Admin)];
    assert changes[..1] == [Change(wallet, Issuer)];
    assert changes[..1][..0] == [];
    SignerIs(w, actor);
    assert SetRoles(w.chain, SuperAdmin, changes[..1]) == Some(w.chain[wallet := Issuer]);
    TwoAssignments(updates[0], updates[1], id);
  }

  lemma {:induction false} DistinctIsConsistent(updates: seq<Assignment>, id: Id)
    requires forall i, j :: 0 <= i < j < |updates| ==> updates[i].id != updates[j].id
    ensures FirstRole(updates, id) == FinalRole(updates, id)
  {
    if updates != [] {
      var n := |updates| - 1;
      DistinctIsConsistent(updates[..n], id);
      FirstOfFront(updates, id);
      SomeRoleIs(updates[..n], id);
    }
  }

  lemma {:induction false} FirstOfFront(updates: seq<Assignment>, id: Id)
    requires updates != []
    ensures var n := |updates| - 1;
      FirstRole(updates, id)
      == FirstRole(updates[..n], id).Or(if updates[n].id == id then Some(updates[n].role) else None)
  {
    var n := |updates| - 1;
    if n > 0 && updates[0].id != id {
      FirstOfFront(updates[1..], id);
      assert updates[1..][..n - 1] == updates[..n][1..];
    }
  }

  /** A live caller's role on chain is its role in the database. */
  lemma {:induction false} SignerIs(w: Realm, actor: Id)
    requires Agrees(w) && actor in w.users && !w.users[actor].trashed
    ensures SignerRole(w, actor) == w.users[actor].role
  {
  }

  /** Under agreement nobody but the SuperAdmin could delete the SuperAdmin, and nobody deletes itself. */
  lemma {:induction false} DeleteSparesSuper(w: Realm, actor: Id, ids: seq<Id>, order: seq<Id>, fault: RoleFault,
                                             id: Id)
    requires Inv(w) && actor in w.users && !w.users[actor].trashed && IsScan(order, ids, w.users)
    requires id in ids && IsSuper(w.users, id)
    ensures Delete(w, actor, ids, order, fault).outcome.Failed?
  {
    assert id in order;
    var i :| 0 <= i < |order| && order[i] == id;
    RevocationsAre(w.users, order, id);
    var changes := RevocationsFor(w.users, order);
    assert changes != [];
    SignerIs(w, actor);
    assert actor !in ids ==> !IsSuper(w.users, actor);
    if SetRoles(w.chain, SignerRole(w, actor), changes).Some? {
      SetRolesIs(w.chain, SignerRole(w, actor), changes);
    }
  }

  lemma {:induction false} DeletedOneSuper(w: Realm, actor: Id, ids: seq<Id>, order: seq<Id>, fault: RoleFault)
    requires Inv(w) && actor in w.users && !w.users[actor].trashed && IsScan(order, ids, w.users)
    requires Delete(w, actor, ids, order, fault).outcome == Done
    ensures OneSuper(Trash(w.users, ids)) && SameSuper(w.users, Trash(w.users, ids)) && WellFormed(Trash(w.users, ids))
  {
    forall id | IsSuper(w.users, id) ensures id !in ids {
      if id in ids {
        DeleteSparesSuper(w, actor, ids, order, fault, id);
      }
    }
    StillOneSuper(w.users, Trash(w.users, ids));
  }

  lemma {:induction false} DeleteKeeps(w: Realm, actor: Id, ids: seq<Id>, order: seq<Id>, fault: RoleFault)
    requires Inv(w) && actor in w.users && !w.users[actor].trashed && IsScan(order, ids, w.users)
    requires fault != MinedUnseen && fault != LateFails
    ensures StepKeeps(w, Delete(w, actor, ids, order, fault))
    ensures SameSuper(w.users, Delete(w, actor, ids, order, fault).realm.users)
  {
    var s := Delete(w, actor, ids, order, fault);
    DeleteMatches(w, ids, order);
    SyncAgrees(w, Trash(w.users, ids), SignerRole(w, actor), RevocationsFor(w.users, order), fault);
    if s.outcome == Done {
      DeletedOneSuper(w, actor, ids, order, fault);
    }
  }

  lemma {:induction false} RestoreKeeps(w: Realm, actor: Id, ids: seq<Id>, order: seq<Id>, fault: RoleFault)
    requires Inv(w) && actor in w.users && IsScan(order, ids, w.users) && fault != MinedUnseen && fault != LateFails
    ensures StepKeeps(w, Restore(w, actor, ids, order, fault))
    ensures SameSuper(w.users, Restore(w, actor, ids, order, fault).realm.users)
  {
    RestoreMatches(w, ids, order);
    StillOneSuper(w.users, Untrash(w.users, ids));
    SyncKeeps(w, Untrash(w.users, ids), SignerRole(w, actor), RestorationsFor(w.users, order), fault);
  }

  lemma {:induction false} TwoAssignments(a: Assignment, b: Assignment, id: Id)
    ensures FirstRole([a, b], id) == if id == a.id then Some(a.role) else if id == b.id then Some(b.role) else None
  {
    assert [a, b][1..] == [b];
    assert [b][1..] == [];
    assert FirstRole([b], id) == if id == b.id then Some(b.role) else None;
  }

  /** A committed transfer moves the role from the caller, who had it, to the target. */
  lemma {:induction false} TransferMoves(w: Realm, actor: Id, target: Id, fault: RoleFault)
    requires Inv(w) && actor in w.users && !w.users[actor].trashed && Transfer(w, actor, target, fault).outcome == Done
    ensures IsSuper(w.users, actor) && target in w.users && !w.users[target].trashed
    ensures var users' := Transfer(w, actor, target, fault).realm.users;
      && users'.Keys == w.users.Keys
      && users'[actor] == w.users[actor].(role := Admin) && users'[target] == w.users[target].(role := SuperAdmin)
      && forall id :: id in w.users && id != actor && id != target ==> users'[id] == w.users[id]
  {
    var updates := [Assignment(actor, Admin), Assignment(target, SuperAdmin)];
    forall id ensures FirstRole(updates, id)
      == if id == actor then Some(Admin) else if id == target then Some(SuperAdmin) else None
    {
      TwoAssignments(Assignment(actor, Admin), Assignment(target, SuperAdmin), id);
    }
  }

  lemma {:induction false} TransferKeeps(w: Realm, actor: Id, target: Id, fault: RoleFault)
    requires Inv(w) && actor in w.users && !w.users[actor].trashed && fault != MinedUnseen && fault != LateFails
    ensures StepKeeps(w, Transfer(w, actor, target, fault))
  {
    var s := Transfer(w, actor, target, fault);
    if s.outcome == Done {
      TransferMoves(w, actor, target, fault);
      forall id | IsSuper(s.realm.users, id) ensures id == target {
        assert id != actor && id != target ==> IsSuper(w.users, id) && IsSuper(w.users, actor);
      }
    }
  }

  lemma {:induction false} DoKeeps(w: Realm, a: RoleAction)
    requires Inv(w) && Enabled(w, a) && !Late(a) && Consistent(a)
    ensures StepKeeps(w, Do(w, a))
  {
    match a
    case DoStore(actor, news, valid, fault) => StoreKeeps(w, actor, news, valid, fault);
    case DoUpdate(actor, edits, valid, fault) => UpdateKeeps(w, actor, edits, valid, fault);
    case DoUpdateRole(actor, updates, fault) => UpdateRoleKeeps(w, actor, updates, fault);
    case DoDelete(actor, ids, order, fault) => DeleteKeeps(w, actor, ids, order, fault);
    case DoRestore(actor, ids, order, fault) => RestoreKeeps(w, actor, ids, order, fault);
    case DoTransfer(actor, target, fault) => TransferKeeps(w, actor, target, fault);
  }

  /** Over every run in which nothing fails after a mined transaction and no batch contradicts itself,
      the contract and the database agree on every role and there is at most one SuperAdmin, live. */
  lemma {:induction false} RunsAgree(w: Realm, actions: seq<RoleAction>)
    requires Inv(w) && forall i :: 0 <= i < |actions| ==> !Late(actions[i]) && Consistent(actions[i])
    ensures Inv(Run(w, actions))
  {
    if actions != [] {
      var n := |actions| - 1;
      RunsAgree(w, actions[..n]);
      if Enabled(Run(w, actions[..n]), actions[n]) {
        DoKeeps(Run(w, actions[..n]), actions[n]);
      }
    }
  }

  // ----- Exactly the steps that break agreement -----

  /** What an action sends to the contract once the policy and the database let it through. */
  function BatchOf(w: Realm, a: RoleAction): Option<seq<Change>>
    requires a.actor in w.users && !a.DoTransfer?
    requires a.DoDelete? ==> forall id :: id in a.order ==> id in w.users
    requires a.DoRestore? ==> forall id :: id in a.order ==> id in w.users
  {
    match a
    case DoStore(actor, news, valid, _) =>
      if StoreAllowed(w.users[actor].role, news, valid) && !(exists i :: 0 <= i < |news| && news[i].role == NoRole)
      then Some(StoreChanges(news)) else None
    case DoUpdate(actor, edits, valid, _) =>
      if EditsPass(w, actor, edits, valid) then EditsPassing(w, actor, edits, valid); Some(EditChanges(w.users, edits))
      else None
    case DoUpdateRole(actor, updates, _) =>
      if AssignmentsPass(w, actor, updates) then
        PassingAssignments(w, actor, updates); Some(AssignChanges(w.users, updates))
      else None
    case DoDelete(actor, ids, order, _) =>
      if actor !in ids && DeleteAllowed(w, actor, order) then Some(RevocationsFor(w.users, order)) else None
    case DoRestore(actor, ids, order, _) =>
      if actor !in ids && RestoreAllowed(w.users, order) then Some(RestorationsFor(w.users, order)) else None
  }

  predicate EditsPass(w: Realm, actor: Id, edits: seq<Edit>, valid: bool)
    requires actor in w.users
  {
    && UpdateStarts(w, actor, edits) && EachOnce(w.users, IdsOf(edits)) && UpdateAllowed(w, actor, edits, valid)
    && !(exists i :: 0 <= i < |edits| && edits[i].role == Some(NoRole))
  }

  lemma {:induction false} EditsPassing(w: Realm, actor: Id, edits: seq<Edit>, valid: bool)
    requires actor in w.users && EditsPass(w, actor, edits, valid)
    ensures forall i :: 0 <= i < |edits| ==> edits[i].id in w.users && !w.users[edits[i].id].trashed
  {
    forall i | 0 <= i < |edits| ensures edits[i].id in w.users && !w.users[edits[i].id].trashed {
      assert IdsOf(edits)[i] == edits[i].id && EditAllowed(w, actor, edits[i]);
    }
  }

  /** A transaction the contract accepts, lost afterwards, that gave an existing account another role. */
  ghost predicate Breaks(w: Realm, a: RoleAction)
    requires Enabled(w, a)
  {
    Late(a) &&
    if a.DoTransfer? then
      a.target != a.actor && a.target in w.users && !w.users[a.target].trashed && IsSuper(w.users, a.actor)
    else
      var batch := BatchOf(w, a);
      batch.Some? && SetRoles(w.chain, SignerRole(w, a.actor), batch.value).Some? && Unlike(w.users, batch.value)
  }

  /** A step breaks the agreement of the two sides if and only if it loses such a transaction. */
  lemma {:induction false} StepsAgreeExactly(w: Realm, a: RoleAction)
    requires Inv(w) && Enabled(w, a) && Consistent(a)
    ensures Agrees(Do(w, a).realm) <==> !Breaks(w, a)
  {
    match a
    case DoStore(actor, news, valid, fault) =>
      if BatchOf(w, a).Some? {
        StoreMatches(w, news);
        SyncAgreesExactly(w, AddAll(w.users, news), SignerRole(w, actor), StoreChanges(news), fault);
      }
    case DoUpdate(actor, edits, valid, fault) =>
      if BatchOf(w, a).Some? {
        EditsPassing(w, actor, edits, valid);
        UpdateMatches(w, edits);
        SyncAgreesExactly(w, EditRoles(w.users, edits), SignerRole(w, actor), EditChanges(w.users, edits), fault);
      }
    case DoUpdateRole(actor, updates, fault) =>
      if BatchOf(w, a).Some? {
        PassingAssignments(w, actor, updates);
        AssignMatches(w, updates);
        SyncAgreesExactly(w, AssignRoles(w.users, updates), SignerRole(w, actor), AssignChanges(w.users, updates),
                          fault);
      }
    case DoDelete(actor, ids, order, fault) =>
      DeleteMatches(w, ids, order);
      SyncAgreesExactly(w, Trash(w.users, ids), SignerRole(w, actor), RevocationsFor(w.users, order), fault);
    case DoRestore(actor, ids, order, fault) =>
      RestoreMatches(w, ids, order);
      SyncAgreesExactly(w, Untrash(w.users, ids), SignerRole(w, actor), RestorationsFor(w.users, order), fault);
    case DoTransfer(actor, target, fault) => TransferAgreesExactly(w, actor, target, fault);
  }

  lemma {:induction false} TransferAgreesExactly(w: Realm, actor: Id, target: Id, fault: RoleFault)
    requires Inv(w) && actor in w.users && !w.users[actor].trashed
    ensures Agrees(Transfer(w, actor, target, fault).realm)
       <==> !((fault == MinedUnseen || fault == LateFails) && target != actor && target in w.users
              && !w.users[target].trashed && IsSuper(w.users, actor))
  {
    SignerIs(w, actor);
    if fault == MinedUnseen || fault == LateFails {
      var s := Transfer(w, actor, target, fault);
      if s.realm != w {
        assert ChainRole(s.realm.chain, w.users[actor].wallet) == Admin;
      }
    } else {
      TransferKeeps(w, actor, target, fault);
    }
  }

  // ----- The SuperAdmin when transactions outlive their unit of work -----

  ghost predicate AtMostOne(users: Accounts) {
    forall a, b :: IsSuper(users, a) && IsSuper(users, b) ==> a == b
  }

  /** Nobody is SuperAdmin on chain alone. */
  ghost predicate NoPretender(w: Realm) {
    forall id :: id in w.users && ChainRole(w.chain, w.users[id].wallet) == SuperAdmin ==>
      w.users[id].role == SuperAdmin
  }

  ghost predicate SuperSafe(w: Realm) {
    WellFormed(w.users) && AtMostOne(w.users) && NoPretender(w)
  }

  predicate LosesTransfer(a: RoleAction) {
    a.DoTransfer? && Late(a)
  }

  /** A batch creates no SuperAdmin row, and a row that loses the role is changed on chain as well. */
  ghost predicate NoSuperMade(w: Realm, users': Accounts, changes: seq<Change>) {
    && WellFormed(users')
    && (forall id :: IsSuper(users', id) ==> IsSuper(w.users, id))
    && (forall id :: id in users' && id !in w.users ==> ChainRole(w.chain, users'[id].wallet) != SuperAdmin)
    && (forall id :: id in w.users ==> id in users' && users'[id].wallet == w.users[id].wallet)
    && (forall id :: IsSuper(w.users, id) && !IsSuper(users', id) ==> LastRole(changes, w.users[id].wallet).Some?)
  }

  lemma {:induction false} SyncSafe(w: Realm, users': Accounts, signer: Role, changes: seq<Change>, fault: RoleFault)
    requires SuperSafe(w) && NoSuperMade(w, users', changes)
    ensures SuperSafe(Sync(w, users', signer, changes, fault).realm)
  {
    var s := Sync(w, users', signer, changes, fault);
    var w' := s.realm;
    if SetRoles(w.chain, signer, changes).Some? {
      SetRolesIs(w.chain, signer, changes);
    }
    forall id | id in w'.users && ChainRole(w'.chain, w'.users[id].wallet) == SuperAdmin
      ensures w'.users[id].role == SuperAdmin
    {
      if s.outcome == Done {
        assert LastRole(changes, w'.users[id].wallet) == None;
        assert IsSuper(w.users, id);
      }
    }
    forall a, b | IsSuper(w'.users, a) && IsSuper(w'.users, b) ensures a == b {
      assert IsSuper(w.users, a) && IsSuper(w.users, b);
    }
  }

  lemma {:induction false} StoreSafe(w: Realm, actor: Id, news: seq<Newcomer>, valid: bool, fault: RoleFault)
    requires SuperSafe(w) && actor in w.users && NewAccounts(w, news)
    ensures SuperSafe(Store(w, actor, news, valid, fault).realm)
  {
    if StoreAllowed(w.users[actor].role, news, valid) && !(exists i :: 0 <= i < |news| && news[i].role == NoRole) {
      AddAllIs(w.users, news);
      StoredNoSuper(w, news);
      SyncSafe(w, AddAll(w.users, news), SignerRole(w, actor), StoreChanges(news), fault);
    }
  }

  lemma {:induction false} StoredNoSuper(w: Realm, news: seq<Newcomer>)
    requires WellFormed(w.users) && NewAccounts(w, news)
    requires forall i :: 0 <= i < |news| ==> news[i].role != SuperAdmin && news[i].role != NoRole
    ensures NoSuperMade(w, AddAll(w.users, news), StoreChanges(news))
  {
    AddAllIs(w.users, news);
    var users' := AddAll(w.users, news);
    forall id | id in users' && id !in w.users
      ensures users'[id].role != SuperAdmin && users'[id].role != NoRole
      ensures ChainRole(w.chain, users'[id].wallet) == NoRole
    {
      var i :| 0 <= i < |news| && news[i].id == id;
    }
    StoredWallets(w, news);
  }

  lemma {:induction false} UpdateSafe(w: Realm, actor: Id, edits: seq<Edit>, valid: bool, fault: RoleFault)
    requires SuperSafe(w) && actor in w.users
    ensures SuperSafe(Update(w, actor, edits, valid, fault).realm)
  {
    if UpdateStarts(w, actor, edits) && EachOnce(w.users, IdsOf(edits)) && UpdateAllowed(w, actor, edits, valid) {
      forall i | 0 <= i < |edits| ensures edits[i].id in w.users && edits[i].role != Some(SuperAdmin) {
        assert IdsOf(edits)[i] == edits[i].id && EditAllowed(w, actor, edits[i]);
      }
      assert forall j, k :: 0 <= j < k < |edits| ==> IdsOf(edits)[j] != IdsOf(edits)[k];
      if !(exists i :: 0 <= i < |edits| && edits[i].role == Some(NoRole)) {
        UpdatedNoSuper(w, edits);
        SyncSafe(w, EditRoles(w.users, edits), SignerRole(w, actor), EditChanges(w.users, edits), fault);
      }
    }
  }

  lemma {:induction false} UpdatedNoSuper(w: Realm, edits: seq<Edit>)
    requires WellFormed(w.users) && forall i :: 0 <= i < |edits| ==> edits[i].id in w.users
    requires forall j, k :: 0 <= j < k < |edits| ==> edits[j].id != edits[k].id
    requires forall i :: 0 <= i < |edits| ==> edits[i].role != Some(SuperAdmin) && edits[i].role != Some(NoRole)
    ensures NoSuperMade(w, EditRoles(w.users, edits), EditChanges(w.users, edits))
  {
    forall id | id in w.users
      ensures EditRoles(w.users, edits)[id].role != NoRole
      ensures EditRoles(w.users, edits)[id].role == SuperAdmin ==> w.users[id].role == SuperAdmin
      ensures EditRoles(w.users, edits)[id].role != w.users[id].role ==>
        LastRole(EditChanges(w.users, edits), w.users[id].wallet).Some?
    {
      EditOfIs(edits, id);
      EditChangesAre(w.users, edits, id);
    }
  }

  lemma {:induction false} UpdateRoleSafe(w: Realm, actor: Id, updates: seq<Assignment>, fault: RoleFault)
    requires SuperSafe(w) && actor in w.users
    ensures SuperSafe(UpdateRole(w, actor, updates, fault).realm)
  {
    if !(exists i :: 0 <= i < |updates| && !AssignmentAllowed(w, actor, updates[i])) &&
       !(exists i :: 0 <= i < |updates| && updates[i].role == NoRole) {
      forall i | 0 <= i < |updates| ensures updates[i].id in w.users && updates[i].role != SuperAdmin {
        assert AssignmentAllowed(w, actor, updates[i]);
      }
      AssignedNoSuper(w, updates);
      SyncSafe(w, AssignRoles(w.users, updates), SignerRole(w, actor), AssignChanges(w.users, updates), fault);
    }
  }

  lemma {:induction false} AssignedNoSuper(w: Realm, updates: seq<Assignment>)
    requires WellFormed(w.users) && forall i :: 0 <= i < |updates| ==> updates[i].id in w.users
    requires forall i :: 0 <= i < |updates| ==> updates[i].role != SuperAdmin && updates[i].role != NoRole
    ensures NoSuperMade(w, AssignRoles(w.users, updates), AssignChanges(w.users, updates))
  {
    forall id | id in w.users
      ensures AssignRoles(w.users, updates)[id].role != NoRole
      ensures AssignRoles(w.users, updates)[id].role == SuperAdmin ==> w.users[id].role == SuperAdmin
      ensures AssignRoles(w.users, updates)[id].role != w.users[id].role ==>
        LastRole(AssignChanges(w.users, updates), w.users[id].wallet).Some?
    {
      SomeRoleIs(updates, id);
      FinalRoleIs(updates, id);
      AssignLast(w.users, updates, id);
    }
  }

  lemma {:induction false} TransferSafe(w: Realm, actor: Id, target: Id, fault: RoleFault)
    requires SuperSafe(w) && actor in w.users && fault != MinedUnseen && fault != LateFails
    ensures SuperSafe(Transfer(w, actor, target, fault).realm)
  {
    var s := Transfer(w, actor, target, fault);
    if s.outcome == Done {
      HandedIs(w.users, actor, target);
      assert IsSuper(w.users, actor);
      forall id | IsSuper(s.realm.users, id) ensures id == target {
        assert id != actor && id != target ==> IsSuper(w.users, id);
      }
      forall id | id in s.realm.users && ChainRole(s.realm.chain, s.realm.users[id].wallet) == SuperAdmin
        ensures s.realm.users[id].role == SuperAdmin
      {
        assert id != actor && id != target ==> IsSuper(w.users, id);
      }
    }
  }

  lemma {:induction false} HandedIs(users: Accounts, from: Id, to: Id)
    requires from in users && to in users && from != to
    ensures Handed(users, from, to)
         == users[from := users[from].(role := Admin)][to := users[to].(role := SuperAdmin)]
  {
    forall id ensures FirstRole([Assignment(from, Admin), Assignment(to, SuperAdmin)], id)
      == if id == from then Some(Admin) else if id == to then Some(SuperAdmin) else None
    {
      TwoAssignments(Assignment(from, Admin), Assignment(to, SuperAdmin), id);
    }
  }

  lemma {:induction false} DoSafe(w: Realm, a: RoleAction)
    requires SuperSafe(w) && Enabled(w, a) && !LosesTransfer(a)
    ensures SuperSafe(Do(w, a).realm)
  {
    match a
    case DoStore(actor, news, valid, fault) => StoreSafe(w, actor, news, valid, fault);
    case DoUpdate(actor, edits, valid, fault) => UpdateSafe(w, actor, edits, valid, fault);
    case DoUpdateRole(actor, updates, fault) => UpdateRoleSafe(w, actor, updates, fault);
    case DoDelete(actor, ids, order, fault) =>
      SyncSafe(w, Trash(w.users, ids), SignerRole(w, actor), RevocationsFor(w.users, order), fault);
    case DoRestore(actor, ids, order, fault) =>
      SyncSafe(w, Untrash(w.users, ids), SignerRole(w, actor), RestorationsFor(w.users, order), fault);
    case DoTransfer(actor, target, fault) => TransferSafe(w, actor, target, fault);
  }

  /** There is never a second SuperAdmin row, whatever fails wherever, as long as no transfer is mined
      and then lost. */
  lemma {:induction false} RunsHaveOneSuper(w: Realm, actions: seq<RoleAction>)
    requires SuperSafe(w) && forall i :: 0 <= i < |actions| ==> !LosesTransfer(actions[i])
    ensures SuperSafe(Run(w, actions))
  {
    if actions != [] {
      var n := |actions| - 1;
      RunsHaveOneSuper(w, actions[..n]);
      if Enabled(Run(w, actions[..n]), actions[n]) {
        DoSafe(Run(w, actions[..n]), actions[n]);
      }
    }
  }

  /** A lost transfer is where it breaks: from every good world, when the account the contract promoted
      transfers once more, the database has two SuperAdmins. */
  lemma {:induction false} LostTransferForks(w: Realm, a: Id, b: Id, c: Id)
    requires Inv(w) && IsSuper(w.users, a) && b in w.users && c in w.users && a != b && b != c && a != c
    requires !w.users[b].trashed && !w.users[c].trashed
    ensures var lost := Transfer(w, a, b, LateFails);
      var again := Transfer(lost.realm, b, c, NoFault);
      && lost.outcome.Failed? && lost.realm.users == w.users && again.outcome == Done
      && IsSuper(again.realm.users, a) && IsSuper(again.realm.users, c)
  {
    assert ChainRole(w.chain, w.users[a].wallet) == SuperAdmin;
    HandedIs(w.users, b, c);
  }

  // ----- Who the SuperAdmin is -----

  /** An edit that gives the caller itself a role. */
  predicate NamesItself(actor: Id, edits: seq<Edit>) {
    exists i :: 0 <= i < |edits| && edits[i].id == actor && edits[i].role.Some?
  }

  lemma {:induction false} CommittedEdits(w: Realm, actor: Id, edits: seq<Edit>, valid: bool, fault: RoleFault)
    requires actor in w.users && Update(w, actor, edits, valid, fault).outcome == Done
    ensures Update(w, actor, edits, valid, fault).realm.users == EditRoles(w.users, edits)
    ensures forall j, k :: 0 <= j < k < |edits| ==> edits[j].id != edits[k].id
    ensures forall i :: 0 <= i < |edits| ==> edits[i].id in w.users && EditAllowed(w, actor, edits[i])
    ensures forall i :: 0 <= i < |edits| ==> edits[i].role != Some(SuperAdmin) && edits[i].role != Some(NoRole)
    ensures forall i :: 0 <= i < |edits| && edits[i].id == actor ==> w.users[actor].role == SuperAdmin
  {
    assert forall j, k :: 0 <= j < k < |edits| ==> IdsOf(edits)[j] != IdsOf(edits)[k];
    forall i | 0 <= i < |edits| ensures edits[i].id in w.users && EditAllowed(w, actor, edits[i]) {
      assert IdsOf(edits)[i] == edits[i].id;
    }
  }

  /** A committed Update changes who the SuperAdmin is if and only if the SuperAdmin itself asks for
      another role. */
  lemma {:induction false} UpdateMovesSuperExactly(w: Realm, actor: Id, edits: seq<Edit>, valid: bool, fault: RoleFault)
    requires Inv(w) && actor in w.users && !w.users[actor].trashed
    requires Update(w, actor, edits, valid, fault).outcome == Done
    ensures SameSuper(w.users, Update(w, actor, edits, valid, fault).realm.users)
       <==> !(IsSuper(w.users, actor) && NamesItself(actor, edits))
    ensures NamesItself(actor, edits) ==> IsSuper(w.users, actor)
  {
    CommittedEdits(w, actor, edits, valid, fault);
    UpdatedWellFormed(w.users, edits);
    if NamesItself(actor, edits) {
      var i :| 0 <= i < |edits| && edits[i].id == actor && edits[i].role.Some?;
      EditOfOnce(edits, i);
      assert IsSuper(w.users, actor) && !IsSuper(EditRoles(w.users, edits), actor);
    } else {
      forall id | IsSuper(w.users, id) ensures IsSuper(EditRoles(w.users, edits), id) {
        EditOfIs(edits, id);
      }
    }
  }

  /** The actions that hand the role on or give it up. */
  predicate MovesSuper(a: RoleAction) {
    a.DoTransfer? || (a.DoUpdate? && NamesItself(a.actor, a.edits))
  }

  /** A committed action changes who the SuperAdmin is if and only if it is a transfer or an Update in
      which the SuperAdmin names itself; a failed one never does. */
  lemma {:induction false} WhoIsSuperExactly(w: Realm, a: RoleAction)
    requires Inv(w) && Enabled(w, a)
    ensures SameSuper(w.users, Do(w, a).realm.users) <==> Do(w, a).outcome.Failed? || !MovesSuper(a)
  {
    match a
    case DoStore(actor, news, valid, fault) => StoreSparesSuper(w, actor, news, valid, fault);
    case DoUpdate(actor, edits, valid, fault) =>
      if Do(w, a).outcome == Done {
        UpdateMovesSuperExactly(w, actor, edits, valid, fault);
      }
    case DoUpdateRole(actor, updates, fault) => UpdateRoleSparesSuper(w, actor, updates, fault);
    case DoDelete(actor, ids, order, fault) =>
      if Do(w, a).outcome == Done {
        DeletedOneSuper(w, actor, ids, order, fault);
      }
    case DoRestore(actor, ids, order, fault) =>
    case DoTransfer(actor, target, fault) =>
      if Do(w, a).outcome == Done {
        TransferMoves(w, actor, target, fault);
        assert !IsSuper(Do(w, a).realm.users, actor);
      }
  }

  lemma {:induction false} StoreSparesSuper(w: Realm, actor: Id, news: seq<Newcomer>, valid: bool, fault: RoleFault)
    requires Inv(w) && actor in w.users && NewAccounts(w, news)
    ensures SameSuper(w.users, Store(w, actor, news, valid, fault).realm.users)
  {
    if Store(w, actor, news, valid, fault).outcome == Done {
      StoredWellFormed(w, news);
    }
  }

  /** So over every run with nothing failing after a mined transaction, only a transfer or the
      SuperAdmin's own Update changes who it is. */
  lemma {:induction false} RunsKeepSuper(w: Realm, actions: seq<RoleAction>)
    requires Inv(w) && forall i :: 0 <= i < |actions| ==> !Late(actions[i]) && Consistent(actions[i])
    requires forall i :: 0 <= i < |actions| ==> !MovesSuper(actions[i])
    ensures SameSuper(w.users, Run(w, actions).users)
  {
    if actions != [] {
      var n := |actions| - 1;
      RunsKeepSuper(w, actions[..n]);
      RunsAgree(w, actions[..n]);
      if Enabled(Run(w, actions[..n]), actions[n]) {
        WhoIsSuperExactly(Run(w, actions[..n]), actions[n]);
      }
    }
  }

  /** The policy lets the SuperAdmin give itself a lower role through Update, and nobody is left who
      could hand the role on. */
  lemma {:induction false} SuperStepsDown(w: Realm, actor: Id, role: Role)
    requires Inv(w) && IsSuper(w.users, actor) && role != SuperAdmin && role != NoRole
    ensures var s := Update(w, actor, [Edit(actor, Some(role), false)], true, NoFault);
      s.outcome == Done && forall id :: !IsSuper(s.realm.users, id)
  {
    var edits := [Edit(actor, Some(role), false)];
    assert IdsOf(edits) == [actor];
    SignerIs(w, actor);
    var wallet := w.users[actor].wallet;
    assert edits[..0] == [];
    assert EditChanges(w.users, edits) == [Change(wallet, role)];
    assert [Change(wallet, role)][..0] == [];
    forall id ensures EditOf(edits, id) == if id == actor then Some(role) else None {
      assert edits[1..] == [];
    }
    var s := Update(w, actor, edits, true, NoFault);
    assert SetRoles(w.chain, SuperAdmin, [Change(wallet, role)]) == Some(w.chain[wallet := role]);
    assert s.realm.users == EditRoles(w.users, edits);
    forall id ensures !IsSuper(s.realm.users, id) {
      assert EditOf(edits, id) == if id == actor then Some(role) else None;
      assert id in w.users && id != actor ==> !IsSuper(w.users, id);
    }
  }
}
