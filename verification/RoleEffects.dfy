/** What each account operation refuses and what a committed one leaves in the table, case by case. */
module RoleEffects {
  import opened Base
  import opened Roles
  import opened RolesInvariant

  predicate AdminOrAbove(r: Role) {
    r == Admin || r == SuperAdmin
  }

  // ----- The contract's rules -----

  /** One entry is accepted from an Admin or the SuperAdmin, for a real change to anything but SuperAdmin; from
      an Admin only between roles below its own. It changes that wallet's role and no other. */
  lemma {:induction false} SetRoleIs(chain: Authority, signer: Role, c: Change)
    ensures SetRole(chain, signer, c).Some?
       <==> && AdminOrAbove(signer) && c.role != SuperAdmin && ChainRole(chain, c.wallet) != c.role
            && (signer == Admin ==> !AdminOrAbove(ChainRole(chain, c.wallet)) && !AdminOrAbove(c.role))
    ensures SetRole(chain, signer, c).Some? ==>
      forall a :: ChainRole(SetRole(chain, signer, c).value, a) == if a == c.wallet then c.role else ChainRole(chain, a)
  {
  }

  /** When the end of a unit of work commits: nothing fails that matters, and the contract takes the batch,
      if there is one. */
  lemma {:induction false} SyncOutcome(w: Realm, users': Accounts, signer: Role, changes: seq<Change>, fault: RoleFault)
    ensures var s := Sync(w, users', signer, changes, fault);
      && (s.outcome == Done <==> if changes == [] then fault != DbFails && fault != LateFails
                                 else fault == NoFault && SetRoles(w.chain, signer, changes).Some?)
      && (s.outcome == Done ==> s.realm.users == users')
      && (s.outcome.Failed? ==> s.realm.users == w.users)
      && s.outcome != Failed(Refused) && s.outcome != Failed(NotFound)
  {
  }

  // ----- Store -----

  predicate BarsNewcomer(caller: Role, role: Role) {
    role == SuperAdmin || (role == Admin && caller == Admin)
  }

  /** Refused exactly when a check fails or somebody is to become SuperAdmin, or Admin by an Admin's hand. */
  lemma {:induction false} StoreRefused(w: Realm, actor: Id, news: seq<Newcomer>, valid: bool, fault: RoleFault)
    requires actor in w.users
    ensures Store(w, actor, news, valid, fault).outcome == Failed(Refused)
       <==> !valid || exists i :: 0 <= i < |news| && BarsNewcomer(w.users[actor].role, news[i].role)
  {
    if StoreAllowed(w.users[actor].role, news, valid) {
      SyncOutcome(w, AddAll(w.users, news), SignerRole(w, actor), StoreChanges(news), fault);
    }
  }

  /** Committed, every newcomer has a live account with its wallet and role, and nobody else's changed. */
  lemma {:induction false} StoreCommits(w: Realm, actor: Id, news: seq<Newcomer>, valid: bool, fault: RoleFault)
    requires actor in w.users && NewAccounts(w, news) && Store(w, actor, news, valid, fault).outcome == Done
    ensures var users' := Store(w, actor, news, valid, fault).realm.users;
      && (forall id :: id in users' <==> id in w.users || exists i :: 0 <= i < |news| && news[i].id == id)
      && (forall id :: id in w.users ==> users'[id] == w.users[id])
      && (forall i :: 0 <= i < |news| ==>
            users'[news[i].id].wallet == news[i].wallet && users'[news[i].id].role == news[i].role
            && !users'[news[i].id].trashed)
  {
    SyncOutcome(w, AddAll(w.users, news), SignerRole(w, actor), StoreChanges(news), fault);
    AddAllIs(w.users, news);
  }

  // ----- Update -----

  /** What bars an edit of an account that exists. */
  predicate BarsEdit(w: Realm, actor: Id, e: Edit)
    requires actor in w.users && e.id in w.users
  {
    var t := w.users[e.id];
    || t.trashed || (t.role == SuperAdmin && e.id != actor) || (w.users[actor].role == Admin && AdminOrAbove(t.role))
    || (e.id == actor && e.email) || e.role == Some(SuperAdmin)
    || (w.users[actor].role == Admin && e.role == Some(Admin))
  }

  ghost predicate FoundOnce(users: Accounts, edits: seq<Edit>) {
    && (forall i :: 0 <= i < |edits| ==> edits[i].id in users)
    && (forall i, j :: 0 <= i < j < |edits| ==> edits[i].id != edits[j].id)
  }

  ghost predicate NamesItselfBelow(w: Realm, actor: Id, edits: seq<Edit>)
    requires actor in w.users
  {
    w.users[actor].role != SuperAdmin && exists i :: 0 <= i < |edits| && edits[i].id == actor
  }

  lemma {:induction false} FoundOnceIs(users: Accounts, edits: seq<Edit>)
    ensures EachOnce(users, IdsOf(edits)) <==> FoundOnce(users, edits)
  {
    if EachOnce(users, IdsOf(edits)) {
      forall i | 0 <= i < |edits| ensures edits[i].id in users {
        assert IdsOf(edits)[i] in users;
      }
      forall i, j | 0 <= i < j < |edits| ensures edits[i].id != edits[j].id {
        assert IdsOf(edits)[i] != IdsOf(edits)[j];
      }
    }
  }

  /** Refused exactly when a caller below SuperAdmin names itself, a check fails, or an edit is barred; not
      found exactly when an account is missing or named twice. */
  lemma {:induction false} UpdateRefused(w: Realm, actor: Id, edits: seq<Edit>, valid: bool, fault: RoleFault)
    requires actor in w.users
    ensures Update(w, actor, edits, valid, fault).outcome == Failed(NotFound)
       <==> !NamesItselfBelow(w, actor, edits) && !FoundOnce(w.users, edits)
    ensures Update(w, actor, edits, valid, fault).outcome == Failed(Refused)
       <==> || NamesItselfBelow(w, actor, edits)
            || (FoundOnce(w.users, edits) && (!valid || exists i :: 0 <= i < |edits| && BarsEdit(w, actor, edits[i])))
  {
    FoundOnceIs(w.users, edits);
    if EachOnce(w.users, IdsOf(edits)) {
      forall i | 0 <= i < |edits|
        ensures IdsOf(edits)[i] in w.users && (EditAllowed(w, actor, edits[i]) <==> !BarsEdit(w, actor, edits[i]))
      {
        assert IdsOf(edits)[i] == edits[i].id;
      }
      SyncOutcome(w, EditRoles(w.users, edits), SignerRole(w, actor), EditChanges(w.users, edits), fault);
    }
  }

  /** Committed, every account named with a role has it, and nothing else of any account changed. */
  lemma {:induction false} UpdateCommits(w: Realm, actor: Id, edits: seq<Edit>, valid: bool, fault: RoleFault)
    requires actor in w.users && Update(w, actor, edits, valid, fault).outcome == Done
    ensures var users' := Update(w, actor, edits, valid, fault).realm.users;
      && users'.Keys == w.users.Keys
      && (forall i :: 0 <= i < |edits| && edits[i].role.Some? ==>
            edits[i].id in w.users && users'[edits[i].id] == w.users[edits[i].id].(role := edits[i].role.value))
      && (forall id ::
            id in w.users && (forall i :: 0 <= i < |edits| && edits[i].id == id ==> edits[i].role == None) ==>
              users'[id] == w.users[id])
  {
    CommittedEdits(w, actor, edits, valid, fault);
    forall i | 0 <= i < |edits| ensures EditOf(edits, edits[i].id) == edits[i].role {
      EditOfOnce(edits, i);
    }
    forall id | forall i :: 0 <= i < |edits| && edits[i].id == id ==> edits[i].role == None
      ensures EditOf(edits, id) == None
    {
      EditOfIs(edits, id);
    }
  }

  // ----- UpdateRole -----

  /** What bars a new role. */
  predicate BarsRole(w: Realm, actor: Id, a: Assignment)
    requires actor in w.users
  {
    || a.role == SuperAdmin || a.id == actor || a.id !in w.users
    || w.users[a.id].trashed || w.users[a.id].role == a.role
    || (w.users[actor].role == Admin && (AdminOrAbove(w.users[a.id].role) || a.role == Admin))
  }

  /** Refused exactly when some assignment is barred. */
  lemma {:induction false} UpdateRoleRefused(w: Realm, actor: Id, updates: seq<Assignment>, fault: RoleFault)
    requires actor in w.users
    ensures UpdateRole(w, actor, updates, fault).outcome == Failed(Refused)
       <==> exists i :: 0 <= i < |updates| && BarsRole(w, actor, updates[i])
  {
    forall i | 0 <= i < |updates| ensures AssignmentAllowed(w, actor, updates[i]) <==> !BarsRole(w, actor, updates[i]) {
    }
    if AssignmentsPass(w, actor, updates) {
      PassingAssignments(w, actor, updates);
      SyncOutcome(w, AssignRoles(w.users, updates), SignerRole(w, actor), AssignChanges(w.users, updates), fault);
    }
  }

  ghost predicate FirstNamed(updates: seq<Assignment>, id: Id, i: nat) {
    i < |updates| && updates[i].id == id && forall j :: 0 <= j < i ==> updates[j].id != id
  }

  lemma {:induction false} FirstRoleIs(updates: seq<Assignment>, id: Id)
    ensures (forall i :: 0 <= i < |updates| ==> updates[i].id != id) ==> FirstRole(updates, id) == None
    ensures forall i: nat :: FirstNamed(updates, id, i) ==> FirstRole(updates, id) == Some(updates[i].role)
  {
    if updates != [] && updates[0].id != id {
      FirstRoleIs(updates[1..], id);
      assert forall i :: 0 < i < |updates| ==> updates[1..][i - 1] == updates[i];
      forall i: nat | FirstNamed(updates, id, i) ensures FirstRole(updates, id) == Some(updates[i].role) {
        assert FirstNamed(updates[1..], id, i - 1);
      }
    }
  }

  /** Committed, every account has the first role the batch gives it, and nothing else of any account changed. */
  lemma {:induction false} UpdateRoleCommits(w: Realm, actor: Id, updates: seq<Assignment>, fault: RoleFault)
    requires actor in w.users && UpdateRole(w, actor, updates, fault).outcome == Done
    ensures var users' := UpdateRole(w, actor, updates, fault).realm.users;
      && users'.Keys == w.users.Keys
      && (forall id, i: nat :: id in w.users && FirstNamed(updates, id, i) ==>
            users'[id] == w.users[id].(role := updates[i].role))
      && (forall id :: id in w.users && (forall i :: 0 <= i < |updates| ==> updates[i].id != id) ==>
            users'[id] == w.users[id])
  {
    PassingAssignments(w, actor, updates);
    SyncOutcome(w, AssignRoles(w.users, updates), SignerRole(w, actor), AssignChanges(w.users, updates), fault);
    forall id | id in w.users
      ensures (forall i :: 0 <= i < |updates| ==> updates[i].id != id) ==> FirstRole(updates, id) == None
      ensures forall i: nat :: FirstNamed(updates, id, i) ==> FirstRole(updates, id) == Some(updates[i].role)
    {
      FirstRoleIs(updates, id);
    }
  }

  // ----- Delete and Restore -----

  /** Refused exactly when the caller names itself, or an Admin names an Admin or the SuperAdmin. */
  lemma {:induction false} DeleteRefused(w: Realm, actor: Id, ids: seq<Id>, order: seq<Id>, fault: RoleFault)
    requires actor in w.users && IsScan(order, ids, w.users)
    ensures Delete(w, actor, ids, order, fault).outcome == Failed(Refused)
       <==> actor in ids || (w.users[actor].role == Admin
                             && exists id :: id in ids && id in w.users && AdminOrAbove(w.users[id].role))
  {
    SyncOutcome(w, Trash(w.users, ids), SignerRole(w, actor), RevocationsFor(w.users, order), fault);
    forall id | id in ids && id in w.users ensures exists i :: 0 <= i < |order| && order[i] == id {
      assert id in order;
    }
    forall i | 0 <= i < |order| ensures order[i] in ids && order[i] in w.users {
      assert order[i] in order;
    }
  }

  /** Refused exactly when the caller names itself, or an account named is the SuperAdmin's or not trashed. */
  lemma {:induction false} RestoreRefused(w: Realm, actor: Id, ids: seq<Id>, order: seq<Id>, fault: RoleFault)
    requires actor in w.users && IsScan(order, ids, w.users)
    ensures Restore(w, actor, ids, order, fault).outcome == Failed(Refused)
       <==> (actor in ids
             || exists id :: id in ids && id in w.users && (w.users[id].role == SuperAdmin || !w.users[id].trashed))
  {
    SyncOutcome(w, Untrash(w.users, ids), SignerRole(w, actor), RestorationsFor(w.users, order), fault);
    forall id | id in ids && id in w.users ensures exists i :: 0 <= i < |order| && order[i] == id {
      assert id in order;
    }
    forall i | 0 <= i < |order| ensures order[i] in ids && order[i] in w.users {
      assert order[i] in order;
    }
  }

  /** Committed, exactly the accounts named are trashed, or no longer; their roles and wallets stay. */
  lemma {:induction false} TrashCommits(w: Realm, actor: Id, ids: seq<Id>, order: seq<Id>, fault: RoleFault)
    requires actor in w.users && IsScan(order, ids, w.users)
    ensures Delete(w, actor, ids, order, fault).outcome == Done ==>
      var users' := Delete(w, actor, ids, order, fault).realm.users;
      && users'.Keys == w.users.Keys
      && (forall id :: id in w.users ==> users'[id] == w.users[id].(trashed := w.users[id].trashed || id in ids))
    ensures Restore(w, actor, ids, order, fault).outcome == Done ==>
      var users' := Restore(w, actor, ids, order, fault).realm.users;
      && users'.Keys == w.users.Keys
      && (forall id :: id in w.users ==> users'[id] == w.users[id].(trashed := w.users[id].trashed && id !in ids))
  {
    SyncOutcome(w, Trash(w.users, ids), SignerRole(w, actor), RevocationsFor(w.users, order), fault);
    SyncOutcome(w, Untrash(w.users, ids), SignerRole(w, actor), RestorationsFor(w.users, order), fault);
  }

  // ----- Transfer -----

  /** Why a transfer fails: the caller itself or a trashed account is named, the account does not exist, or
      the contract refuses a caller who is not SuperAdmin there. */
  lemma {:induction false} TransferOutcome(w: Realm, actor: Id, target: Id, fault: RoleFault)
    requires actor in w.users
    ensures var outcome := Transfer(w, actor, target, fault).outcome;
      && (outcome == Failed(Refused) <==>
            actor == target || (fault != DbFails && target in w.users && w.users[target].trashed))
      && (outcome == Failed(NotFound) <==> fault != DbFails && target !in w.users)
      && (WellFormed(w.users) ==>
            (outcome == Done <==>
               && actor != target && target in w.users && !w.users[target].trashed && fault == NoFault
               && ChainRole(w.chain, w.users[actor].wallet) == SuperAdmin))
  {
  }
}
