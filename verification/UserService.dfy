/** The user service as it runs: loops over the batch, a write, a call to the authority contract inside
    the unit of work. Every method is the operation of the same name in Roles. */
module UserServices {
  import opened Base
  import opened Roles

  class UserService {
    var users: Accounts
    var chain: Authority

    constructor (users: Accounts, chain: Authority)
      ensures At() == Realm(users, chain)
    {
      this.users, this.chain := users, chain;
    }

    function At(): Realm
      reads this
    {
      Realm(users, chain)
    }

    /** syncBlockchainRoles: nothing to do for an empty list. */
    method SyncRoles(signer: Role, changes: seq<Change>, fault: RoleFault) returns (ok: bool)
      modifies this`chain
      ensures ok
         <==> changes == []
              || (fault != CallFails && fault != MinedUnseen && SetRoles(old(chain), signer, changes).Some?)
      ensures chain == if changes == [] || fault == CallFails then old(chain)
                       else SetRoles(old(chain), signer, changes).GetOr(old(chain))
    {
      if changes == [] {
        return true;
      }
      if fault == CallFails {
        return false;
      }
      var mined := SetRoles(chain, signer, changes);
      if mined == None {
        return false;
      }
      chain := mined.value;
      return fault != MinedUnseen;
    }

    /** One unit of work: the rows first, the contract after, later writes and the commit last. */
    method WriteAndSync(users': Accounts, signer: Role, changes: seq<Change>, fault: RoleFault)
      returns (outcome: RoleOutcome)
      modifies this
      ensures RoleStep(At(), outcome) == Sync(old(At()), users', signer, changes, fault)
    {
      var users0 := users;
      if fault == DbFails {
        return Failed(Storage);
      }
      users := users';
      var synced := SyncRoles(signer, changes, fault);
      if !synced {
        users := users0;
        return Failed(ChainRefused);
      }
      if fault == LateFails || (changes != [] && fault == MinedUnseen) {
        users := users0;
        return Failed(Storage);
      }
      return Done;
    }

    method Store(actor: Id, news: seq<Newcomer>, valid: bool, fault: RoleFault) returns (outcome: RoleOutcome)
      requires actor in users
      modifies this
      ensures RoleStep(At(), outcome) == Roles.Store(old(At()), actor, news, valid, fault)
    {
      var auth := users[actor].role;
      for i := 0 to |news|
        invariant forall k :: 0 <= k < i ==>
          news[k].role != SuperAdmin && !(auth == Admin && Rank(news[k].role) >= Rank(Admin))
        invariant At() == old(At())
      {
        if news[i].role == SuperAdmin || (auth == Admin && Rank(news[i].role) >= Rank(Admin)) {
          return Failed(Refused);
        }
      }
      if !valid {
        return Failed(Refused);
      }
      if exists i :: 0 <= i < |news| && news[i].role == NoRole {
        return Failed(Storage);
      }
      var changes: seq<Change> := [];
      for i := 0 to |news|
        invariant |changes| == i && forall k :: 0 <= k < i ==> changes[k] == Change(news[k].wallet, news[k].role)
        invariant At() == old(At())
      {
        changes := changes + [Change(news[i].wallet, news[i].role)];
      }
      assert changes == StoreChanges(news);
      outcome := WriteAndSync(AddAll(users, news), SignerRole(At(), actor), changes, fault);
    }

    method Update(actor: Id, edits: seq<Edit>, valid: bool, fault: RoleFault) returns (outcome: RoleOutcome)
      requires actor in users
      modifies this
      ensures RoleStep(At(), outcome) == Roles.Update(old(At()), actor, edits, valid, fault)
    {
      for i := 0 to |edits|
        invariant forall k :: 0 <= k < i ==> edits[k].id != actor || users[actor].role == SuperAdmin
        invariant At() == old(At())
      {
        if edits[i].id == actor && users[actor].role != SuperAdmin {
          return Failed(Refused);
        }
      }
      if !EachOnce(users, IdsOf(edits)) {
        return Failed(NotFound);
      }
      if !UpdateAllowed(At(), actor, edits, valid) {
        return Failed(Refused);
      }
      if exists i :: 0 <= i < |edits| && edits[i].role == Some(NoRole) {
        return Failed(Storage);
      }
      outcome := UpdateRows(actor, edits, fault);
    }

    /** Drops the roles that do not change, collects the ones that do, writes and syncs. */
    method UpdateRows(actor: Id, edits: seq<Edit>, fault: RoleFault) returns (outcome: RoleOutcome)
      requires actor in users && EachOnce(users, IdsOf(edits))
      requires forall i :: 0 <= i < |edits| ==> edits[i].id in users
      modifies this
      ensures RoleStep(At(), outcome)
           == Sync(old(At()), EditRoles(old(users), edits), SignerRole(old(At()), actor),
                   EditChanges(old(users), edits), fault)
    {
      var filtered := edits;
      var changes: seq<Change> := [];
      for i := 0 to |edits|
        invariant |filtered| == |edits| && forall k :: i <= k < |edits| ==> filtered[k] == edits[k]
        invariant forall k :: 0 <= k < i ==> filtered[k] == Filtered(users, edits[k])
        invariant changes == EditChanges(users, edits[..i])
        invariant At() == old(At())
      {
        var e := edits[i];
        assert edits[..i + 1][..i] == edits[..i];
        if e.role.Some? {
          if e.role.value == users[e.id].role {
            filtered := filtered[i := e.(role := None)];
          } else {
            changes := changes + [Change(users[e.id].wallet, e.role.value)];
          }
        }
      }
      assert edits[..|edits|] == edits;
      FilteredWritesTheSame(users, edits, filtered);
      outcome := WriteAndSync(EditRoles(users, filtered), SignerRole(At(), actor), changes, fault);
    }

    method UpdateRole(actor: Id, updates: seq<Assignment>, fault: RoleFault) returns (outcome: RoleOutcome)
      requires actor in users
      modifies this
      ensures RoleStep(At(), outcome) == Roles.UpdateRole(old(At()), actor, updates, fault)
    {
      for i := 0 to |updates|
        invariant forall k :: 0 <= k < i ==> AssignmentAllowed(At(), actor, updates[k])
        invariant At() == old(At())
      {
        if !AssignmentAllowed(At(), actor, updates[i]) {
          return Failed(Refused);
        }
      }
      if exists i :: 0 <= i < |updates| && updates[i].role == NoRole {
        return Failed(Storage);
      }
      var changes: seq<Change> := [];
      for i := 0 to |updates|
        invariant |changes| == i && forall k :: 0 <= k < i ==>
          changes[k] == Change(users[updates[k].id].wallet, updates[k].role)
        invariant At() == old(At())
      {
        assert AssignmentAllowed(At(), actor, updates[i]);
        changes := changes + [Change(users[updates[i].id].wallet, updates[i].role)];
      }
      assert changes == AssignChanges(users, updates);
      outcome := WriteAndSync(AssignRoles(users, updates), SignerRole(At(), actor), changes, fault);
    }

    method Delete(actor: Id, ids: seq<Id>, order: seq<Id>, fault: RoleFault) returns (outcome: RoleOutcome)
      requires actor in users && IsScan(order, ids, users)
      modifies this
      ensures RoleStep(At(), outcome) == Roles.Delete(old(At()), actor, ids, order, fault)
    {
      if actor in ids || !DeleteAllowed(At(), actor, order) {
        return Failed(Refused);
      }
      var changes: seq<Change> := [];
      for i := 0 to |order|
        invariant forall x :: x in order[..i] ==> x in users
        invariant changes == RevocationsFor(users, order[..i])
        invariant At() == old(At())
      {
        assert order[..i + 1][..i] == order[..i];
        assert order[i] in order;
        if !users[order[i]].trashed {
          changes := changes + [Change(users[order[i]].wallet, NoRole)];
        }
      }
      assert order[..|order|] == order;
      outcome := WriteAndSync(Trash(users, ids), SignerRole(At(), actor), changes, fault);
    }

    method Restore(actor: Id, ids: seq<Id>, order: seq<Id>, fault: RoleFault) returns (outcome: RoleOutcome)
      requires actor in users && IsScan(order, ids, users)
      modifies this
      ensures RoleStep(At(), outcome) == Roles.Restore(old(At()), actor, ids, order, fault)
    {
      if actor in ids {
        return Failed(Refused);
      }
      for i := 0 to |order|
        invariant forall k :: 0 <= k < i ==>
          order[k] in users && users[order[k]].role != SuperAdmin && users[order[k]].trashed
        invariant At() == old(At())
      {
        assert order[i] in order;
        if users[order[i]].role == SuperAdmin || !users[order[i]].trashed {
          return Failed(Refused);
        }
      }
      outcome := WriteAndSync(Untrash(users, ids), SignerRole(At(), actor), RestorationsFor(users, order), fault);
    }

    /** The contract first, the two rows after. */
    method TransferSuperAdmin(actor: Id, target: Id, fault: RoleFault) returns (outcome: RoleOutcome)
      requires actor in users
      modifies this
      ensures RoleStep(At(), outcome) == Roles.Transfer(old(At()), actor, target, fault)
    {
      if actor == target {
        return Failed(Refused);
      }
      if fault == DbFails {
        return Failed(Storage);
      }
      if target !in users {
        return Failed(NotFound);
      }
      if users[target].trashed {
        return Failed(Refused);
      }
      var mined := if fault == CallFails then None
                   else TransferOnChain(chain, users[actor].wallet, users[target].wallet);
      if mined == None {
        return Failed(ChainRefused);
      }
      chain := mined.value;
      if fault == MinedUnseen {
        return Failed(ChainRefused);
      }
      if fault == LateFails {
        return Failed(Storage);
      }
      users := AssignRoles(users, [Assignment(actor, Admin), Assignment(target, SuperAdmin)]);
      return Done;
    }
  }

  /** An edit whose role is the one the row has loses it. */
  function Filtered(users: Accounts, e: Edit): Edit
    requires e.id in users
  {
    if e.role == Some(users[e.id].role) then e.(role := None) else e
  }

  /** Dropping roles that do not change writes the same rows. */
  lemma {:induction false} FilteredWritesTheSame(users: Accounts, edits: seq<Edit>, filtered: seq<Edit>)
    requires forall i :: 0 <= i < |edits| ==> edits[i].id in users
    requires |filtered| == |edits| && forall k :: 0 <= k < |edits| ==> filtered[k] == Filtered(users, edits[k])
    requires forall j, k :: 0 <= j < k < |edits| ==> edits[j].id != edits[k].id
    ensures EditRoles(users, filtered) == EditRoles(users, edits)
  {
    forall id | id in users
      ensures EditOf(filtered, id).GetOr(users[id].role) == EditOf(edits, id).GetOr(users[id].role)
    {
      FilteredRole(users, edits, filtered, id);
    }
  }

  lemma {:induction false} FilteredRole(users: Accounts, edits: seq<Edit>, filtered: seq<Edit>, id: Id)
    requires id in users && forall i :: 0 <= i < |edits| ==> edits[i].id in users
    requires |filtered| == |edits| && forall k :: 0 <= k < |edits| ==> filtered[k] == Filtered(users, edits[k])
    requires forall j, k :: 0 <= j < k < |edits| ==> edits[j].id != edits[k].id
    ensures EditOf(filtered, id).GetOr(users[id].role) == EditOf(edits, id).GetOr(users[id].role)
    ensures (forall i :: 0 <= i < |edits| ==> edits[i].id != id) ==> EditOf(filtered, id) == None
  {
    if edits != [] {
      assert forall i :: 0 < i < |edits| ==> edits[1..][i - 1] == edits[i] && filtered[1..][i - 1] == filtered[i];
      FilteredRole(users, edits[1..], filtered[1..], id);
    }
  }
}
