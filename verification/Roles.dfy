/** Accounts and the role authority contract: what the policy refuses, what each operation does to the
    two sides, and what every run keeps. */
module Roles {
  import opened Base

  datatype Role = NoRole | Holder | Issuer | Admin | SuperAdmin

  function Rank(r: Role): nat {
    match r case NoRole => 0 case Holder => 1 case Issuer => 2 case Admin => 3 case SuperAdmin => 4
  }

  type Wallet = int

  datatype Account = Account(wallet: Wallet, role: Role, trashed: bool)

  type Accounts = map<Id, Account>

  type Authority = map<Wallet, Role>

  datatype Realm = Realm(users: Accounts, chain: Authority)

  datatype RoleError = Refused | NotFound | ChainRefused | Storage

  /** `MinedUnseen` and `LateFails` strike after the transaction is mined: a lost wait, or a write or the
      commit that comes after the chain call. */
  datatype RoleFault = NoFault | DbFails | CallFails | MinedUnseen | LateFails

  datatype RoleOutcome = Done | Failed(error: RoleError)

  datatype RoleStep = RoleStep(realm: Realm, outcome: RoleOutcome)

  // ----- The authority contract (documented in ROLE.md) -----

  function ChainRole(chain: Authority, a: Wallet): Role {
    if a in chain then chain[a] else NoRole
  }

  datatype Change = Change(wallet: Wallet, role: Role)

  /** One entry of a batch, signed by an account whose role is `signer`. */
  function SetRole(chain: Authority, signer: Role, c: Change): Option<Authority> {
    var current := ChainRole(chain, c.wallet);
    if Rank(signer) < Rank(Admin) || c.role == SuperAdmin || current == c.role then None
    else if signer == Admin && (Rank(current) >= Rank(Admin) || Rank(c.role) >= Rank(Admin)) then None
    else Some(chain[c.wallet := c.role])
  }

  /** batchUpdateUserRoleWithSignature: all entries in order, or none. */
  function SetRoles(chain: Authority, signer: Role, changes: seq<Change>): Option<Authority> {
    if changes == [] then Some(chain)
    else match SetRoles(chain, signer, changes[..|changes| - 1])
         case None => None
         case Some(c) => SetRole(c, signer, changes[|changes| - 1])
  }

  /** transferSuperAdminWithSignature. */
  function TransferOnChain(chain: Authority, from: Wallet, to: Wallet): Option<Authority> {
    if ChainRole(chain, from) != SuperAdmin || from == to then None
    else Some(chain[from := Admin][to := SuperAdmin])
  }

  /** The role the last entry for a wallet gives it. */
  function LastRole(changes: seq<Change>, a: Wallet): Option<Role> {
    if changes == [] then None
    else if changes[|changes| - 1].wallet == a then Some(changes[|changes| - 1].role)
    else LastRole(changes[..|changes| - 1], a)
  }

  lemma {:induction false} SetRolesIs(chain: Authority, signer: Role, changes: seq<Change>)
    requires SetRoles(chain, signer, changes).Some?
    ensures var chain' := SetRoles(chain, signer, changes).value;
      && (forall a :: ChainRole(chain', a) == LastRole(changes, a).GetOr(ChainRole(chain, a)))
      && (changes != [] ==> Rank(signer) >= Rank(Admin))
      && (forall a :: LastRole(changes, a) != Some(SuperAdmin))
  {
    if changes != [] {
      SetRolesIs(chain, signer, changes[..|changes| - 1]);
    }
  }

  // ----- What the two sides share -----

  function Effective(u: Account): Role {
    if u.trashed then NoRole else u.role
  }

  /** The contract gives every account its database role, and a trashed one none. */
  ghost predicate Agrees(w: Realm) {
    forall id :: id in w.users ==> ChainRole(w.chain, w.users[id].wallet) == Effective(w.users[id])
  }

  /** Each account has its own wallet and a role of the database's enum. */
  ghost predicate WellFormed(users: Accounts) {
    && (forall a, b :: a in users && b in users && a != b ==> users[a].wallet != users[b].wallet)
    && (forall id :: id in users ==> users[id].role != NoRole)
  }

  predicate IsSuper(users: Accounts, id: Id) {
    id in users && users[id].role == SuperAdmin
  }

  ghost predicate OneSuper(users: Accounts) {
    && (forall a, b :: IsSuper(users, a) && IsSuper(users, b) ==> a == b)
    && (forall id :: IsSuper(users, id) ==> !users[id].trashed)
  }

  // ----- The end of a unit of work that calls the chain last -----

  function Sync(w: Realm, users: Accounts, signer: Role, changes: seq<Change>, fault: RoleFault): RoleStep {
    if fault == DbFails then RoleStep(w, Failed(Storage))
    else if changes == [] then
      (if fault == LateFails then RoleStep(w, Failed(Storage)) else RoleStep(w.(users := users), Done))
    else if fault == CallFails then RoleStep(w, Failed(ChainRefused))
    else match SetRoles(w.chain, signer, changes)
      case None => RoleStep(w, Failed(ChainRefused))
      case Some(chain) =>
        if fault == MinedUnseen then RoleStep(w.(chain := chain), Failed(ChainRefused))
        else if fault == LateFails then RoleStep(w.(chain := chain), Failed(Storage))
        else RoleStep(Realm(users, chain), Done)
  }

  function SignerRole(w: Realm, actor: Id): Role
    requires actor in w.users
  {
    ChainRole(w.chain, w.users[actor].wallet)
  }

  /** A batch that gives every account the role its row ends up with, and touches no other wallet. */
  ghost predicate Matches(users': Accounts, chain: Authority, changes: seq<Change>) {
    forall id :: id in users' ==> Fits(users'[id], chain, changes)
  }

  predicate Fits(u: Account, chain: Authority, changes: seq<Change>) {
    Effective(u) == LastRole(changes, u.wallet).GetOr(ChainRole(chain, u.wallet))
  }

  /** Sync leaves both sides agreeing unless it fails after the transaction, and a failure before it
      leaves both unchanged. */
  lemma {:induction false} SyncAgrees(w: Realm, users': Accounts, signer: Role, changes: seq<Change>, fault: RoleFault)
    requires Agrees(w) && Matches(users', w.chain, changes)
    ensures var s := Sync(w, users', signer, changes, fault);
      && (fault != MinedUnseen && fault != LateFails ==> Agrees(s.realm))
      && (s.outcome.Failed? && fault != MinedUnseen && fault != LateFails ==> s.realm == w)
      && (s.outcome.Failed? ==> s.realm.users == w.users)
      && (s.outcome == Done ==> s.realm.users == users')
  {
    if SetRoles(w.chain, signer, changes).Some? {
      SetRolesIs(w.chain, signer, changes);
    }
  }

  /** Somebody's row says something else than the batch told the contract. */
  predicate Unlike(users: Accounts, changes: seq<Change>) {
    exists id | id in users :: LastRole(changes, users[id].wallet).GetOr(Effective(users[id])) != Effective(users[id])
  }

  /** Exactly the syncs that break agreement: the contract accepted the batch, what came after failed,
      and the batch gave an existing account another role. */
  lemma {:induction false} SyncAgreesExactly(w: Realm, users': Accounts, signer: Role, changes: seq<Change>,
                                             fault: RoleFault)
    requires Agrees(w) && Matches(users', w.chain, changes)
    ensures Agrees(Sync(w, users', signer, changes, fault).realm)
       <==> !((fault == MinedUnseen || fault == LateFails)
              && SetRoles(w.chain, signer, changes).Some? && Unlike(w.users, changes))
  {
    if SetRoles(w.chain, signer, changes).Some? {
      SetRolesIs(w.chain, signer, changes);
    }
    assert changes == [] ==> forall a :: LastRole(changes, a) == None;
    SyncAgrees(w, users', signer, changes, fault);
  }

  // ----- Store -----

  datatype Newcomer = Newcomer(id: Id, wallet: Wallet, role: Role)

  /** `valid` stands for the e-mail and unit checks. */
  predicate StoreAllowed(auth: Role, news: seq<Newcomer>, valid: bool) {
    valid && forall i :: 0 <= i < |news| ==>
      news[i].role != SuperAdmin && !(auth == Admin && Rank(news[i].role) >= Rank(Admin))
  }

  function AddAll(users: Accounts, news: seq<Newcomer>): Accounts {
    if news == [] then users
    else
      var n := news[|news| - 1];
      AddAll(users, news[..|news| - 1])[n.id := Account(n.wallet, n.role, false)]
  }

  function StoreChanges(news: seq<Newcomer>): (r: seq<Change>)
    ensures |r| == |news|
  {
    seq(|news|, i requires 0 <= i < |news| => Change(news[i].wallet, news[i].role))
  }

  function Store(w: Realm, actor: Id, news: seq<Newcomer>, valid: bool, fault: RoleFault): RoleStep
    requires actor in w.users
  {
    if !StoreAllowed(w.users[actor].role, news, valid) then RoleStep(w, Failed(Refused))
    else if exists i :: 0 <= i < |news| && news[i].role == NoRole then RoleStep(w, Failed(Storage))
    else Sync(w, AddAll(w.users, news), SignerRole(w, actor), StoreChanges(news), fault)
  }

  /** Generated ids and wallets are new. */
  ghost predicate NewAccounts(w: Realm, news: seq<Newcomer>) {
    && (forall i :: 0 <= i < |news| ==> news[i].id !in w.users && news[i].wallet !in w.chain)
    && (forall i, id :: 0 <= i < |news| && id in w.users ==> w.users[id].wallet != news[i].wallet)
    && (forall i, j :: 0 <= i < j < |news| ==> news[i].id != news[j].id && news[i].wallet != news[j].wallet)
  }

  // ----- Update -----

  datatype Edit = Edit(id: Id, role: Option<Role>, email: bool)

  /** Before the rows are read: an Admin may not name itself. */
  predicate UpdateStarts(w: Realm, actor: Id, edits: seq<Edit>)
    requires actor in w.users
  {
    forall i :: 0 <= i < |edits| ==> edits[i].id != actor || w.users[actor].role == SuperAdmin
  }

  /** As many rows as edits: all named rows exist, none is named twice. */
  predicate EachOnce(users: Accounts, ids: seq<Id>) {
    (forall i :: 0 <= i < |ids| ==> ids[i] in users) && (forall i, j :: 0 <= i < j < |ids| ==> ids[i] != ids[j])
  }

  predicate EditAllowed(w: Realm, actor: Id, e: Edit)
    requires actor in w.users && e.id in w.users
  {
    var auth := w.users[actor].role;
    var t := w.users[e.id];
    && !t.trashed && (t.role == SuperAdmin ==> e.id == actor) && !(auth == Admin && Rank(t.role) >= Rank(Admin))
    && !(e.id == actor && e.email)
    && (e.role.Some? ==> e.role.value != SuperAdmin && !(auth == Admin && Rank(e.role.value) >= Rank(Admin)))
  }

  predicate UpdateAllowed(w: Realm, actor: Id, edits: seq<Edit>, valid: bool)
    requires actor in w.users && EachOnce(w.users, IdsOf(edits))
  {
    valid && forall i :: 0 <= i < |edits| ==> IdsOf(edits)[i] in w.users && EditAllowed(w, actor, edits[i])
  }

  function IdsOf(edits: seq<Edit>): (r: seq<Id>)
    ensures |r| == |edits| && forall i :: 0 <= i < |r| ==> r[i] == edits[i].id
  {
    seq(|edits|, i requires 0 <= i < |edits| => edits[i].id)
  }

  function EditOf(edits: seq<Edit>, id: Id): Option<Role> {
    if edits == [] then None else if edits[0].id == id && edits[0].role.Some? then edits[0].role
    else EditOf(edits[1..], id)
  }

  /** The role column of the batched update; the first record for a row wins. */
  function EditRoles(users: Accounts, edits: seq<Edit>): Accounts {
    map id | id in users :: users[id].(role := EditOf(edits, id).GetOr(users[id].role))
  }

  /** Only roles that really change go to the chain. */
  function EditChanges(users: Accounts, edits: seq<Edit>): seq<Change>
    requires forall i :: 0 <= i < |edits| ==> edits[i].id in users
  {
    if edits == [] then []
    else
      var e := edits[|edits| - 1];
      var front := EditChanges(users, edits[..|edits| - 1]);
      if e.role.Some? && e.role.value != users[e.id].role then front + [Change(users[e.id].wallet, e.role.value)]
      else front
  }

  function Update(w: Realm, actor: Id, edits: seq<Edit>, valid: bool, fault: RoleFault): RoleStep
    requires actor in w.users
  {
    if !UpdateStarts(w, actor, edits) then RoleStep(w, Failed(Refused))
    else if !EachOnce(w.users, IdsOf(edits)) then RoleStep(w, Failed(NotFound))
    else if !UpdateAllowed(w, actor, edits, valid) then RoleStep(w, Failed(Refused))
    else if exists i :: 0 <= i < |edits| && edits[i].role == Some(NoRole) then RoleStep(w, Failed(Storage))
    else
      assert forall i :: 0 <= i < |edits| ==> IdsOf(edits)[i] == edits[i].id;
      Sync(w, EditRoles(w.users, edits), SignerRole(w, actor), EditChanges(w.users, edits), fault)
  }

  // ----- UpdateRole -----

  datatype Assignment = Assignment(id: Id, role: Role)

  predicate AssignmentAllowed(w: Realm, actor: Id, a: Assignment)
    requires actor in w.users
  {
    var auth := w.users[actor].role;
    && a.role != SuperAdmin && a.id != actor
    && a.id in w.users && !w.users[a.id].trashed && w.users[a.id].role != a.role
    && !(auth == Admin && (Rank(w.users[a.id].role) >= Rank(Admin) || Rank(a.role) >= Rank(Admin)))
  }

  function FirstRole(updates: seq<Assignment>, id: Id): Option<Role> {
    if updates == [] then None else if updates[0].id == id then Some(updates[0].role) else FirstRole(updates[1..], id)
  }

  function FinalRole(updates: seq<Assignment>, id: Id): Option<Role> {
    if updates == [] then None
    else if updates[|updates| - 1].id == id then Some(updates[|updates| - 1].role)
    else FinalRole(updates[..|updates| - 1], id)
  }

  /** UPDATE … SET role = CASE id WHEN …: the first WHEN wins. */
  function AssignRoles(users: Accounts, updates: seq<Assignment>): Accounts {
    map id | id in users :: users[id].(role := FirstRole(updates, id).GetOr(users[id].role))
  }

  function AssignChanges(users: Accounts, updates: seq<Assignment>): (r: seq<Change>)
    requires forall i :: 0 <= i < |updates| ==> updates[i].id in users
    ensures |r| == |updates|
  {
    seq(|updates|, i requires 0 <= i < |updates| => Change(users[updates[i].id].wallet, updates[i].role))
  }

  function UpdateRole(w: Realm, actor: Id, updates: seq<Assignment>, fault: RoleFault): RoleStep
    requires actor in w.users
  {
    if exists i :: 0 <= i < |updates| && !AssignmentAllowed(w, actor, updates[i]) then RoleStep(w, Failed(Refused))
    else if exists i :: 0 <= i < |updates| && updates[i].role == NoRole then RoleStep(w, Failed(Storage))
    else Sync(w, AssignRoles(w.users, updates), SignerRole(w, actor), AssignChanges(w.users, updates), fault)
  }

  // ----- Delete and Restore -----

  /** `order` is an order in which FindByIds may return the rows. */
  ghost predicate IsScan(order: seq<Id>, ids: seq<Id>, users: Accounts) {
    Distinct(order) && forall id :: id in order <==> id in ids && id in users
  }

  function Trash(users: Accounts, ids: seq<Id>): Accounts {
    map id | id in users :: if id in ids then users[id].(trashed := true) else users[id]
  }

  function Untrash(users: Accounts, ids: seq<Id>): Accounts {
    map id | id in users :: if id in ids then users[id].(trashed := false) else users[id]
  }

  function RevocationsFor(users: Accounts, order: seq<Id>): seq<Change>
    requires forall id :: id in order ==> id in users
  {
    if order == [] then []
    else
      var id := order[|order| - 1];
      var front := RevocationsFor(users, order[..|order| - 1]);
      if users[id].trashed then front else front + [Change(users[id].wallet, NoRole)]
  }

  function RestorationsFor(users: Accounts, order: seq<Id>): (r: seq<Change>)
    requires forall id :: id in order ==> id in users
    ensures |r| == |order|
  {
    seq(|order|, i requires 0 <= i < |order| => Change(users[order[i]].wallet, users[order[i]].role))
  }

  predicate DeleteAllowed(w: Realm, actor: Id, order: seq<Id>)
    requires actor in w.users && forall id :: id in order ==> id in w.users
  {
    w.users[actor].role == Admin ==> forall i :: 0 <= i < |order| ==> Rank(w.users[order[i]].role) < Rank(Admin)
  }

  function Delete(w: Realm, actor: Id, ids: seq<Id>, order: seq<Id>, fault: RoleFault): RoleStep
    requires actor in w.users && IsScan(order, ids, w.users)
  {
    if actor in ids || !DeleteAllowed(w, actor, order) then RoleStep(w, Failed(Refused))
    else Sync(w, Trash(w.users, ids), SignerRole(w, actor), RevocationsFor(w.users, order), fault)
  }

  predicate RestoreAllowed(users: Accounts, order: seq<Id>)
    requires forall id :: id in order ==> id in users
  {
    forall i :: 0 <= i < |order| ==> users[order[i]].role != SuperAdmin && users[order[i]].trashed
  }

  function Restore(w: Realm, actor: Id, ids: seq<Id>, order: seq<Id>, fault: RoleFault): RoleStep
    requires actor in w.users && IsScan(order, ids, w.users)
  {
    if actor in ids || !RestoreAllowed(w.users, order) then RoleStep(w, Failed(Refused))
    else Sync(w, Untrash(w.users, ids), SignerRole(w, actor), RestorationsFor(w.users, order), fault)
  }

  // ----- TransferSuperAdmin: the chain call comes first -----

  function Handed(users: Accounts, from: Id, to: Id): Accounts
    requires from in users && to in users
  {
    AssignRoles(users, [Assignment(from, Admin), Assignment(to, SuperAdmin)])
  }

  function Transfer(w: Realm, actor: Id, target: Id, fault: RoleFault): RoleStep
    requires actor in w.users
  {
    if actor == target then RoleStep(w, Failed(Refused))
    else if fault == DbFails then RoleStep(w, Failed(Storage))
    else if target !in w.users then RoleStep(w, Failed(NotFound))
    else if w.users[target].trashed then RoleStep(w, Failed(Refused))
    else if fault == CallFails then RoleStep(w, Failed(ChainRefused))
    else match TransferOnChain(w.chain, w.users[actor].wallet, w.users[target].wallet)
      case None => RoleStep(w, Failed(ChainRefused))
      case Some(chain) =>
        if fault == MinedUnseen then RoleStep(w.(chain := chain), Failed(ChainRefused))
        else if fault == LateFails then RoleStep(w.(chain := chain), Failed(Storage))
        else RoleStep(Realm(Handed(w.users, actor, target), chain), Done)
  }

  // ----- The machine -----

  datatype RoleAction =
    | DoStore(actor: Id, news: seq<Newcomer>, valid: bool, fault: RoleFault)
    | DoUpdate(actor: Id, edits: seq<Edit>, valid: bool, fault: RoleFault)
    | DoUpdateRole(actor: Id, updates: seq<Assignment>, fault: RoleFault)
    | DoDelete(actor: Id, ids: seq<Id>, order: seq<Id>, fault: RoleFault)
    | DoRestore(actor: Id, ids: seq<Id>, order: seq<Id>, fault: RoleFault)
    | DoTransfer(actor: Id, target: Id, fault: RoleFault)

  /** The caller is a live account; generated keys are new; a scan returns the rows asked for. */
  ghost predicate Enabled(w: Realm, a: RoleAction) {
    && a.actor in w.users && !w.users[a.actor].trashed
    && match a
       case DoStore(_, news, _, _) => NewAccounts(w, news)
       case DoDelete(_, ids, order, _) => IsScan(order, ids, w.users)
       case DoRestore(_, ids, order, _) => IsScan(order, ids, w.users)
       case _ => true
  }

  ghost function Do(w: Realm, a: RoleAction): RoleStep
    requires Enabled(w, a)
  {
    match a
    case DoStore(actor, news, valid, fault) => Store(w, actor, news, valid, fault)
    case DoUpdate(actor, edits, valid, fault) => Update(w, actor, edits, valid, fault)
    case DoUpdateRole(actor, updates, fault) => UpdateRole(w, actor, updates, fault)
    case DoDelete(actor, ids, order, fault) => Delete(w, actor, ids, order, fault)
    case DoRestore(actor, ids, order, fault) => Restore(w, actor, ids, order, fault)
    case DoTransfer(actor, target, fault) => Transfer(w, actor, target, fault)
  }

  /** Something fails after the transaction is mined. */
  predicate Late(a: RoleAction) {
    a.fault == MinedUnseen || a.fault == LateFails
  }

  /** No account is given two different roles at once. */
  ghost predicate Consistent(a: RoleAction) {
    a.DoUpdateRole? ==> forall id :: FirstRole(a.updates, id) == FinalRole(a.updates, id)
  }

  ghost function Run(w: Realm, actions: seq<RoleAction>): Realm {
    if actions == [] then w
    else
      var w' := Run(w, actions[..|actions| - 1]);
      var a := actions[|actions| - 1];
      if Enabled(w', a) then Do(w', a).realm else w'
  }
}
