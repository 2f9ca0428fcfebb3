/** The other repositories that write through the batched statement: roles of accounts, and units. What
    their models say an update does to the table is what the compiled statement does to it. */
module BatchUpdates {
  import opened Base
  import Sql = CaseSql
  import Roles
  import UnitForest
  import UnitServices

  // ----- UpdateRole: UPDATE users SET role = CASE id … -----

  function RoleName(r: Roles.Role): string {
    match r
    case NoRole => "none"
    case Holder => "holder"
    case Issuer => "issuer"
    case Admin => "admin"
    case SuperAdmin => "super_admin"
  }

  function EncodeAccounts(users: Roles.Accounts): Sql.Table {
    map id | id in users ::
      map[Sql.ID := Sql.Text(id), Sql.ROLE := Sql.Text(RoleName(users[id].role)), Sql.UPDATED_AT := Sql.Null]
  }

  function RolePatches(updates: seq<Roles.Assignment>): seq<Sql.Patch> {
    seq(|updates|,
        i requires 0 <= i < |updates| => Sql.Patch(updates[i].id, map[Sql.ROLE := Sql.Text(RoleName(updates[i].role))]))
  }

  lemma {:induction false} FirstRoleProvided(updates: seq<Roles.Assignment>, id: Id)
    ensures Sql.FirstProvided(RolePatches(updates), id, Sql.ROLE)
         == (match Roles.FirstRole(updates, id) case None => None case Some(r) => Some(Sql.Text(RoleName(r))))
  {
    if updates != [] {
      FirstRoleProvided(updates[1..], id);
      assert RolePatches(updates)[1..] == RolePatches(updates[1..]);
    }
  }

  lemma {:induction false} MentionedOrNot(batch: seq<Sql.Patch>, id: Id, col: Sql.Column)
    ensures !Sql.Mentions(batch, id) ==> Sql.FirstProvided(batch, id, col) == None
    ensures !Sql.Provides(batch, col) ==> Sql.FirstProvided(batch, id, col) == None
  {
    if batch != [] {
      MentionedOrNot(batch[1..], id, col);
      assert Sql.Mentions(batch[1..], id) ==> Sql.Mentions(batch, id) by {
        if i :| 0 <= i < |batch[1..]| && batch[1..][i].id == id {
          assert batch[i + 1].id == id;
        }
      }
      assert Sql.Provides(batch[1..], col) ==> Sql.Provides(batch, col) by {
        if i :| 0 <= i < |batch[1..]| && col in batch[1..][i].sets {
          assert col in batch[i + 1].sets;
        }
      }
      assert batch[0].id == id ==> Sql.Mentions(batch, id);
      assert col in batch[0].sets ==> Sql.Provides(batch, col);
    }
  }

  /** A cell of the table after the statement, whether or not its row was named. */
  lemma {:induction false} CellAfter(t: Sql.Table, batch: seq<Sql.Patch>, cols: seq<Sql.Column>, now: Time, id: Id,
                                     col: Sql.Column)
    requires id in t && col in cols && col in t[id] && col != Sql.UPDATED_AT
    ensures id in Sql.Patched(t, batch, cols, now) && col in Sql.Patched(t, batch, cols, now)[id]
    ensures Sql.Patched(t, batch, cols, now)[id][col] == Sql.FirstProvided(batch, id, col).GetOr(t[id][col])
  {
    MentionedOrNot(batch, id, col);
  }

  /** The table holds this cell. */
  predicate HasCell(t: Sql.Table, id: Id, col: Sql.Column, cell: Sql.Cell) {
    id in t && col in t[id] && t[id][col] == cell
  }

  /** The same with the cell before and the cell after named. */
  lemma {:induction false} CellGets(t: Sql.Table, batch: seq<Sql.Patch>, cols: seq<Sql.Column>, now: Time, id: Id,
                                    col: Sql.Column,
                                    was: Sql.Cell, becomes: Sql.Cell)
    requires HasCell(t, id, col, was) && col in cols && col != Sql.UPDATED_AT
    requires becomes == Sql.FirstProvided(batch, id, col).GetOr(was)
    ensures HasCell(Sql.Patched(t, batch, cols, now), id, col, becomes)
  {
    CellAfter(t, batch, cols, now, id, col);
  }

  lemma {:induction false} RoleCellAfter(users: Roles.Accounts, updates: seq<Roles.Assignment>, now: Time, id: Id)
    requires id in users
    ensures HasCell(Sql.Patched(EncodeAccounts(users), RolePatches(updates), [Sql.ROLE], now), id, Sql.ROLE,
                    Sql.Text(RoleName(Roles.AssignRoles(users, updates)[id].role)))
  {
    FirstRoleProvided(updates, id);
    CellGets(EncodeAccounts(users), RolePatches(updates), [Sql.ROLE], now, id, Sql.ROLE,
             Sql.Text(RoleName(users[id].role)),
             Sql.Text(RoleName(Roles.FirstRole(updates, id).GetOr(users[id].role))));
  }

  /** Running the compiled role update leaves every account with the role AssignRoles gives it: where ids
      repeat, the first WHEN. */
  lemma {:induction false} UpdateRoleIsTheStatement(users: Roles.Accounts, updates: seq<Roles.Assignment>, now: Time)
    ensures var run := Sql.Meaning(Sql.CompiledText("users", [Sql.ROLE], RolePatches(updates)),
                                   Sql.CompiledArgs([Sql.ROLE], RolePatches(updates)), EncodeAccounts(users), now);
      run.Some? && forall id :: id in users ==>
        HasCell(run.value, id, Sql.ROLE, Sql.Text(RoleName(Roles.AssignRoles(users, updates)[id].role)))
  {
    Sql.StatementPatchesRows("users", EncodeAccounts(users), [Sql.ROLE], RolePatches(updates), now);
    forall id | id in users
      ensures HasCell(Sql.Patched(EncodeAccounts(users), RolePatches(updates), [Sql.ROLE], now), id, Sql.ROLE,
                      Sql.Text(RoleName(Roles.AssignRoles(users, updates)[id].role)))
    {
      RoleCellAfter(users, updates, now, id);
    }
  }

  // ----- Units: name and parent when given, active always -----

  const UNIT_COLUMNS: seq<Sql.Column> := [Sql.NAME, Sql.PARENT_ID, Sql.ACTIVE]

  function ParentCell(p: Option<Id>): Sql.Cell {
    match p case None => Sql.Null case Some(id) => Sql.Text(id)
  }

  function UnitCell(u: UnitForest.Unit, col: Sql.Column): Sql.Cell {
    match col
    case NAME => Sql.Text(u.name)
    case PARENT_ID => ParentCell(u.parent)
    case ACTIVE => Sql.Flag(u.active)
    case _ => Sql.Null
  }

  function EncodeUnits(units: UnitForest.Units): Sql.Table {
    map id | id in units ::
      map[Sql.ID := Sql.Text(id), Sql.UPDATED_AT := Sql.Null, Sql.NAME := UnitCell(units[id], Sql.NAME),
          Sql.PARENT_ID := UnitCell(units[id], Sql.PARENT_ID), Sql.ACTIVE := UnitCell(units[id], Sql.ACTIVE)]
  }

  function UnitSets(p: UnitServices.UnitPatch): map<Sql.Column, Sql.Cell> {
    (if p.name != "" then map[Sql.NAME := Sql.Text(p.name)] else map[])
    + (if p.parent.Some? then map[Sql.PARENT_ID := ParentCell(p.parent)] else map[])
    + map[Sql.ACTIVE := Sql.Flag(p.active)]
  }

  function UnitPatches(batch: seq<UnitServices.UnitPatch>): seq<Sql.Patch> {
    seq(|batch|, i requires 0 <= i < |batch| => Sql.Patch(batch[i].id, UnitSets(batch[i])))
  }

  lemma {:induction false} PatchedUnitCell(id: Id, u: UnitForest.Unit, batch: seq<UnitServices.UnitPatch>,
                                           col: Sql.Column)
    requires col in UNIT_COLUMNS
    ensures UnitCell(UnitServices.PatchedUnit(id, u, batch), col)
         == Sql.FirstProvided(UnitPatches(batch), id, col).GetOr(UnitCell(u, col))
  {
    if batch != [] {
      PatchedUnitCell(id, u, batch[1..], col);
      assert UnitPatches(batch)[1..] == UnitPatches(batch[1..]);
    }
  }

  lemma {:induction false} EncodedUnitsWellFormed(units: UnitForest.Units)
    ensures Sql.WellFormed(EncodeUnits(units), UNIT_COLUMNS)
    ensures Distinct(UNIT_COLUMNS) && Sql.UPDATED_AT !in UNIT_COLUMNS && Sql.KEY !in UNIT_COLUMNS
  {
  }

  lemma {:induction false} EncodedUnitCell(units: UnitForest.Units, id: Id, col: Sql.Column)
    requires id in units && col in UNIT_COLUMNS
    ensures HasCell(EncodeUnits(units), id, col, UnitCell(units[id], col)) && col != Sql.UPDATED_AT
  {
  }

  lemma {:induction false} UnitCellAfter(units: UnitForest.Units, batch: seq<UnitServices.UnitPatch>, now: Time,
                                         id: Id, col: Sql.Column)
    requires id in units && col in UNIT_COLUMNS
    ensures HasCell(Sql.Patched(EncodeUnits(units), UnitPatches(batch), UNIT_COLUMNS, now), id, col,
                    UnitCell(UnitServices.UpdateUnits(units, batch)[id], col))
  {
    EncodedUnitCell(units, id, col);
    PatchedUnitCell(id, units[id], batch, col);
    CellGets(EncodeUnits(units), UnitPatches(batch), UNIT_COLUMNS, now, id, col, UnitCell(units[id], col),
             UnitCell(UnitServices.PatchedUnit(id, units[id], batch), col));
  }

  /** Running the compiled unit update leaves every unit as UpdateUnits says. */
  lemma {:induction false} UpdateUnitsIsTheStatement(units: UnitForest.Units, batch: seq<UnitServices.UnitPatch>,
                                                     now: Time)
    ensures var run := Sql.Meaning(Sql.CompiledText("user_units", UNIT_COLUMNS, UnitPatches(batch)),
                                   Sql.CompiledArgs(UNIT_COLUMNS, UnitPatches(batch)), EncodeUnits(units), now);
      run.Some? && forall id, col :: id in units && col in UNIT_COLUMNS ==>
        HasCell(run.value, id, col, UnitCell(UnitServices.UpdateUnits(units, batch)[id], col))
  {
    EncodedUnitsWellFormed(units);
    Sql.StatementPatchesRows("user_units", EncodeUnits(units), UNIT_COLUMNS, UnitPatches(batch), now);
    forall id, col | id in units && col in UNIT_COLUMNS
      ensures HasCell(Sql.Patched(EncodeUnits(units), UnitPatches(batch), UNIT_COLUMNS, now), id, col,
                      UnitCell(UnitServices.UpdateUnits(units, batch)[id], col))
    {
      UnitCellAfter(units, batch, now, id, col);
    }
  }
}
