/** The unit service. It runs outside any unit of work, so every statement commits on its own: the
    forest has to hold after each of them, and wherever an error makes the service return. */
module UnitServices {
  import opened Base
  import opened Names
  import opened UnitForest

  // ----- The invariant -----

  ghost predicate ParentsExist(units: Units) {
    forall id :: id in units && units[id].parent.Some? ==> units[id].parent.value in units
  }

  /** No active unit has an inactive parent. */
  ghost predicate ActiveUnderActive(units: Units) {
    forall id :: id in units && units[id].active && Above(units, id).Some? ==> units[Above(units, id).value].active
  }

  ghost predicate Good(units: Units) {
    ParentsExist(units) && Acyclic(units) && ActiveUnderActive(units)
  }

  // ----- Writes -----

  /** One record of the batched update: an empty name and a missing parent are skipped, `active` never is. */
  datatype UnitPatch = UnitPatch(id: Id, name: string, parent: Option<Id>, active: bool)

  function PatchUnit(u: Unit, p: UnitPatch): Unit {
    Unit(if p.name != "" then p.name else u.name, p.parent.Or(u.parent), p.active)
  }

  function PatchedUnit(id: Id, u: Unit, batch: seq<UnitPatch>): Unit {
    if batch == [] then u
    else if batch[0].id == id then PatchUnit(PatchedUnit(id, u, batch[1..]), batch[0])
    else PatchedUnit(id, u, batch[1..])
  }

  function UpdateUnits(units: Units, batch: seq<UnitPatch>): Units {
    map id | id in units :: PatchedUnit(id, units[id], batch)
  }

  function SetParent(units: Units, id: Id, parent: Option<Id>): Units {
    if id in units then units[id := units[id].(parent := parent)] else units
  }

  // ----- What an update asks for -----

  function Renamed(units: Units, id: Id, name: string): Units {
    if id in units && name != "" then units[id := units[id].(name := name)] else units
  }

  function SetActive(units: Units, id: Id): Units {
    if id in units then units[id := units[id].(active := true)] else units
  }

  /** The whole subtree inactive, everything else as it was. */
  ghost function SubtreeOff(units: Units, id: Id): Units {
    map x | x in units :: if Below(units, x, id) then units[x].(active := false) else units[x]
  }

  ghost function WithActive(units: Units, id: Id, active: Option<bool>): Units {
    match active
    case None => units
    case Some(true) => SetActive(units, id)
    case Some(false) => SubtreeOff(units, id)
  }

  /** Moving under an inactive parent takes the subtree down with it. */
  ghost function Moved(units: Units, id: Id, parent: Option<Id>): Units {
    if parent.Some? && parent.value in units && !units[parent.value].active
    then SetParent(SubtreeOff(units, id), id, parent)
    else SetParent(units, id, parent)
  }

  predicate UnderInactive(units: Units, id: Id) {
    id in units && units[id].parent.Some? && units[id].parent.value in units && !units[units[id].parent.value].active
  }

  /** A parent that may be given to `id`. */
  ghost predicate ValidParent(units: Units, id: Id, parent: Option<Id>) {
    parent.Some? ==> parent.value in units && !Below(units, parent.value, id)
  }

  /** A parent that a unit, or one yet to be stored, may be given. */
  ghost predicate ParentFits(units: Units, self: Option<Id>, parent: Option<Id>) {
    parent.Some? ==> parent.value in units && (self.Some? ==> !Below(units, parent.value, self.value))
  }

  // ----- The relation alone -----

  ghost predicate SameParents(units: Units, units': Units) {
    units'.Keys == units.Keys && forall id :: id in units ==> units'[id].parent == units[id].parent
  }

  lemma {:induction false} SameUp(units: Units, units': Units, id: Id, n: nat)
    requires SameParents(units, units')
    ensures Up(units', id, n) == Up(units, id, n)
  {
    if n > 0 {
      SameUp(units, units', id, n - 1);
    }
  }

  lemma {:induction false} SameForest(units: Units, units': Units)
    requires SameParents(units, units')
    ensures Acyclic(units) ==> Acyclic(units')
    ensures ParentsExist(units) ==> ParentsExist(units')
    ensures forall x, y :: Below(units', x, y) <==> Below(units, x, y)
    ensures forall x :: Above(units', x) == Above(units, x)
  {
    forall id, n: nat ensures Up(units', id, n) == Up(units, id, n) {
      SameUp(units, units', id, n);
    }
  }

  // ----- Renaming and switching -----

  lemma {:induction false} RenamedGood(units: Units, id: Id, name: string)
    requires Good(units)
    ensures Good(Renamed(units, id, name)) && SameParents(units, Renamed(units, id, name))
  {
    SameForest(units, Renamed(units, id, name));
  }

  lemma {:induction false} RenamedUnder(units: Units, id: Id, name: string)
    ensures UnderInactive(Renamed(units, id, name), id) <==> UnderInactive(units, id)
  {
  }

  lemma {:induction false} ActivatedGood(units: Units, id: Id)
    requires Good(units) && (Above(units, id).Some? ==> units[Above(units, id).value].active)
    ensures Good(SetActive(units, id)) && SameParents(units, SetActive(units, id))
  {
    SameForest(units, SetActive(units, id));
  }

  /** Below one's parent's units one is oneself. */
  lemma {:induction false} ChildBelow(units: Units, x: Id, id: Id)
    requires x in units && Above(units, x).Some? && Below(units, Above(units, x).value, id)
    ensures Below(units, x, id)
  {
    var p := Above(units, x).value;
    assert Up(units, x, 0) == Some(x);
    assert Up(units, x, 1) == Some(p);
    BelowTrans(units, x, p, id);
  }

  lemma {:induction false} SubtreeOffGood(units: Units, id: Id)
    requires Good(units)
    ensures Good(SubtreeOff(units, id)) && SameParents(units, SubtreeOff(units, id))
  {
    var units' := SubtreeOff(units, id);
    SameForest(units, units');
    forall x | x in units' && units'[x].active && Above(units', x).Some? ensures units'[Above(units', x).value].active {
      if Below(units, Above(units, x).value, id) {
        ChildBelow(units, x, id);
      }
    }
  }

  // ----- Reparenting -----

  /** The climb from a unit outside the moved subtree is what it was. */
  lemma {:induction false} UpOutside(units: Units, id: Id, parent: Option<Id>, x: Id, n: nat)
    requires id in units && !Below(units, x, id)
    ensures Up(SetParent(units, id, parent), x, n) == Up(units, x, n)
  {
    if n > 0 {
      UpOutside(units, id, parent, x, n - 1);
      assert Up(units, x, n - 1) != Some(id);
    }
  }

  /** From inside, the climb is what it was up to the moved unit. */
  lemma {:induction false} UpInside(units: Units, id: Id, parent: Option<Id>, x: Id, k: nat, n: nat)
    requires id in units && Up(units, x, k) == Some(id) && n <= k
    requires forall j: nat :: j < k ==> Up(units, x, j) != Some(id)
    ensures Up(SetParent(units, id, parent), x, n) == Up(units, x, n)
  {
    if n > 0 {
      UpInside(units, id, parent, x, k, n - 1);
      assert Up(units, x, n - 1) != Some(id);
    }
  }

  /** The first time a climb meets `id`. */
  lemma {:induction false} FirstMeeting(units: Units, x: Id, id: Id, n: nat) returns (k: nat)
    requires Up(units, x, n) == Some(id)
    ensures k <= n && Up(units, x, k) == Some(id) && forall j: nat :: j < k ==> Up(units, x, j) != Some(id)
  {
    if exists j: nat :: j < n && Up(units, x, j) == Some(id) {
      var j: nat :| j < n && Up(units, x, j) == Some(id);
      k := FirstMeeting(units, x, id, j);
    } else {
      k := n;
    }
  }

  /** Giving a unit a parent outside its own subtree makes no cycle. */
  lemma {:induction false} ReparentAcyclic(units: Units, id: Id, parent: Option<Id>)
    requires id in units && Acyclic(units) && ValidParent(units, id, parent)
    ensures Acyclic(SetParent(units, id, parent))
  {
    var units' := SetParent(units, id, parent);
    forall x, n: nat | x in units' && n > 0 ensures Up(units', x, n) != Some(x) {
      assert !OnCycle(units, x);
      if Below(units, x, id) {
        var m: nat :| Up(units, x, m) == Some(id);
        var k := FirstMeeting(units, x, id, m);
        if n <= k {
          UpInside(units, id, parent, x, k, n);
        } else {
          NoReturn(units, id, parent, x, k, n);
        }
      } else {
        UpOutside(units, id, parent, x, n);
      }
    }
  }

  /** A climb that leaves the subtree through its root does not come back to where it began. */
  lemma {:induction false} NoReturn(units: Units, id: Id, parent: Option<Id>, x: Id, k: nat, n: nat)
    requires id in units && ValidParent(units, id, parent) && n > k
    requires Up(units, x, k) == Some(id) && forall j: nat :: j < k ==> Up(units, x, j) != Some(id)
    ensures Up(SetParent(units, id, parent), x, n) != Some(x)
  {
    var units' := SetParent(units, id, parent);
    UpInside(units, id, parent, x, k, k);
    UpAdds(units', x, id, k, n - k);
    UpFirst(units', id, n - k);
    if parent.Some? && Up(units', x, n) == Some(x) {
      var p := parent.value;
      UpOutside(units, id, parent, p, n - k - 1);
      assert Below(units, p, x) && Below(units, x, id);
      BelowTrans(units, p, x, id);
    }
  }

  lemma {:induction false} ReparentedGood(units: Units, id: Id, parent: Option<Id>)
    requires Good(units) && id in units && ValidParent(units, id, parent)
    requires parent.Some? ==> units[id].active ==> units[parent.value].active
    ensures Good(SetParent(units, id, parent))
  {
    ReparentAcyclic(units, id, parent);
  }

  lemma {:induction false} MovedGood(units: Units, id: Id, parent: Option<Id>)
    requires Good(units) && id in units && ValidParent(units, id, parent)
    ensures Good(Moved(units, id, parent))
  {
    if parent.Some? && !units[parent.value].active {
      SubtreeOffGood(units, id);
      SameForest(units, SubtreeOff(units, id));
      BelowSelf(units, id);
      ReparentedGood(SubtreeOff(units, id), id, parent);
    } else {
      ReparentedGood(units, id, parent);
    }
  }

  // ----- The batched update of a cascade -----

  ghost predicate DistinctPatches(batch: seq<UnitPatch>) {
    forall i, j :: 0 <= i < j < |batch| ==> batch[i].id != batch[j].id
  }

  lemma {:induction false} PatchedOnce(id: Id, u: Unit, batch: seq<UnitPatch>)
    requires DistinctPatches(batch)
    ensures forall i :: 0 <= i < |batch| && batch[i].id == id ==> PatchedUnit(id, u, batch) == PatchUnit(u, batch[i])
    ensures (forall i :: 0 <= i < |batch| ==> batch[i].id != id) ==> PatchedUnit(id, u, batch) == u
  {
    if batch != [] {
      PatchedOnce(id, u, batch[1..]);
      assert forall i :: 0 < i < |batch| ==> batch[i] == batch[1..][i - 1];
      if batch[0].id == id {
        assert forall i :: 0 <= i < |batch[1..]| ==> batch[1..][i].id == batch[i + 1].id;
      }
    }
  }

  function CascadePatch(id: Id, d: Id, reparentTo: Option<Id>): UnitPatch {
    UnitPatch(d, "", if d == id then reparentTo else None, false)
  }

  /** One patch per unit of the subtree is the cascade, and the move when a parent is given. */
  lemma {:induction false} CascadeIs(units: Units, id: Id, reparentTo: Option<Id>, desc: seq<Id>, batch: seq<UnitPatch>)
    requires id in units && Distinct(desc) && (forall x :: x in desc <==> Below(units, x, id))
    requires |batch| == |desc| && forall i :: 0 <= i < |desc| ==> batch[i] == CascadePatch(id, desc[i], reparentTo)
    ensures UpdateUnits(units, batch)
         == if reparentTo.Some? then SetParent(SubtreeOff(units, id), id, reparentTo) else SubtreeOff(units, id)
  {
    BelowSelf(units, id);
    forall x | x in units
      ensures PatchedUnit(x, units[x], batch)
           == if Below(units, x, id) then PatchUnit(units[x], CascadePatch(id, x, reparentTo)) else units[x]
    {
      PatchedOnce(x, units[x], batch);
      if Below(units, x, id) {
        var i :| 0 <= i < |desc| && desc[i] == x;
        assert batch[i].id == x;
      }
    }
  }

  lemma {:induction false} OnePatch(units: Units, p: UnitPatch)
    requires p.parent == None
    ensures p.id in units && p.active == units[p.id].active ==> UpdateUnits(units, [p]) == Renamed(units, p.id, p.name)
    ensures p.name == "" && p.active ==> UpdateUnits(units, [p]) == SetActive(units, p.id)
  {
    forall x | x in units
      ensures PatchedUnit(x, units[x], [p]) == if x == p.id then PatchUnit(units[x], p) else units[x]
    {
      assert [p][1..] == [];
    }
  }

  // ----- The service -----

  datatype UnitError = UnitNotFound | ParentInvalid | ParentInactive | UnitInUse | Storage

  ghost predicate AllGood(trace: seq<Units>) {
    forall i :: 0 <= i < |trace| ==> Good(trace[i])
  }

  /** A history of committed tables, all of them good, from one table to another. */
  ghost predicate History(trace: seq<Units>, from: Units, to: Units) {
    AllGood(trace) && trace != [] && trace[0] == from && trace[|trace| - 1] == to
  }

  /** What one stage adds: nothing, or the table it committed. */
  ghost predicate StageTrace(more: seq<Units>, from: Units, to: Units) {
    AllGood(more) && (if more == [] then to == from else more == [to])
  }

  lemma {:induction false} HistoryGrows(trace: seq<Units>, more: seq<Units>, from: Units, mid: Units, to: Units)
    requires History(trace, from, mid) && StageTrace(more, mid, to)
    ensures History(trace + more, from, to)
  {
  }

  lemma {:induction false} SameTable(scan: seq<Id>, units: Units, units': Units)
    requires IsTable(scan, units) && units'.Keys == units.Keys
    ensures IsTable(scan, units')
  {
  }

  class UnitService {
    var units: Units

    /** Whether a statement of the current call failed. */
    ghost var stalled: bool

    constructor ()
      ensures units == map[] && Good(units)
    {
      units := map[];
      stalled := false;
    }

    /** Any statement may fail; a failed statement changes nothing. */
    method Statement() returns (ok: bool)
      modifies this`stalled
      ensures stalled == (old(stalled) || !ok)
    {
      ok := *;
      stalled := stalled || !ok;
    }

    method Find(id: Id) returns (r: Option<Unit>, error: Option<UnitError>)
      modifies this`stalled
      ensures error == None ==> id in units && r == Some(units[id])
      ensures error.Some? ==> error == Some(Storage) || (error == Some(UnitNotFound) && id !in units)
      ensures stalled == (old(stalled) || error == Some(Storage))
    {
      var ok := Statement();
      if !ok {
        return None, Some(Storage);
      }
      return if id in units then Some(units[id]) else None, if id in units then None else Some(UnitNotFound);
    }

    /** The repository's batched update. */
    method UpdateBatch(batch: seq<UnitPatch>) returns (ok: bool)
      modifies this
      ensures units == if ok then UpdateUnits(old(units), batch) else old(units)
      ensures stalled == (old(stalled) || !ok)
    {
      ok := Statement();
      if ok {
        units := UpdateUnits(units, batch);
      }
    }

    method CascadeOff(id: Id, reparentTo: Option<Id>, scan: seq<Id>) returns (ok: bool)
      requires Good(units) && id in units && IsTable(scan, units)
      modifies this
      ensures !ok ==> units == old(units)
      ensures ok ==>
        units == if reparentTo.Some? then SetParent(SubtreeOff(old(units), id), id, reparentTo)
                 else SubtreeOff(old(units), id)
      ensures stalled == (old(stalled) || !ok)
    {
      ok := Statement();
      if !ok {
        return;
      }
      var desc := FindWithDescendants(units, scan, id);
      var batch := [];
      for i := 0 to |desc|
        invariant |batch| == i && forall k :: 0 <= k < i ==> batch[k] == CascadePatch(id, desc[k], reparentTo)
      {
        batch := batch + [UnitPatch(desc[i], "", if desc[i] == id then reparentTo else None, false)];
      }
      CascadeIs(units, id, reparentTo, desc, batch);
      ok := UpdateBatch(batch);
    }

    /** `self` is None for a unit that is yet to be stored. A failed look-up of the parent is reported as an
        invalid parent. */
    method ValidateParent(parent: Option<Id>, self: Option<Id>, scan: seq<Id>) returns (error: Option<UnitError>)
      requires Good(units) && IsTable(scan, units) && (self.Some? ==> self.value in units)
      modifies this`stalled
      ensures error == None ==> ParentFits(units, self, parent)
      ensures error.Some? ==> error == Some(ParentInvalid) || (error == Some(Storage) && stalled)
      ensures !stalled ==> (error == Some(ParentInvalid) <==> !ParentFits(units, self, parent))
      ensures (old(stalled) ==> stalled) && (stalled ==> old(stalled) || error.Some?)
    {
      if parent == None {
        return None;
      }
      var _, missing := Find(parent.value);
      if missing.Some? {
        return Some(ParentInvalid);
      }
      if self == None {
        return None;
      }
      var ok := Statement();
      if !ok {
        return Some(Storage);
      }
      var desc := FindWithDescendants(units, scan, self.value);
      return if parent.value in desc then Some(ParentInvalid) else None;
    }

    /** Stores a unit under a new id. A child of an inactive parent is born inactive. */
    method Store(id: Id, name: string, parent: Option<Id>, scan: seq<Id>) returns (error: Option<UnitError>)
      requires Good(units) && IsTable(scan, units) && id !in units
      modifies this
      ensures Good(units)
      ensures error.Some? ==> units == old(units)
      ensures stalled ==> error.Some?
      ensures !stalled ==>
        error == if parent.Some? && parent.value !in old(units) then Some(ParentInvalid) else None
      ensures error == None ==>
        units == old(units)[id := Unit(Trim(name), parent,
                                       if parent.Some? then old(units)[parent.value].active else true)]
    {
      stalled := false;
      error := ValidateParent(parent, None, scan);
      if error.Some? {
        return;
      }
      var active := true;
      if parent.Some? {
        var p, e := Find(parent.value);
        if e.Some? {
          return e;
        }
        active := p.value.active;
      }
      var ok := Statement();
      if !ok {
        return Some(Storage);
      }
      StoredGood(units, id, Unit(Trim(name), parent, active));
      units := units[id := Unit(Trim(name), parent, active)];
    }

    /** The three stages of Update and the read at its end, which may fail after everything is written;
        `trace` holds the table after every statement that wrote. An update that is refused keeps what
        was written before: the new name if the unit may not be switched on, the switch too if it may not move. */
    method Update(id: Id, name: Option<string>, parent: Option<Id>, setParent: bool, active: Option<bool>,
                  scan1: seq<Id>, scan2: seq<Id>, scan3: seq<Id>)
      returns (error: Option<UnitError>, ghost trace: seq<Units>)
      requires Good(units) && IsTable(scan1, units) && IsTable(scan2, units) && IsTable(scan3, units)
      modifies this
      ensures Good(units) && History(trace, old(units), units)
      ensures var renamed := if name.Some? then Renamed(old(units), id, Trim(name.value)) else old(units);
        var switched := WithActive(renamed, id, active);
        && (stalled ==> error.Some?)
        && (!stalled ==>
              error == if id !in old(units) then Some(UnitNotFound)
                       else if active == Some(true) && UnderInactive(old(units), id) then Some(ParentInactive)
                       else if setParent && !ValidParent(switched, id, parent) then Some(ParentInvalid)
                       else None)
        && (error == None ==> units == if setParent then Moved(switched, id, parent) else switched)
        && (!stalled && error.Some? ==> units == if error == Some(UnitNotFound) then old(units)
                                                 else if error == Some(ParentInactive) then renamed else switched)
        && (error.Some? ==> units == old(units) || units == renamed || units == switched
                            || (setParent && ValidParent(switched, id, parent) && units == Moved(switched, id, parent)))
    {
      stalled := false;
      ghost var start := units;
      trace := [units];
      var target, e := Find(id);
      if e.Some? {
        return e, trace;
      }
      error, trace := RenameAndSwitch(id, target.value, name, active, scan1);
      if error.Some? {
        return;
      }
      ghost var switched := units;
      if setParent {
        SameTable(scan2, start, switched);
        SameTable(scan3, start, switched);
        ghost var more;
        error, more := Reparent(id, parent, scan2, scan3);
        HistoryGrows(trace, more, start, switched, units);
        trace := trace + more;
        if error.Some? {
          return;
        }
      }
      target, error := Find(id);
    }

    /** The first two stages of Update. */
    method RenameAndSwitch(id: Id, target: Unit, name: Option<string>, active: Option<bool>, scan: seq<Id>)
      returns (error: Option<UnitError>, ghost trace: seq<Units>)
      requires Good(units) && IsTable(scan, units) && id in units && target == units[id]
      modifies this
      ensures Good(units) && units.Keys == old(units).Keys && History(trace, old(units), units)
      ensures var renamed := if name.Some? then Renamed(old(units), id, Trim(name.value)) else old(units);
        && (error == None ==> units == WithActive(renamed, id, active))
        && (error == Some(ParentInactive) ==> units == renamed)
        && (error == Some(Storage) ==> units == old(units) || units == renamed)
      ensures error == None || error == Some(ParentInactive) || error == Some(Storage)
      ensures error != Some(Storage) ==> (error == None <==> !(active == Some(true) && UnderInactive(old(units), id)))
      ensures stalled == (old(stalled) || error == Some(Storage))
    {
      ghost var start := units;
      ghost var more;
      error, more := Rename(id, name, target.active);
      trace := [start] + more;
      HistoryGrows([start], more, start, start, units);
      if error.Some? {
        return;
      }
      ghost var renamed := units;
      SameTable(scan, start, renamed);
      error, more := SwitchActive(id, target.parent, active, scan);
      HistoryGrows(trace, more, start, renamed, units);
      trace := trace + more;
    }

    /** The name write carries the current `active` forward. */
    method Rename(id: Id, name: Option<string>, active: bool)
      returns (error: Option<UnitError>, ghost trace: seq<Units>)
      requires Good(units) && id in units && active == units[id].active
      modifies this
      ensures Good(units) && SameParents(old(units), units)
      ensures StageTrace(trace, old(units), units)
      ensures UnderInactive(units, id) <==> UnderInactive(old(units), id)
      ensures units == if error == None && name.Some? then Renamed(old(units), id, Trim(name.value)) else old(units)
      ensures error.Some? ==> error == Some(Storage)
      ensures stalled == (old(stalled) || error.Some?)
    {
      trace := [];
      if name == None {
        return None, trace;
      }
      OnePatch(units, UnitPatch(id, Trim(name.value), None, active));
      RenamedGood(units, id, Trim(name.value));
      RenamedUnder(units, id, Trim(name.value));
      var ok := UpdateBatch([UnitPatch(id, Trim(name.value), None, active)]);
      if ok {
        trace := [units];
      }
      return if ok then None else Some(Storage), trace;
    }

    method SwitchActive(id: Id, parent: Option<Id>, active: Option<bool>, scan: seq<Id>)
      returns (error: Option<UnitError>, ghost trace: seq<Units>)
      requires Good(units) && id in units && units[id].parent == parent && IsTable(scan, units)
      modifies this
      ensures Good(units) && SameParents(old(units), units)
      ensures StageTrace(trace, old(units), units)
      ensures units == if error == None then WithActive(old(units), id, active) else old(units)
      ensures error.Some? ==> error == Some(Storage) || error == Some(ParentInactive)
      ensures error == None || error == Some(ParentInactive) ==>
        (error == None <==> !(active == Some(true) && UnderInactive(old(units), id)))
      ensures stalled == (old(stalled) || error == Some(Storage))
    {
      trace := [];
      if active == None {
        return None, trace;
      }
      if !active.value {
        SubtreeOffGood(units, id);
        var ok := CascadeOff(id, None, scan);
        if ok {
          trace := [units];
        }
        return if ok then None else Some(Storage), trace;
      }
      if parent.Some? {
        var p, e := Find(parent.value);
        if e.Some? {
          return Some(Storage), trace;
        }
        if !p.value.active {
          return Some(ParentInactive), trace;
        }
      }
      OnePatch(units, UnitPatch(id, "", None, true));
      ActivatedGood(units, id);
      var ok := UpdateBatch([UnitPatch(id, "", None, true)]);
      if ok {
        trace := [units];
      }
      return if ok then None else Some(Storage), trace;
    }

    method Reparent(id: Id, parent: Option<Id>, scan1: seq<Id>, scan2: seq<Id>)
      returns (error: Option<UnitError>, ghost trace: seq<Units>)
      requires Good(units) && id in units && IsTable(scan1, units) && IsTable(scan2, units)
      modifies this
      ensures Good(units)
      ensures StageTrace(trace, old(units), units)
      ensures error == None ==> ValidParent(old(units), id, parent)
      ensures units == if error == None then Moved(old(units), id, parent) else old(units)
      ensures error.Some? ==> error == Some(ParentInvalid) || (error == Some(Storage) && stalled)
      ensures !stalled ==> (error == Some(ParentInvalid) <==> !ValidParent(old(units), id, parent))
      ensures (old(stalled) ==> stalled) && (stalled ==> old(stalled) || error.Some?)
    {
      trace := [];
      error := ValidateParent(parent, Some(id), scan1);
      if error.Some? {
        return;
      }
      MovedGood(units, id, parent);
      var under := true;
      if parent.Some? {
        var p, e := Find(parent.value);
        if e.Some? {
          return e, trace;
        }
        under := p.value.active;
      }
      var ok;
      if under {
        ok := Statement();
        if ok {
          units := SetParent(units, id, parent);
        }
      } else {
        ok := CascadeOff(id, parent, scan2);
      }
      if ok {
        trace := [units];
      }
      return if ok then None else Some(Storage), trace;
    }

    /** `members` gives the unit of every user. Only units without users and without children go. */
    method Destroy(ids: seq<Id>, members: map<Id, Option<Id>>) returns (error: Option<UnitError>)
      requires Good(units)
      modifies this
      ensures Good(units)
      ensures error.Some? ==> units == old(units)
      ensures error == None ==> units == RemoveUnits(old(units), ids)
      ensures error == None ==> forall x :: x in units <==> x in old(units) && x !in ids
      ensures forall x :: x in units ==> x in old(units) && units[x] == old(units)[x]
      ensures stalled ==> error.Some?
      ensures !stalled ==>
        error == if HasUsers(ids, members) || HasChildren(ids, old(units)) then Some(UnitInUse) else None
      ensures error == Some(UnitInUse) ==> HasUsers(ids, members) || HasChildren(ids, old(units))
    {
      stalled := false;
      if ids == [] {
        assert RemoveUnits(units, ids) == units;
        return None;
      }
      var ok := Statement();
      if !ok {
        return Some(Storage);
      }
      if HasUsers(ids, members) {
        return Some(UnitInUse);
      }
      ok := Statement();
      if !ok {
        return Some(Storage);
      }
      if HasChildren(ids, units) {
        return Some(UnitInUse);
      }
      ok := Statement();
      if !ok {
        return Some(Storage);
      }
      RemovedGood(units, ids);
      units := RemoveUnits(units, ids);
      return None;
    }

    /** The unit filter of the user list: an equality on a unit becomes membership in its subtree. */
    method ExpandUnitFilter(unit: Id, scan: seq<Id>, members: map<Id, Option<Id>>) returns (selected: set<Id>)
      requires Good(units) && IsTable(scan, units)
      ensures forall u :: u in selected <==> u in members && members[u].Some? && Below(units, members[u].value, unit)
    {
      var ids := FindWithDescendants(units, scan, unit);
      selected := set u | u in members && members[u].Some? && members[u].value in ids;
    }
  }

  predicate HasUsers(ids: seq<Id>, members: map<Id, Option<Id>>) {
    exists u | u in members :: members[u].Some? && members[u].value in ids
  }

  predicate HasChildren(ids: seq<Id>, units: Units) {
    exists x | x in units :: units[x].parent.Some? && units[x].parent.value in ids
  }

  function RemoveUnits(units: Units, ids: seq<Id>): Units {
    map x | x in units && x !in ids :: units[x]
  }

  lemma {:induction false} RemovedUp(units: Units, ids: seq<Id>, x: Id, n: nat)
    ensures Up(RemoveUnits(units, ids), x, n).Some? ==> Up(RemoveUnits(units, ids), x, n) == Up(units, x, n)
  {
    if n > 0 {
      RemovedUp(units, ids, x, n - 1);
    }
  }

  lemma {:induction false} RemovedGood(units: Units, ids: seq<Id>)
    requires Good(units) && forall x :: x in units && units[x].parent.Some? ==> units[x].parent.value !in ids
    ensures Good(RemoveUnits(units, ids))
  {
    var units' := RemoveUnits(units, ids);
    forall x, n: nat | x in units' && n > 0 ensures Up(units', x, n) != Some(x) {
      RemovedUp(units, ids, x, n);
      assert !OnCycle(units, x);
    }
  }

  lemma {:induction false} StoredUp(units: Units, id: Id, u: Unit, x: Id, n: nat)
    requires ParentsExist(units) && id !in units && x in units
    ensures Up(units[id := u], x, n) == Up(units, x, n)
  {
    if n > 0 {
      StoredUp(units, id, u, x, n - 1);
      UpInTable(units, x, n - 1);
    }
  }

  lemma {:induction false} StoredGood(units: Units, id: Id, u: Unit)
    requires Good(units) && id !in units
    requires u.parent.Some? ==> u.parent.value in units && u.active == units[u.parent.value].active
    ensures Good(units[id := u])
  {
    var units' := units[id := u];
    forall x, n: nat | x in units' && n > 0 ensures Up(units', x, n) != Some(x) {
      if x in units {
        StoredUp(units, id, u, x, n);
        assert !OnCycle(units, x);
      } else {
        UpFirst(units', id, n);
        if u.parent.Some? {
          StoredUp(units, id, u, u.parent.value, n - 1);
          UpInTable(units, u.parent.value, n - 1);
        }
      }
    }
  }
}
