/** Organisational units: the parent relation, the recursive queries over it, and the writes of the
    unit repository. */
module UnitForest {
  import opened Base

  datatype Unit = Unit(name: string, parent: Option<Id>, active: bool)

  type Units = map<Id, Unit>

  // ----- Climbing -----

  /** The n-th unit above `id`, counting itself as the 0-th; none once the climb leaves the table. */
  function Up(units: Units, id: Id, n: nat): Option<Id> {
    if n == 0 then (if id in units then Some(id) else None)
    else match Up(units, id, n - 1)
         case None => None
         case Some(a) => Above(units, a)
  }

  function Above(units: Units, id: Id): (r: Option<Id>)
    ensures r.Some? ==> r.value in units
  {
    if id in units && units[id].parent.Some? && units[id].parent.value in units then units[id].parent else None
  }

  /** `d` lies in the subtree of `a`. */
  ghost predicate Below(units: Units, d: Id, a: Id) {
    exists n: nat :: Up(units, d, n) == Some(a)
  }

  ghost predicate OnCycle(units: Units, id: Id) {
    exists n: nat :: n > 0 && Up(units, id, n) == Some(id)
  }

  ghost predicate Acyclic(units: Units) {
    forall id :: id in units ==> !OnCycle(units, id)
  }

  lemma {:induction false} UpInTable(units: Units, id: Id, n: nat)
    ensures Up(units, id, n).Some? ==> Up(units, id, n).value in units && id in units
  {
    if n > 0 {
      UpInTable(units, id, n - 1);
    }
  }

  lemma {:induction false} UpAdds(units: Units, id: Id, a: Id, m: nat, n: nat)
    requires Up(units, id, m) == Some(a)
    ensures Up(units, id, m + n) == Up(units, a, n)
  {
    UpInTable(units, id, m);
    if n > 0 {
      UpAdds(units, id, a, m, n - 1);
      assert Up(units, id, m + n) == (match Up(units, id, m + n - 1) case None => None case Some(x) => Above(units, x));
    }
  }

  /** A climb that exists is defined at every step below it. */
  lemma {:induction false} UpDefined(units: Units, id: Id, m: nat, n: nat)
    requires m <= n && Up(units, id, n).Some?
    ensures Up(units, id, m).Some?
  {
    if m < n {
      UpDefined(units, id, m, n - 1);
    }
  }

  lemma {:induction false} BelowTrans(units: Units, d: Id, b: Id, a: Id)
    requires Below(units, d, b) && Below(units, b, a)
    ensures Below(units, d, a)
  {
    var m: nat :| Up(units, d, m) == Some(b);
    var n: nat :| Up(units, b, n) == Some(a);
    UpAdds(units, d, b, m, n);
    assert Up(units, d, m + n) == Some(a);
  }

  lemma {:induction false} BelowSelf(units: Units, id: Id)
    requires id in units
    ensures Below(units, id, id)
  {
    assert Up(units, id, 0) == Some(id);
  }

  // ----- FindWithDescendants: WITH RECURSIVE … UNION ALL -----

  /** `scan` is an order in which the database may read the table. */
  ghost predicate IsTable(scan: seq<Id>, units: Units) {
    Distinct(scan) && forall id :: id in scan <==> id in units
  }

  /** The rows of one join step for one row of the working table. */
  function Children(units: Units, scan: seq<Id>, d: Id): seq<Id> {
    if scan == [] then []
    else if scan[0] in units && units[scan[0]].parent == Some(d) then [scan[0]] + Children(units, scan[1..], d)
    else Children(units, scan[1..], d)
  }

  function Join(units: Units, scan: seq<Id>, working: seq<Id>): seq<Id> {
    if working == [] then [] else Children(units, scan, working[0]) + Join(units, scan, working[1..])
  }

  /** What the k-th iteration of the recursion adds. UNION ALL removes nothing. */
  function Level(units: Units, scan: seq<Id>, id: Id, k: nat): seq<Id> {
    if k == 0 then (if id in units then [id] else []) else Join(units, scan, Level(units, scan, id, k - 1))
  }

  lemma {:induction false} ChildrenAre(units: Units, scan: seq<Id>, d: Id)
    requires Distinct(scan)
    ensures Distinct(Children(units, scan, d))
    ensures forall x :: x in Children(units, scan, d) <==> x in scan && x in units && units[x].parent == Some(d)
  {
    if scan != [] {
      DistinctTail(scan);
      ChildrenAre(units, scan[1..], d);
      assert scan == [scan[0]] + scan[1..];
    }
  }

  /** Every unit has one parent, so joining distinct rows yields distinct rows. */
  lemma {:induction false} JoinIs(units: Units, scan: seq<Id>, working: seq<Id>)
    requires Distinct(scan) && Distinct(working)
    ensures forall x :: x in Join(units, scan, working) <==>
      x in scan && x in units && units[x].parent.Some? && units[x].parent.value in working
    ensures Distinct(Join(units, scan, working))
  {
    if working != [] {
      DistinctTail(working);
      ChildrenAre(units, scan, working[0]);
      JoinIs(units, scan, working[1..]);
      assert working == [working[0]] + working[1..];
      forall x | x in Children(units, scan, working[0]) ensures x !in Join(units, scan, working[1..]) {
      }
      DistinctConcat(Children(units, scan, working[0]), Join(units, scan, working[1..]));
    }
  }

  lemma {:induction false} DistinctConcat<T>(a: seq<T>, b: seq<T>)
    requires Distinct(a) && Distinct(b) && forall x :: x in a ==> x !in b
    ensures Distinct(a + b)
  {
    forall i, j | 0 <= i < j < |a + b| ensures (a + b)[i] != (a + b)[j] {
      if i < |a| <= j {
        assert (a + b)[i] in a && (a + b)[j] in b;
      }
    }
  }

  lemma {:induction false} LevelIs(units: Units, scan: seq<Id>, id: Id, k: nat)
    requires IsTable(scan, units)
    ensures Distinct(Level(units, scan, id, k))
    ensures forall x :: x in Level(units, scan, id, k) <==> Up(units, x, k) == Some(id)
  {
    if k == 0 {
      assert forall x :: Up(units, x, 0) == Some(id) <==> x == id && id in units;
    } else {
      LevelIs(units, scan, id, k - 1);
      JoinIs(units, scan, Level(units, scan, id, k - 1));
      forall x ensures x in Level(units, scan, id, k) <==> Up(units, x, k) == Some(id) {
        UpFirst(units, x, k);
        if x in units && units[x].parent.Some? {
          UpInTable(units, units[x].parent.value, k - 1);
        }
      }
    }
  }

  /** Climbing k steps is climbing one, then k - 1. */
  lemma {:induction false} UpFirst(units: Units, x: Id, k: nat)
    requires k > 0
    ensures Up(units, x, k) == (match Above(units, x) case None => None case Some(p) => Up(units, p, k - 1))
    ensures Up(units, x, k).Some? ==> x in units && units[x].parent == Above(units, x)
  {
    assert Up(units, x, 1) == (if x in units then Above(units, x) else None);
    if Above(units, x).Some? {
      UpAdds(units, x, Above(units, x).value, 1, k - 1);
    } else if Up(units, x, k).Some? {
      UpDefined(units, x, 1, k);
    }
  }

  /** No row of a later level repeats an earlier one unless the root lies on a cycle. */
  lemma {:induction false} LevelsDisjoint(units: Units, id: Id, x: Id, j: nat, k: nat)
    requires j < k && Up(units, x, j) == Some(id) && Up(units, x, k) == Some(id)
    ensures OnCycle(units, id)
  {
    UpAdds(units, x, id, j, k - j);
    assert Up(units, id, k - j) == Some(id);
  }

  ghost predicate Reached(units: Units, id: Id, x: Id, k: nat) {
    exists j: nat :: j < k && Up(units, x, j) == Some(id)
  }

  lemma {:induction false} ReachedStep(units: Units, id: Id, x: Id, k: nat)
    ensures Reached(units, id, x, k + 1) <==> Reached(units, id, x, k) || Up(units, x, k) == Some(id)
  {
  }

  ghost predicate AtLevel(units: Units, id: Id, working: seq<Id>, k: nat) {
    Distinct(working) && forall x :: x in working <==> Up(units, x, k) == Some(id)
  }

  ghost predicate Collected(units: Units, id: Id, out: seq<Id>, k: nat) {
    Distinct(out) && forall x :: x in out <==> Reached(units, id, x, k)
  }

  function Remaining(units: Units, out: seq<Id>): set<Id> {
    set x | x in units && x !in out
  }

  lemma {:induction false} CollectedStep(units: Units, id: Id, out: seq<Id>, working: seq<Id>, k: nat)
    requires !OnCycle(units, id) && Collected(units, id, out, k) && AtLevel(units, id, working, k)
    ensures Collected(units, id, out + working, k + 1)
    ensures Remaining(units, out + working) <= Remaining(units, out)
    ensures working != [] ==> working[0] in Remaining(units, out) - Remaining(units, out + working)
  {
    forall x | x in working ensures x !in out && x in units {
      UpInTable(units, x, k);
      if x in out {
        var j: nat :| j < k && Up(units, x, j) == Some(id);
        LevelsDisjoint(units, id, x, j, k);
      }
    }
    DistinctConcat(out, working);
    forall x ensures Reached(units, id, x, k + 1) <==> x in out + working {
      ReachedStep(units, id, x, k);
    }
  }

  lemma {:induction false} CollectedAll(units: Units, id: Id, out: seq<Id>, k: nat)
    requires Collected(units, id, out, k) && AtLevel(units, id, [], k)
    ensures forall x :: x in out <==> Below(units, x, id)
  {
    forall x ensures x in out <==> Below(units, x, id) {
      if Below(units, x, id) {
        var n: nat :| Up(units, x, n) == Some(id);
        NothingBeyond(units, x, id, n, k);
        assert Reached(units, id, x, k);
      }
    }
  }

  /** When a level is empty every later one is. */
  lemma {:induction false} NothingBeyond(units: Units, x: Id, id: Id, n: nat, k: nat)
    requires Up(units, x, n) == Some(id)
    ensures n >= k ==> exists y :: Up(units, y, k) == Some(id)
  {
    if n >= k {
      UpDefined(units, x, n - k, n);
      var y := Up(units, x, n - k).value;
      UpAdds(units, x, y, n - k, k);
      assert Up(units, y, k) == Some(id);
    }
  }

  /** Runs the recursion. It ends, and returns the unit and each descendant exactly once, whenever the
      unit does not lie on a cycle; `UnionAllLoops` shows the condition is needed. */
  method FindWithDescendants(units: Units, scan: seq<Id>, id: Id) returns (out: seq<Id>)
    requires IsTable(scan, units) && !OnCycle(units, id)
    ensures Distinct(out)
    ensures forall x :: x in out <==> Below(units, x, id)
  {
    out := [];
    var working := if id in units then [id] else [];
    ghost var k: nat := 0;
    LevelIs(units, scan, id, 0);
    while working != []
      invariant working == Level(units, scan, id, k) && AtLevel(units, id, working, k)
      invariant Collected(units, id, out, k)
      decreases Remaining(units, out)
    {
      CollectedStep(units, id, out, working, k);
      LevelIs(units, scan, id, k + 1);
      out := out + working;
      working := Join(units, scan, working);
      k := k + 1;
    }
    CollectedAll(units, id, out, k);
  }

  /** On a cycle the query never ends: every iteration adds rows. */
  lemma {:induction false} UnionAllLoops(units: Units, scan: seq<Id>, id: Id, k: nat)
    requires IsTable(scan, units) && OnCycle(units, id)
    ensures Level(units, scan, id, k) != []
  {
    var n: nat :| n > 0 && Up(units, id, n) == Some(id);
    var m := CyclePredecessor(units, id, n, k);
    LevelIs(units, scan, id, k);
    assert Up(units, id, m).value in Level(units, scan, id, k);
  }

  lemma {:induction false} CyclePredecessor(units: Units, id: Id, n: nat, k: nat) returns (m: nat)
    requires n > 0 && Up(units, id, n) == Some(id)
    ensures m < n && Up(units, id, m).Some? && Up(units, Up(units, id, m).value, k) == Some(id)
  {
    if k == 0 {
      m := 0;
      UpInTable(units, id, n);
    } else {
      var l := CyclePredecessor(units, id, n, k - 1);
      m := if l == 0 then n - 1 else l - 1;
      UpDefined(units, id, m, n);
      var y := Up(units, id, m).value;
      UpInTable(units, id, n);
      assert Above(units, y) == Up(units, id, m + 1);
      assert Above(units, y) == Up(units, id, l);
      UpInTable(units, id, m);
      UpFirst(units, y, k);
    }
  }

  // ----- unitSearchSQL: two WITH RECURSIVE … UNION -----

  /** One join step of the climbing arm and of the descending arm. */
  function Parents(units: Units, working: set<Id>): set<Id> {
    set a | a in working && Above(units, a).Some? :: Above(units, a).value
  }

  function Offspring(units: Units, working: set<Id>): set<Id> {
    set x | x in units && units[x].parent.Some? && units[x].parent.value in working
  }

  ghost predicate AboveSome(units: Units, matches: set<Id>, x: Id) {
    exists m :: m in matches && Below(units, m, x)
  }

  ghost predicate BelowSome(units: Units, matches: set<Id>, x: Id) {
    exists m :: m in matches && Below(units, x, m)
  }

  predicate ParentIn(units: Units, found: set<Id>, a: Id) {
    Above(units, a).Some? ==> Above(units, a).value in found
  }

  /** Everything found is above a match, and only rows still to be joined may miss their parent. */
  ghost predicate Climbing(units: Units, matches: set<Id>, found: set<Id>, working: set<Id>) {
    && matches <= found <= units.Keys && working <= found
    && (forall x :: x in found ==> AboveSome(units, matches, x))
    && (forall a {:trigger ParentIn(units, found, a)} :: a in found && a !in working ==> ParentIn(units, found, a))
  }

  /** What is left to find shrinks with every round that finds something. */
  lemma {:induction false} FewerLeft(all: set<Id>, found: set<Id>, next: set<Id>)
    requires next <= all && next !! found
    ensures all - (found + next) <= all - found
    ensures next != {} ==> all - (found + next) < all - found
    ensures next == {} ==> found + next == found
  {
    if x :| x in next {
      assert x in all - found && x !in all - (found + next);
    }
  }

  lemma {:induction false} ClimbStart(units: Units, matches: set<Id>)
    requires matches <= units.Keys
    ensures Climbing(units, matches, matches, matches)
  {
    forall x | x in matches ensures AboveSome(units, matches, x) {
      BelowSelf(units, x);
    }
  }

  lemma {:induction false} ClimbStep(units: Units, matches: set<Id>, found: set<Id>, working: set<Id>)
    requires Climbing(units, matches, found, working)
    ensures var next := Parents(units, working) - found; Climbing(units, matches, found + next, next)
  {
    var next := Parents(units, working) - found;
    forall x | x in next ensures AboveSome(units, matches, x) {
      var a :| a in working && Above(units, a) == Some(x);
      OneUp(units, matches, a, x);
    }
    forall a | a in found + next && a !in next ensures ParentIn(units, found + next, a) {
      assert a !in working ==> ParentIn(units, found, a);
    }
  }

  lemma {:induction false} Climbed(units: Units, matches: set<Id>, found: set<Id>)
    requires Climbing(units, matches, found, {})
    ensures forall x :: x in found <==> AboveSome(units, matches, x)
  {
    forall x | AboveSome(units, matches, x) ensures x in found {
      var m :| m in matches && Below(units, m, x);
      var n: nat :| Up(units, m, n) == Some(x);
      ClosedUpwards(units, found, m, n);
    }
  }

  /** The climbing arm. UNION drops rows already there, so it ends on any relation, cyclic or not. */
  method Ancestors(units: Units, matches: set<Id>) returns (found: set<Id>)
    requires matches <= units.Keys
    ensures forall x :: x in found <==> AboveSome(units, matches, x)
  {
    found := matches;
    var working := matches;
    ClimbStart(units, matches);
    while working != {}
      invariant Climbing(units, matches, found, working)
      decreases units.Keys - found, working
    {
      ClimbStep(units, matches, found, working);
      var next := Parents(units, working) - found;
      FewerLeft(units.Keys, found, next);
      found, working := found + next, next;
    }
    Climbed(units, matches, found);
  }

  lemma {:induction false} OneUp(units: Units, matches: set<Id>, a: Id, x: Id)
    requires AboveSome(units, matches, a) && a in units && Above(units, a) == Some(x)
    ensures AboveSome(units, matches, x)
  {
    var m :| m in matches && Below(units, m, a);
    assert Up(units, a, 0) == Some(a);
    assert Up(units, a, 1) == Some(x);
    BelowTrans(units, m, a, x);
  }

  lemma {:induction false} ClosedUpwards(units: Units, found: set<Id>, m: Id, n: nat)
    requires m in found && Up(units, m, n).Some?
    requires forall a {:trigger ParentIn(units, found, a)} :: a in found ==> ParentIn(units, found, a)
    ensures Up(units, m, n).value in found
  {
    if n > 0 {
      UpDefined(units, m, n - 1, n);
      ClosedUpwards(units, found, m, n - 1);
      assert ParentIn(units, found, Up(units, m, n - 1).value);
    }
  }

  ghost predicate Descending(units: Units, matches: set<Id>, found: set<Id>, working: set<Id>) {
    && matches <= found <= units.Keys && working <= found
    && (forall x :: x in found ==> BelowSome(units, matches, x))
    && (forall x :: x in units && Above(units, x).Some? && Above(units, x).value in found - working ==> x in found)
  }

  lemma {:induction false} DescendStart(units: Units, matches: set<Id>)
    requires matches <= units.Keys
    ensures Descending(units, matches, matches, matches)
  {
    forall x | x in matches ensures BelowSome(units, matches, x) {
      BelowSelf(units, x);
    }
  }

  lemma {:induction false} DescendStep(units: Units, matches: set<Id>, found: set<Id>, working: set<Id>)
    requires Descending(units, matches, found, working)
    ensures var next := Offspring(units, working) - found; Descending(units, matches, found + next, next)
  {
    var next := Offspring(units, working) - found;
    forall x | x in next ensures BelowSome(units, matches, x) {
      OneDown(units, matches, units[x].parent.value, x);
    }
  }

  lemma {:induction false} Descended(units: Units, matches: set<Id>, found: set<Id>)
    requires Descending(units, matches, found, {})
    ensures forall x :: x in found <==> BelowSome(units, matches, x)
  {
    forall x | BelowSome(units, matches, x) ensures x in found {
      var m :| m in matches && Below(units, x, m);
      var n: nat :| Up(units, x, n) == Some(m);
      ClosedDownwards(units, found, x, m, n);
    }
  }

  /** The descending arm. */
  method Descendants(units: Units, matches: set<Id>) returns (found: set<Id>)
    requires matches <= units.Keys
    ensures forall x :: x in found <==> BelowSome(units, matches, x)
  {
    found := matches;
    var working := matches;
    DescendStart(units, matches);
    while working != {}
      invariant Descending(units, matches, found, working)
      decreases units.Keys - found, working
    {
      DescendStep(units, matches, found, working);
      var next := Offspring(units, working) - found;
      FewerLeft(units.Keys, found, next);
      found, working := found + next, next;
    }
    Descended(units, matches, found);
  }

  lemma {:induction false} OneDown(units: Units, matches: set<Id>, a: Id, x: Id)
    requires BelowSome(units, matches, a) && x in units && units[x].parent == Some(a) && a in units
    ensures BelowSome(units, matches, x)
  {
    var m :| m in matches && Below(units, a, m);
    assert Up(units, x, 0) == Some(x);
    assert Up(units, x, 1) == Some(a);
    BelowTrans(units, x, a, m);
  }

  lemma {:induction false} ClosedDownwards(units: Units, found: set<Id>, x: Id, m: Id, n: nat)
    requires m in found && Up(units, x, n) == Some(m)
    requires forall y :: y in units && Above(units, y).Some? && Above(units, y).value in found ==> y in found
    ensures x in found
    decreases n
  {
    if n > 0 {
      UpFirst(units, x, n);
      ClosedDownwards(units, found, Above(units, x).value, m, n - 1);
    }
  }

  /** The search returns exactly the matches, what is above them and what is below them, whatever the
      relation; and with every unit its parent, so no child is shown as a root. */
  method Search(units: Units, matches: set<Id>) returns (found: set<Id>)
    requires matches <= units.Keys
    ensures forall x :: x in found <==> AboveSome(units, matches, x) || BelowSome(units, matches, x)
    ensures matches <= found <= units.Keys
    ensures forall x :: x in found && Above(units, x).Some? ==> Above(units, x).value in found
  {
    var up := Ancestors(units, matches);
    var down := Descendants(units, matches);
    found := set x | x in units && (x in up || x in down);
    forall x ensures x in found <==> AboveSome(units, matches, x) || BelowSome(units, matches, x) {
      if AboveSome(units, matches, x) || BelowSome(units, matches, x) {
        FoundInTable(units, matches, x);
      }
    }
    forall x | x in found && Above(units, x).Some? ensures Above(units, x).value in found {
      ParentShown(units, matches, x, Above(units, x).value);
    }
    forall m | m in matches ensures m in found {
      BelowSelf(units, m);
      assert AboveSome(units, matches, m);
    }
  }

  lemma {:induction false} FoundInTable(units: Units, matches: set<Id>, x: Id)
    requires AboveSome(units, matches, x) || BelowSome(units, matches, x)
    ensures x in units
  {
    if AboveSome(units, matches, x) {
      var m :| m in matches && Below(units, m, x);
      var n: nat :| Up(units, m, n) == Some(x);
      UpInTable(units, m, n);
    } else {
      var m :| m in matches && Below(units, x, m);
      var n: nat :| Up(units, x, n) == Some(m);
      UpInTable(units, x, n);
    }
  }

  lemma {:induction false} ParentShown(units: Units, matches: set<Id>, x: Id, p: Id)
    requires x in units && Above(units, x) == Some(p)
    requires AboveSome(units, matches, x) || BelowSome(units, matches, x)
    ensures AboveSome(units, matches, p) || BelowSome(units, matches, p)
  {
    if AboveSome(units, matches, x) {
      OneUp(units, matches, x, p);
    } else {
      var m :| m in matches && Below(units, x, m);
      var n: nat :| Up(units, x, n) == Some(m);
      if n == 0 {
        BelowSelf(units, x);
        assert AboveSome(units, matches, x);
        OneUp(units, matches, x, p);
      } else {
        UpFirst(units, x, n);
        assert Below(units, p, m);
      }
    }
  }
}
