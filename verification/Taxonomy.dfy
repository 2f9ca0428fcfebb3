/** The competency catalogue: names that stay distinct after trimming and case folding, and a review
    that happens once. Credential types and issuer organizations follow the same rules. */
module Taxonomy {
  import opened Base
  import opened Names

  // ----- Rows -----

  datatype Review = Pending | Approved | Rejected

  datatype Competency = Competency(name: string, active: bool, submitter: Option<Id>, approver: Option<Id>,
                                   activatedAt: Option<Time>, rejecter: Option<Id>, rejectedAt: Option<Time>,
                                   reason: Option<string>)

  type Rows = map<Id, Competency>

  function ReviewOf(c: Competency): Review {
    if c.rejectedAt.Some? then Rejected else if c.activatedAt.Some? then Approved else Pending
  }

  /** A rejection decides whatever else is stamped, then an approval. */
  lemma {:induction false} ReviewIs(c: Competency)
    ensures ReviewOf(c) == Rejected <==> c.rejectedAt.Some?
    ensures ReviewOf(c) == Approved <==> c.rejectedAt == None && c.activatedAt.Some?
    ensures ReviewOf(c) == Pending <==> c.rejectedAt == None && c.activatedAt == None
  {
  }

  /** One record of the repository's Update: nil means skip, `active` is always written. */
  datatype Patch = Patch(name: string, active: bool, approver: Option<Id>, activatedAt: Option<Time>,
                         rejecter: Option<Id>, rejectedAt: Option<Time>, reason: Option<string>)

  function ApplyPatch(c: Competency, p: Patch): Competency {
    Competency(if p.name != "" then p.name else c.name, p.active, c.submitter, p.approver.Or(c.approver),
               p.activatedAt.Or(c.activatedAt), p.rejecter.Or(c.rejecter), p.rejectedAt.Or(c.rejectedAt),
               p.reason.Or(c.reason))
  }

  /** An unrejected row whose folded name is the trimmed, folded name asked for: FindByNames. */
  predicate Matches(rows: Rows, id: Id, name: string) {
    id in rows && rows[id].rejectedAt == None && Trim(name) != "" && Fold(rows[id].name) == Fold(Trim(name))
  }

  /** `found` is what FindByNames may return. */
  ghost predicate IsMatch(found: seq<Id>, rows: Rows, name: string) {
    Distinct(found) && forall id :: id in found <==> Matches(rows, id, name)
  }

  // ----- Operations -----

  datatype TaxonomyError = Blank | AlreadyPending | NameDuplicate | AlreadyApproved | AlreadyRejected | NotFound | InUse
    | Storage

  /** Two unrejected names that fold to the same, which the partial unique index refuses. */
  ghost predicate NamesDistinct(rows: Rows) {
    forall a, b :: a in rows && b in rows && a != b && rows[a].rejectedAt == None && rows[b].rejectedAt == None ==>
      Fold(rows[a].name) != Fold(rows[b].name)
  }

  ghost predicate NamesTrimmed(rows: Rows) {
    forall id :: id in rows ==> Trim(rows[id].name) == rows[id].name && rows[id].name != ""
  }

  /** No row is both approved and rejected. */
  ghost predicate ReviewedOnce(rows: Rows) {
    forall id :: id in rows ==> rows[id].activatedAt == None || rows[id].rejectedAt == None
  }

  ghost predicate Good(rows: Rows) {
    NamesDistinct(rows) && NamesTrimmed(rows) && ReviewedOnce(rows)
  }

  /** A reviewed row keeps its review. */
  predicate SameReview(c: Competency, c': Competency) {
    && c'.activatedAt == c.activatedAt && c'.approver == c.approver
    && c'.rejectedAt == c.rejectedAt && c'.rejecter == c.rejecter && c'.reason == c.reason
  }

  ghost predicate ReviewsStay(rows: Rows, rows': Rows) {
    forall id :: id in rows && id in rows' && ReviewOf(rows[id]) != Pending ==> SameReview(rows[id], rows'[id])
  }

  function Stored(name: string, active: bool, creator: Option<Id>, now: Time): Competency {
    Competency(Trim(name), active, creator, creator, Some(now), None, None, None)
  }

  function Proposed(name: string, submitter: Id): Competency {
    Competency(Trim(name), false, Some(submitter), None, None, None, None, None)
  }

  // ----- What each operation does to the rows -----

  /** No unrejected row has the name, and it is not blank. */
  predicate NameFree(rows: Rows, name: string) {
    Trim(name) != "" && forall x | x in rows :: !Matches(rows, x, name)
  }

  predicate IsPending(rows: Rows, id: Id) {
    id in rows && ReviewOf(rows[id]) == Pending
  }

  function Approval(reviewer: Id, now: Time): Patch {
    Patch("", true, Some(reviewer), Some(now), None, None, None)
  }

  function Rejection(reviewer: Id, now: Time, reason: string): Patch {
    Patch("", false, None, None, Some(reviewer), Some(now), Some(Trim(reason)))
  }

  function RenamedRow(c: Competency, name: Option<string>, active: Option<bool>): Competency {
    c.(name := if name.Some? && Trim(name.value) != "" then Trim(name.value) else c.name,
       active := active.GetOr(c.active))
  }

  predicate MayRename(rows: Rows, id: Id, name: Option<string>) {
    id in rows && forall x | x in rows :: x != id ==> !Matches(rows, x, name.GetOr(""))
  }

  predicate Unreferenced(ids: seq<Id>, referenced: set<Id>) {
    forall i :: 0 <= i < |ids| ==> ids[i] !in referenced
  }

  function Without(rows: Rows, ids: seq<Id>): Rows {
    map x | x in rows && x !in ids :: rows[x]
  }

  datatype TaxonomyAction =
    | DoStore(id: Id, name: string, active: Option<bool>, creator: Option<Id>, now: Time)
    | DoSubmit(id: Id, name: string, submitter: Id)
    | DoApprove(id: Id, reviewer: Id, now: Time, dbFails: bool)
    | DoReject(id: Id, reviewer: Id, reason: string, now: Time, dbFails: bool)
    | DoUpdate(id: Id, newName: Option<string>, active: Option<bool>, dbFails: bool)
    | DoDestroy(ids: seq<Id>, referenced: set<Id>)

  /** The requests that are accepted. */
  predicate Accepts(rows: Rows, a: TaxonomyAction) {
    match a
    case DoStore(_, name, _, _, _) => NameFree(rows, name)
    case DoSubmit(_, name, _) => NameFree(rows, name)
    case DoApprove(id, _, _, dbFails) => IsPending(rows, id) && !dbFails
    case DoReject(id, _, reason, _, dbFails) => Trim(reason) != "" && IsPending(rows, id) && !dbFails
    case DoUpdate(id, name, _, dbFails) => MayRename(rows, id, name) && !dbFails
    case DoDestroy(ids, referenced) => Unreferenced(ids, referenced)
  }

  function Accepted(rows: Rows, a: TaxonomyAction): Rows
    requires Accepts(rows, a)
  {
    match a
    case DoStore(id, name, active, creator, now) => rows[id := Stored(name, active.GetOr(true), creator, now)]
    case DoSubmit(id, name, submitter) => rows[id := Proposed(name, submitter)]
    case DoApprove(id, reviewer, now, _) => rows[id := ApplyPatch(rows[id], Approval(reviewer, now))]
    case DoReject(id, reviewer, reason, now, _) => rows[id := ApplyPatch(rows[id], Rejection(reviewer, now, reason))]
    case DoUpdate(id, name, active, _) => rows[id := RenamedRow(rows[id], name, active)]
    case DoDestroy(ids, _) => Without(rows, ids)
  }

  function Do(rows: Rows, a: TaxonomyAction): Rows {
    if Accepts(rows, a) then Accepted(rows, a) else rows
  }

  lemma {:induction false} AddedKeeps(rows: Rows, id: Id, c: Competency, name: string)
    requires Good(rows) && id !in rows && c.name == Trim(name) && Trim(name) != ""
    requires c.activatedAt == None || c.rejectedAt == None
    requires forall x :: !Matches(rows, x, name)
    ensures Good(rows[id := c]) && ReviewsStay(rows, rows[id := c])
  {
    TrimIdempotent(name);
    var rows' := rows[id := c];
    forall a, b | a in rows' && b in rows' && a != b && rows'[a].rejectedAt == None && rows'[b].rejectedAt == None
      ensures Fold(rows'[a].name) != Fold(rows'[b].name)
    {
      assert !Matches(rows, a, name) && !Matches(rows, b, name);
    }
  }

  lemma {:induction false} RenamedKeeps(rows: Rows, id: Id, name: Option<string>, active: Option<bool>)
    requires Good(rows) && MayRename(rows, id, name)
    ensures var rows' := rows[id := RenamedRow(rows[id], name, active)];
      Good(rows') && ReviewsStay(rows, rows')
  {
    TrimIdempotent(name.GetOr(""));
    var rows' := rows[id := RenamedRow(rows[id], name, active)];
    forall a, b | a in rows' && b in rows' && a != b && rows'[a].rejectedAt == None && rows'[b].rejectedAt == None
      ensures Fold(rows'[a].name) != Fold(rows'[b].name)
    {
      assert a != id ==> !Matches(rows, a, name.GetOr(""));
      assert b != id ==> !Matches(rows, b, name.GetOr(""));
    }
  }

  /** Every operation keeps unrejected names apart, and the reviews that were given. */
  lemma {:induction false} DoKeeps(rows: Rows, a: TaxonomyAction)
    requires Good(rows) && (a.DoStore? || a.DoSubmit? ==> a.id !in rows)
    ensures Good(Do(rows, a)) && ReviewsStay(rows, Do(rows, a))
  {
    if Accepts(rows, a) {
      match a
      case DoStore(id, name, active, creator, now) =>
        AddedKeeps(rows, id, Stored(name, active.GetOr(true), creator, now), name);
      case DoSubmit(id, name, submitter) => AddedKeeps(rows, id, Proposed(name, submitter), name);
      case DoUpdate(id, name, active, _) => RenamedKeeps(rows, id, name, active);
      case _ =>
    }
  }

  // ----- What an accepted operation leaves -----

  /** A new row: its trimmed name, and either approved at once by its creator or proposed and inactive. */
  predicate NewRow(c: Competency, a: TaxonomyAction)
    requires Creates(a)
  {
    && c.name == Trim(a.name) && c.rejecter == None && c.rejectedAt == None && c.reason == None
    && match a
       case DoStore(_, _, active, creator, now) =>
         && ReviewOf(c) == Approved && c.activatedAt == Some(now) && c.approver == creator && c.submitter == creator
         && c.active == (active == None || active.value)
       case DoSubmit(_, _, submitter) =>
         && ReviewOf(c) == Pending && c.activatedAt == None && c.approver == None
         && c.submitter == Some(submitter) && !c.active
       case _ => false
  }

  /** A reviewed row: switched on or off, stamped by its reviewer now, its name and submitter as they were. */
  predicate ReviewedRow(c: Competency, c': Competency, a: TaxonomyAction) {
    && c'.name == c.name && c'.submitter == c.submitter
    && match a
       case DoApprove(_, reviewer, now, _) =>
         && c'.active && c'.activatedAt == Some(now) && c'.approver == Some(reviewer)
         && c'.rejectedAt == c.rejectedAt && c'.rejecter == c.rejecter && c'.reason == c.reason
       case DoReject(_, reviewer, reason, now, _) =>
         && !c'.active && c'.rejectedAt == Some(now) && c'.rejecter == Some(reviewer) && c'.reason == Some(Trim(reason))
         && c'.activatedAt == c.activatedAt && c'.approver == c.approver
       case _ => false
  }

  /** A renamed or switched row: the trimmed name unless it is blank, the switch if given, nothing else. */
  predicate ChangedRow(c: Competency, c': Competency, name: Option<string>, active: Option<bool>) {
    && c'.name == (if name.Some? && Trim(name.value) != "" then Trim(name.value) else c.name)
    && c'.active == (if active.Some? then active.value else c.active)
    && c' == c.(name := c'.name, active := c'.active)
  }

  /** What is accepted, in terms of the rows: a name no unrejected row has in any case, a row that awaits
      review, a rename to a name no other unrejected row has, rows nothing refers to. */
  lemma {:induction false} AcceptsExactly(rows: Rows, a: TaxonomyAction)
    ensures Accepts(rows, a) <==>
      match a
      case DoStore(_, name, _, _, _) => Trim(name) != "" && forall x :: x in rows ==> !Clashes(rows[x], name)
      case DoSubmit(_, name, _) => Trim(name) != "" && forall x :: x in rows ==> !Clashes(rows[x], name)
      case DoApprove(id, _, _, dbFails) =>
        id in rows && rows[id].activatedAt == None && rows[id].rejectedAt == None && !dbFails
      case DoReject(id, _, reason, _, dbFails) =>
        Trim(reason) != "" && id in rows && rows[id].activatedAt == None && rows[id].rejectedAt == None && !dbFails
      case DoUpdate(id, name, _, dbFails) =>
        && id in rows && !dbFails
        && (name.Some? && Trim(name.value) != "" ==> forall x :: x in rows && x != id ==> !Clashes(rows[x], name.value))
      case DoDestroy(ids, referenced) => forall id :: id in ids ==> id !in referenced
  {
    assert Trim("") == "";
  }

  /** The row is not rejected and has the name, but for case and surrounding space. */
  predicate Clashes(c: Competency, name: string) {
    c.rejectedAt == None && Fold(c.name) == Fold(Trim(name))
  }

  /** What an accepted operation changes: the row it is about as above, rows it destroys, and no other. */
  lemma {:induction false} AcceptedDoes(rows: Rows, a: TaxonomyAction)
    requires Accepts(rows, a)
    ensures match a
      case DoStore(id, _, _, _, _) => OneRow(rows, Do(rows, a), id) && NewRow(Do(rows, a)[id], a)
      case DoSubmit(id, _, _) => OneRow(rows, Do(rows, a), id) && NewRow(Do(rows, a)[id], a)
      case DoApprove(id, _, _, _) => OneRow(rows, Do(rows, a), id) && ReviewedRow(rows[id], Do(rows, a)[id], a)
      case DoReject(id, _, _, _, _) => OneRow(rows, Do(rows, a), id) && ReviewedRow(rows[id], Do(rows, a)[id], a)
      case DoUpdate(id, name, active, _) =>
        OneRow(rows, Do(rows, a), id) && ChangedRow(rows[id], Do(rows, a)[id], name, active)
      case DoDestroy(ids, _) =>
        && (forall x :: x in Do(rows, a) <==> x in rows && x !in ids)
        && (forall x :: x in Do(rows, a) ==> Do(rows, a)[x] == rows[x])
  {
  }

  /** Only one row is new or different. */
  ghost predicate OneRow(rows: Rows, rows': Rows, id: Id) {
    rows'.Keys == rows.Keys + {id} && forall x :: x in rows && x != id ==> rows'[x] == rows[x]
  }

  // ----- Runs -----

  /** The rows, and every id that was ever given out. */
  datatype Catalogue = Catalogue(rows: Rows, used: set<Id>)

  predicate Creates(a: TaxonomyAction) {
    a.DoStore? || a.DoSubmit?
  }

  /** Generated ids are new, also to rows that are gone. */
  predicate Enabled(c: Catalogue, a: TaxonomyAction) {
    Creates(a) ==> a.id !in c.used
  }

  function Next(c: Catalogue, a: TaxonomyAction): Catalogue {
    Catalogue(Do(c.rows, a), if Creates(a) then c.used + {a.id} else c.used)
  }

  function Run(c: Catalogue, actions: seq<TaxonomyAction>): Catalogue {
    if actions == [] then c
    else
      var c' := Run(c, actions[..|actions| - 1]);
      var a := actions[|actions| - 1];
      if Enabled(c', a) then Next(c', a) else c'
  }

  ghost predicate Inv(c: Catalogue) {
    Good(c.rows) && c.rows.Keys <= c.used
  }

  lemma {:induction false} NextKeeps(c: Catalogue, a: TaxonomyAction)
    requires Inv(c) && Enabled(c, a)
    ensures Inv(Next(c, a)) && c.used <= Next(c, a).used
  {
    DoKeeps(c.rows, a);
    assert Do(c.rows, a).Keys <= Next(c, a).used;
  }

  /** In every run unrejected names stay distinct after trimming and folding. */
  lemma {:induction false} NamesStayDistinct(c: Catalogue, actions: seq<TaxonomyAction>)
    requires Inv(c)
    ensures Inv(Run(c, actions)) && c.used <= Run(c, actions).used
  {
    if actions != [] {
      var n := |actions| - 1;
      var c1 := Run(c, actions[..n]);
      NamesStayDistinct(c, actions[..n]);
      if Enabled(c1, actions[n]) {
        NextKeeps(c1, actions[n]);
      }
    }
  }

  lemma {:induction false} ReviewSurvives(c: Catalogue, a: TaxonomyAction, id: Id, row: Competency)
    requires Inv(c) && Enabled(c, a) && id in c.used && ReviewOf(row) != Pending
    requires id in c.rows ==> SameReview(row, c.rows[id])
    ensures id in Next(c, a).rows ==> SameReview(row, Next(c, a).rows[id])
  {
    DoKeeps(c.rows, a);
    assert id in Do(c.rows, a) ==> id in c.rows;
  }

  lemma {:induction false} ReviewStays(c: Catalogue, actions: seq<TaxonomyAction>, id: Id)
    requires Inv(c) && id in c.rows && ReviewOf(c.rows[id]) != Pending
    ensures id in Run(c, actions).rows ==> SameReview(c.rows[id], Run(c, actions).rows[id])
  {
    if actions != [] {
      var n := |actions| - 1;
      var c1 := Run(c, actions[..n]);
      ReviewStays(c, actions[..n], id);
      NamesStayDistinct(c, actions[..n]);
      if Enabled(c1, actions[n]) {
        ReviewSurvives(c1, actions[n], id, c.rows[id]);
      }
    }
  }

  /** A review is final: whatever is stored, renamed, reviewed or destroyed later, a row that is still
      there has the review it was given, and neither an approval nor a rejection of it is accepted. */
  lemma {:induction false} ReviewIsFinal(c: Catalogue, actions: seq<TaxonomyAction>, id: Id)
    requires Inv(c) && id in c.rows && ReviewOf(c.rows[id]) != Pending
    ensures id in Run(c, actions).rows ==> SameReview(c.rows[id], Run(c, actions).rows[id])
    ensures forall a: TaxonomyAction :: (a.DoApprove? || a.DoReject?) && a.id == id ==>
      !Accepts(Run(c, actions).rows, a)
  {
    ReviewStays(c, actions, id);
  }

  /** Over a run from an empty catalogue a row is reviewed at most once: an accepted review found it
      pending, and no review of it is accepted afterwards. */
  lemma {:induction false} ReviewedAtMostOnce(actions: seq<TaxonomyAction>, a: TaxonomyAction,
                                              later: seq<TaxonomyAction>, b: TaxonomyAction)
    requires (a.DoApprove? || a.DoReject?) && (b.DoApprove? || b.DoReject?) && a.id == b.id
    requires Accepts(Run(Catalogue(map[], {}), actions).rows, a)
    ensures !Accepts(Run(Next(Run(Catalogue(map[], {}), actions), a), later).rows, b)
  {
    var c := Run(Catalogue(map[], {}), actions);
    NamesStayDistinct(Catalogue(map[], {}), actions);
    DoKeeps(c.rows, a);
    ReviewIsFinal(Next(c, a), later, a.id);
  }

  // ----- The service -----

  class CompetencyService {
    var rows: Rows

    constructor ()
      ensures rows == map[] && Good(rows)
    {
      rows := map[];
    }

    /** Store and Submit refuse a name that an unrejected row has, and say whether it is pending. */
    method NameRefusal(name: string, found: seq<Id>, approved: TaxonomyError) returns (error: Option<TaxonomyError>)
      requires Good(rows) && IsMatch(found, rows, name)
      ensures error == None <==> NameFree(rows, name)
      ensures error.Some? && Trim(name) != "" ==>
        exists id ::
          Matches(rows, id, name) && error == Some(if ReviewOf(rows[id]) == Pending then AlreadyPending else approved)
      ensures Trim(name) == "" ==> error == Some(Blank)
    {
      if Trim(name) == "" {
        return Some(Blank);
      }
      if found != [] {
        assert found[0] in found;
        return Some(if ReviewOf(rows[found[0]]) == Pending then AlreadyPending else approved);
      }
      return None;
    }

    /** Creates an approved row; the new id is fresh. */
    method Store(id: Id, name: string, active: Option<bool>, creator: Option<Id>, found: seq<Id>, now: Time)
      returns (error: Option<TaxonomyError>)
      requires Good(rows) && id !in rows && IsMatch(found, rows, name)
      modifies this
      ensures Good(rows) && ReviewsStay(old(rows), rows)
      ensures var a := DoStore(id, name, active, creator, now);
        rows == Do(old(rows), a) && (error == None <==> Accepts(old(rows), a))
    {
      error := NameRefusal(name, found, NameDuplicate);
      if error.Some? {
        return;
      }
      DoKeeps(rows, DoStore(id, name, active, creator, now));
      rows := rows[id := Stored(name, active.GetOr(true), creator, now)];
    }

    /** Creates a pending, inactive proposal. */
    method Submit(id: Id, name: string, submitter: Id, found: seq<Id>) returns (error: Option<TaxonomyError>)
      requires Good(rows) && id !in rows && IsMatch(found, rows, name)
      modifies this
      ensures Good(rows) && ReviewsStay(old(rows), rows)
      ensures var a := DoSubmit(id, name, submitter);
        rows == Do(old(rows), a) && (error == None <==> Accepts(old(rows), a))
    {
      error := NameRefusal(name, found, AlreadyApproved);
      if error.Some? {
        return;
      }
      DoKeeps(rows, DoSubmit(id, name, submitter));
      rows := rows[id := Proposed(name, submitter)];
    }

    /** The repository's Update of one row; it fails when the database does. */
    method Write(id: Id, p: Patch, dbFails: bool) returns (ok: bool)
      modifies this
      ensures ok == (!dbFails && id in old(rows))
      ensures rows == if ok then old(rows)[id := ApplyPatch(old(rows)[id], p)] else old(rows)
    {
      ok := !dbFails && id in rows;
      if ok {
        rows := rows[id := ApplyPatch(rows[id], p)];
      }
    }

    method Pendingness(id: Id) returns (error: Option<TaxonomyError>)
      ensures error == None <==> id in rows && ReviewOf(rows[id]) == Pending
      ensures error == Some(NotFound) <==> id !in rows
      ensures error == Some(AlreadyApproved) <==> id in rows && ReviewOf(rows[id]) == Approved
    {
      if id !in rows {
        return Some(NotFound);
      }
      match ReviewOf(rows[id])
      case Approved => return Some(AlreadyApproved);
      case Rejected => return Some(AlreadyRejected);
      case Pending => return None;
    }

    method Approve(id: Id, reviewer: Id, now: Time, dbFails: bool) returns (error: Option<TaxonomyError>)
      requires Good(rows)
      modifies this
      ensures Good(rows) && ReviewsStay(old(rows), rows)
      ensures var a := DoApprove(id, reviewer, now, dbFails);
        rows == Do(old(rows), a) && (error == None <==> Accepts(old(rows), a))
      ensures error == None ==> ReviewOf(rows[id]) == Approved && rows[id].active && rows[id].approver == Some(reviewer)
    {
      DoKeeps(rows, DoApprove(id, reviewer, now, dbFails));
      error := Pendingness(id);
      if error.Some? {
        return;
      }
      var ok := Write(id, Approval(reviewer, now), dbFails);
      return if ok then None else Some(Storage);
    }

    method Reject(id: Id, reviewer: Id, reason: string, now: Time, dbFails: bool) returns (error: Option<TaxonomyError>)
      requires Good(rows)
      modifies this
      ensures Good(rows) && ReviewsStay(old(rows), rows)
      ensures var a := DoReject(id, reviewer, reason, now, dbFails);
        rows == Do(old(rows), a) && (error == None <==> Accepts(old(rows), a))
      ensures error == None ==>
        ReviewOf(rows[id]) == Rejected && !rows[id].active && rows[id].reason == Some(Trim(reason))
    {
      DoKeeps(rows, DoReject(id, reviewer, reason, now, dbFails));
      if Trim(reason) == "" {
        return Some(Blank);
      }
      error := Pendingness(id);
      if error.Some? {
        return;
      }
      var ok := Write(id, Rejection(reviewer, now, reason), dbFails);
      return if ok then None else Some(Storage);
    }

    /** Renames and switches; a blank name leaves the name alone. */
    method Update(id: Id, name: Option<string>, active: Option<bool>, found: seq<Id>, dbFails: bool)
      returns (error: Option<TaxonomyError>)
      requires Good(rows) && IsMatch(found, rows, name.GetOr(""))
      modifies this
      ensures Good(rows) && ReviewsStay(old(rows), rows)
      ensures var a := DoUpdate(id, name, active, dbFails);
        rows == Do(old(rows), a) && (error == None <==> Accepts(old(rows), a))
    {
      DoKeeps(rows, DoUpdate(id, name, active, dbFails));
      if id !in rows {
        return Some(NotFound);
      }
      if name.Some? {
        var duplicate := NamesAnother(id, found);
        if duplicate {
          AnotherRefuses(rows, id, name, found);
          return Some(NameDuplicate);
        }
      }
      OnlyItself(rows, id, name, found);
      var target := rows[id];
      var wanted := if name.Some? then Trim(name.value) else target.name;
      var ok := Write(id, Patch(wanted, active.GetOr(target.active), None, None, None, None, None), dbFails);
      return if ok then None else Some(Storage);
    }

    method NamesAnother(id: Id, found: seq<Id>) returns (duplicate: bool)
      ensures duplicate <==> exists k :: 0 <= k < |found| && found[k] != id
    {
      for i := 0 to |found|
        invariant forall k :: 0 <= k < i ==> found[k] == id
      {
        if found[i] != id {
          return true;
        }
      }
      return false;
    }

    /** Rows that no credential refers to may go. */
    method Destroy(ids: seq<Id>, referenced: set<Id>) returns (error: Option<TaxonomyError>)
      requires Good(rows)
      modifies this
      ensures Good(rows) && ReviewsStay(old(rows), rows)
      ensures error == Some(InUse) <==> error.Some?
      ensures var a := DoDestroy(ids, referenced);
        rows == Do(old(rows), a) && (error == None <==> Accepts(old(rows), a))
    {
      DoKeeps(rows, DoDestroy(ids, referenced));
      if exists i :: 0 <= i < |ids| && ids[i] in referenced {
        return Some(InUse);
      }
      rows := Without(rows, ids);
      return None;
    }
  }

  lemma {:induction false} AnotherRefuses(rows: Rows, id: Id, name: Option<string>, found: seq<Id>)
    requires IsMatch(found, rows, name.GetOr("")) && exists k :: 0 <= k < |found| && found[k] != id
    ensures !MayRename(rows, id, name)
  {
    var k :| 0 <= k < |found| && found[k] != id;
    assert found[k] in found;
    assert Matches(rows, found[k], name.GetOr(""));
  }

  lemma {:induction false} OnlyItself(rows: Rows, id: Id, name: Option<string>, found: seq<Id>)
    requires id in rows && IsMatch(found, rows, name.GetOr(""))
    requires name.Some? ==> forall k :: 0 <= k < |found| ==> found[k] == id
    ensures MayRename(rows, id, name)
  {
    forall x | x in rows && x != id ensures !Matches(rows, x, name.GetOr("")) {
      assert x in found <==> Matches(rows, x, name.GetOr(""));
    }
  }
}
