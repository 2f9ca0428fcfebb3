/** Keyset pagination of notifications: one page, and the walk that follows the next cursor. */
module Feed {
  import opened Base
  import opened Cursor

  datatype Row = Row(id: Id, user: Id, credential: Id, createdAt: Time, readAt: Option<Time>)

  // ----- The order of the listing -----

  /** ORDER BY created_at DESC, id DESC. */
  predicate Precedes(a: Row, b: Row) {
    a.createdAt > b.createdAt || (a.createdAt == b.createdAt && Less(b.id, a.id))
  }

  /** The keyset predicate: (created_at < ?) OR (created_at = ? AND id < ?). */
  predicate Beyond(r: Row, p: Position) {
    r.createdAt < p.at || (r.createdAt == p.at && Less(r.id, p.id))
  }

  function PositionOf(r: Row): Position {
    Position(r.createdAt, r.id)
  }

  ghost predicate Ordered(rows: seq<Row>) {
    forall i, j :: 0 <= i < j < |rows| ==> Precedes(rows[i], rows[j])
  }

  /** Rows of one table: the id is the key. */
  ghost predicate KeyedById(rows: seq<Row>) {
    forall i, j :: 0 <= i < j < |rows| ==> rows[i].id != rows[j].id
  }

  lemma {:induction false} PrecedesIsStrict(a: Row, b: Row)
    ensures !(Precedes(a, b) && Precedes(b, a)) && !Precedes(a, a)
    ensures a.id != b.id ==> Precedes(a, b) || Precedes(b, a)
  {
    LessTrichotomy(a.id, b.id);
    LessIrreflexive(a.id);
  }

  lemma {:induction false} PrecedesTrans(a: Row, b: Row, c: Row)
    requires Precedes(a, b) && Precedes(b, c)
    ensures Precedes(a, c)
  {
    if a.createdAt == b.createdAt == c.createdAt {
      LessTransitive(c.id, b.id, a.id);
    }
  }

  // ----- The query -----

  predicate Wanted(r: Row, user: Id, unread: bool, after: Option<Position>) {
    && r.user == user && (unread ==> r.readAt == None)
    && (after.Some? ==> Beyond(r, after.value))
  }

  function Filter(rows: seq<Row>, user: Id, unread: bool, after: Option<Position>): seq<Row> {
    if rows == [] then []
    else if Wanted(rows[0], user, unread, after) then [rows[0]] + Filter(rows[1..], user, unread, after)
    else Filter(rows[1..], user, unread, after)
  }

  function Insert(r: Row, sorted: seq<Row>): seq<Row> {
    if sorted == [] || Precedes(r, sorted[0]) then [r] + sorted else [sorted[0]] + Insert(r, sorted[1..])
  }

  function Sort(rows: seq<Row>): seq<Row> {
    if rows == [] then [] else Insert(rows[0], Sort(rows[1..]))
  }

  /** Every row the query selects, in listing order. */
  function Listing(rows: seq<Row>, user: Id, unread: bool, after: Option<Position>): seq<Row> {
    Sort(Filter(rows, user, unread, after))
  }

  lemma {:induction false} FilterIs(rows: seq<Row>, user: Id, unread: bool, after: Option<Position>)
    ensures forall r :: r in Filter(rows, user, unread, after) <==> r in rows && Wanted(r, user, unread, after)
    ensures KeyedById(rows) ==> KeyedById(Filter(rows, user, unread, after))
  {
    if rows != [] {
      FilterIs(rows[1..], user, unread, after);
      assert rows == [rows[0]] + rows[1..];
      var rest := Filter(rows[1..], user, unread, after);
      if KeyedById(rows) {
        forall r | r in rest ensures r.id != rows[0].id {
          var i :| 0 <= i < |rows[1..]| && rows[1..][i] == r;
          assert rows[i + 1] == r;
        }
      }
    }
  }

  lemma {:induction false} InsertIs(r: Row, sorted: seq<Row>)
    requires Ordered(sorted) && forall x :: x in sorted ==> x.id != r.id
    ensures Ordered(Insert(r, sorted))
    ensures forall x :: x in Insert(r, sorted) <==> x == r || x in sorted
  {
    if sorted != [] {
      assert sorted == [sorted[0]] + sorted[1..];
      PrecedesIsStrict(r, sorted[0]);
      if Precedes(r, sorted[0]) {
        forall i | 0 < i < |sorted| ensures Precedes(r, sorted[i]) {
          PrecedesTrans(r, sorted[0], sorted[i]);
        }
      } else {
        InsertIs(r, sorted[1..]);
        forall x | x in Insert(r, sorted[1..]) ensures Precedes(sorted[0], x) {
        }
      }
    }
  }

  lemma {:induction false} SortIs(rows: seq<Row>)
    requires KeyedById(rows)
    ensures Ordered(Sort(rows)) && forall x :: x in Sort(rows) <==> x in rows
  {
    if rows != [] {
      SortIs(rows[1..]);
      assert rows == [rows[0]] + rows[1..];
      forall x | x in Sort(rows[1..]) ensures x.id != rows[0].id {
        var i :| 0 <= i < |rows[1..]| && rows[1..][i] == x;
        assert rows[i + 1] == x;
      }
      InsertIs(rows[0], Sort(rows[1..]));
    }
  }

  lemma {:induction false} ListingIs(rows: seq<Row>, user: Id, unread: bool, after: Option<Position>)
    requires KeyedById(rows)
    ensures Ordered(Listing(rows, user, unread, after))
    ensures forall r :: r in Listing(rows, user, unread, after) <==> r in rows && Wanted(r, user, unread, after)
  {
    FilterIs(rows, user, unread, after);
    SortIs(Filter(rows, user, unread, after));
  }

  lemma {:induction false} HeadIsMember(s: seq<Row>)
    ensures s != [] ==> s[0] in s
  {
  }

  lemma {:induction false} FirstPrecedes(s: seq<Row>, r: Row)
    requires Ordered(s) && r in s
    ensures r == s[0] || Precedes(s[0], r)
  {
    var i :| 0 <= i < |s| && s[i] == r;
  }

  /** The listing is determined by its rows: storage order is invisible. */
  lemma {:induction false} OrderedUnique(a: seq<Row>, b: seq<Row>)
    requires Ordered(a) && Ordered(b) && forall r :: r in a <==> r in b
    ensures a == b
  {
    HeadIsMember(a);
    HeadIsMember(b);
    if a != [] && b != [] {
      FirstPrecedes(a, b[0]);
      FirstPrecedes(b, a[0]);
      PrecedesIsStrict(a[0], b[0]);
      TailMembers(a);
      TailMembers(b);
      OrderedUnique(a[1..], b[1..]);
      assert a == [a[0]] + a[1..] && b == [b[0]] + b[1..];
    }
  }

  lemma {:induction false} TailMembers(a: seq<Row>)
    requires Ordered(a) && a != []
    ensures Ordered(a[1..]) && forall r :: r in a[1..] <==> r in a && r != a[0]
  {
    assert a == [a[0]] + a[1..];
    PrecedesIsStrict(a[0], a[0]);
  }

  /** The positions of the rows that count towards the total: the user's, unread if only those are wanted,
      wherever the cursor is. */
  ghost function Matching(rows: seq<Row>, user: Id, unread: bool): set<int> {
    set i | 0 <= i < |rows| && rows[i].user == user && (unread ==> rows[i].readAt == None)
  }

  lemma {:induction false} MatchingSnoc(rows: seq<Row>, user: Id, unread: bool, n: nat)
    requires |rows| == n + 1
    ensures Matching(rows, user, unread)
         == Matching(rows[..n], user, unread)
            + (if rows[n].user == user && (unread ==> rows[n].readAt == None) then {n} else {})
    ensures n !in Matching(rows[..n], user, unread)
  {
    assert forall i :: 0 <= i < n ==> rows[..n][i] == rows[i];
  }

  lemma {:induction false} FilterCounts(rows: seq<Row>, user: Id, unread: bool)
    ensures |Filter(rows, user, unread, None)| == |Matching(rows, user, unread)|
  {
    if rows == [] {
      assert Matching(rows, user, unread) == {};
    } else {
      var n := |rows| - 1;
      FilterCounts(rows[..n], user, unread);
      FilterSnoc(rows, user, unread);
      MatchingSnoc(rows, user, unread, n);
    }
  }

  lemma {:induction false} FilterSnoc(rows: seq<Row>, user: Id, unread: bool)
    requires rows != []
    ensures var n := |rows| - 1;
      Filter(rows, user, unread, None)
      == Filter(rows[..n], user, unread, None) + (if Wanted(rows[n], user, unread, None) then [rows[n]] else [])
  {
    var n := |rows| - 1;
    if n > 0 {
      FilterSnoc(rows[1..], user, unread);
      assert rows[1..][..n - 1] == rows[..n][1..];
    }
  }

  // ----- One page -----

  datatype Page = Page(items: seq<Row>, total: nat, next: Option<string>)

  datatype ListResult = Listed(page: Page) | BadStatus | BadLimit | BadCursor

  /** The zone in which the process reads timestamps. */
  type Zone = Time -> Stamp

  predicate AllUlids(rows: seq<Row>) {
    forall i :: 0 <= i < |rows| ==> IsUlid(rows[i].id)
  }

  /** Where a cursor starts the page. Nothing for the empty cursor, and nothing for one whose time is
      Go's zero time: List then leaves the keyset predicate out. */
  function Start(cursor: string): Option<Position>
    requires cursor == "" || ReadCursor(cursor).Some?
  {
    if cursor == "" || ReadCursor(cursor).value.at == ZERO_INSTANT then None else ReadCursor(cursor)
  }

  function NextCursor(full: seq<Row>, limit: nat, zone: Zone): Option<string>
    requires AllUlids(full) && limit > 0
  {
    if |full| > limit then
      UlidPlain(full[limit - 1].id);
      Some(PrintCursor(zone(full[limit - 1].createdAt), full[limit - 1].id))
    else None
  }

  lemma {:induction false} ListingUlids(rows: seq<Row>, user: Id, unread: bool, after: Option<Position>)
    requires KeyedById(rows) && AllUlids(rows)
    ensures AllUlids(Listing(rows, user, unread, after))
  {
    ListingIs(rows, user, unread, after);
    var full := Listing(rows, user, unread, after);
    forall i | 0 <= i < |full| ensures IsUlid(full[i].id) {
      assert full[i] in full;
      var j :| 0 <= j < |rows| && rows[j] == full[i];
    }
  }

  ghost function PageAt(rows: seq<Row>, user: Id, unread: bool, limit: nat, after: Option<Position>, zone: Zone): Page
    requires KeyedById(rows) && AllUlids(rows) && limit > 0
  {
    var full := Listing(rows, user, unread, after);
    ListingUlids(rows, user, unread, after);
    Page(if |full| > limit then full[..limit] else full, |Filter(rows, user, unread, None)|,
         NextCursor(full, limit, zone))
  }

  /** The statement with LIMIT: at most `n` rows of the listing. */
  function Query(rows: seq<Row>, user: Id, unread: bool, after: Option<Position>, n: nat): seq<Row> {
    var full := Listing(rows, user, unread, after);
    if |full| > n then full[..n] else full
  }

  /** List: the checks in their order, one row more than asked for, and a cursor from the last row kept. */
  method List(rows: seq<Row>, user: Id, status: string, limit: int, cursor: string, zone: Zone) returns (r: ListResult)
    requires KeyedById(rows) && AllUlids(rows)
    ensures r == BadStatus <==> status != "" && status != "all" && status != "unread"
    ensures r == BadLimit <==> r != BadStatus && limit != 0 && !(1 <= limit <= 100)
    ensures r == BadCursor <==> r != BadStatus && r != BadLimit && cursor != "" && ReadCursor(cursor) == None
    ensures r.Listed? ==> r.page.total == |Matching(rows, user, status == "unread")|
    ensures r.Listed? ==>
      r.page == PageAt(rows, user, status == "unread", if limit == 0 then 20 else limit, Start(cursor), zone)
  {
    var wanted := if status == "" then "all" else status;
    if wanted != "all" && wanted != "unread" {
      return BadStatus;
    }
    var size := if limit == 0 then 20 else limit;
    if size < 1 || size > 100 {
      return BadLimit;
    }
    var after: Option<Position> := None;
    if cursor != "" {
      var position := ReadCursor(cursor);
      if position == None {
        return BadCursor;
      }
      if position.value.at != ZERO_INSTANT {
        after := position;
      }
    }
    var page := Cut(rows, user, wanted == "unread", size, after, zone);
    FilterCounts(rows, user, wanted == "unread");
    return Listed(page);
  }

  /** Fetches one row more than the page holds; the extra row only says that there is a next page. */
  method Cut(rows: seq<Row>, user: Id, unread: bool, size: nat, after: Option<Position>, zone: Zone)
    returns (page: Page)
    requires KeyedById(rows) && AllUlids(rows) && size > 0
    ensures page == PageAt(rows, user, unread, size, after, zone)
  {
    ListingUlids(rows, user, unread, after);
    ghost var full := Listing(rows, user, unread, after);
    FirstOf(full, size);
    var found := Query(rows, user, unread, after, size + 1);
    var next: Option<string> := None;
    if |found| > size {
      var last := found[size - 1];
      UlidPlain(last.id);
      next := Some(PrintCursor(zone(last.createdAt), last.id));
      found := found[..size];
    }
    return Page(found, |Filter(rows, user, unread, None)|, next);
  }

  /** One row more than a page tells whether there is a next one, and the page can be cut from it. */
  lemma {:induction false} FirstOf(full: seq<Row>, size: nat)
    requires size > 0
    ensures var found := if |full| > size + 1 then full[..size + 1] else full;
      && (|found| > size <==> |full| > size)
      && (if |found| > size then found[..size] == full[..size] && found[size - 1] == full[size - 1] else found == full)
  {
  }

  // ----- The walk -----

  /** The zone prints every row's time so that it can be read back, and no row sits at the zero time. */
  ghost predicate ZoneFits(rows: seq<Row>, zone: Zone) {
    forall i :: 0 <= i < |rows| ==> FitsRow(rows[i], zone)
  }

  predicate FitsRow(r: Row, zone: Zone) {
    var t := zone(r.createdAt);
    Printable(t) && InstantOf(t) == r.createdAt && t.offset % 60 == 0 && r.createdAt != ZERO_INSTANT
  }

  /** The next cursor starts right after the row it was made from. */
  lemma {:induction false} CursorContinues(last: Row, zone: Zone)
    requires FitsRow(last, zone) && IsUlid(last.id)
    ensures Plain(last.id) && PrintCursor(zone(last.createdAt), last.id) != ""
    ensures ReadCursor(PrintCursor(zone(last.createdAt), last.id)) == Some(PositionOf(last))
    ensures Start(PrintCursor(zone(last.createdAt), last.id)) == Some(PositionOf(last))
  {
    CursorReadsBack(zone(last.createdAt), last.id);
    EmptyIsNoCursor();
  }

  lemma {:induction false} EmptyIsNoCursor()
    ensures ReadCursor("") == None
  {
    assert Decode("") == Some("");
  }

  /** A cursor made from a row at the zero time sends the walk back to its beginning. */
  lemma {:induction false} ZeroTimeRestarts(last: Row, zone: Zone)
    requires IsUlid(last.id) && last.createdAt == ZERO_INSTANT
    requires Printable(zone(last.createdAt)) && InstantOf(zone(last.createdAt)) == last.createdAt
    requires zone(last.createdAt).offset % 60 == 0
    ensures Plain(last.id) && ReadCursor(PrintCursor(zone(last.createdAt), last.id)).Some?
    ensures Start(PrintCursor(zone(last.createdAt), last.id)) == Start("") == None
  {
    CursorReadsBack(zone(last.createdAt), last.id);
  }

  /** What may happen to the table while a reader is between two pages: rows are inserted, none of
      them behind the last row shown. */
  ghost predicate Grows(rows: seq<Row>, rows': seq<Row>, last: Row) {
    && (forall r :: r in rows ==> r in rows')
    && (forall r :: r in rows' && r !in rows ==> !Beyond(r, PositionOf(last)))
  }

  /** Dropping the page shown from a listing is the listing behind its last row, newer rows or not. */
  lemma {:induction false} RestIsNextListing(rows: seq<Row>, rows': seq<Row>, user: Id, unread: bool,
                                             after: Option<Position>, limit: nat)
    requires KeyedById(rows) && KeyedById(rows') && 0 < limit < |Listing(rows, user, unread, after)|
    requires Grows(rows, rows', Listing(rows, user, unread, after)[limit - 1])
    ensures var full := Listing(rows, user, unread, after);
      Listing(rows', user, unread, Some(PositionOf(full[limit - 1]))) == full[limit..]
  {
    var full := Listing(rows, user, unread, after);
    var last := full[limit - 1];
    ListingIs(rows, user, unread, after);
    ListingIs(rows', user, unread, Some(PositionOf(last)));
    var rest := Listing(rows', user, unread, Some(PositionOf(last)));
    assert last in full;
    forall r ensures r in rest <==> r in full[limit..] {
      RestMember(full, limit, r);
      if r in rest && r in rows && after.Some? {
        BeyondTrans(r, last, after.value);
      }
    }
    OrderedUnique(rest, full[limit..]);
  }

  lemma {:induction false} BeyondTrans(r: Row, last: Row, p: Position)
    requires Beyond(r, PositionOf(last)) && Beyond(last, p)
    ensures Beyond(r, p)
  {
    if r.createdAt == last.createdAt == p.at {
      LessTransitive(r.id, last.id, p.id);
    }
  }

  /** Behind the last row shown, in an ordered list, is the rest of the list. */
  lemma {:induction false} RestMember(full: seq<Row>, limit: nat, r: Row)
    requires Ordered(full) && 0 < limit <= |full|
    ensures r in full[limit..] <==> r in full && Beyond(r, PositionOf(full[limit - 1]))
  {
    var last := full[limit - 1];
    if r in full {
      var i :| 0 <= i < |full| && full[i] == r;
      if i < limit {
        PrecedesIsStrict(r, last);
        assert i < limit - 1 ==> Precedes(r, last);
      } else {
        assert Precedes(last, r);
        assert full[limit..][i - limit] == r;
      }
      if r in full[limit..] {
        var j :| 0 <= j < |full[limit..]| && full[limit..][j] == r;
        assert Precedes(last, full[limit + j]);
      }
    }
  }

  /** A table that pages can be read from. */
  ghost predicate Readable(rows: seq<Row>, zone: Zone) {
    KeyedById(rows) && AllUlids(rows) && ZoneFits(rows, zone)
  }

  /** One page after another, each asked for with the cursor the last one gave, over a growing table. */
  ghost predicate IsWalk(tables: seq<seq<Row>>, pages: seq<Page>, user: Id, unread: bool, limit: nat, zone: Zone)
    requires limit > 0
  {
    && |tables| == |pages| && pages != []
    && (forall i :: 0 <= i < |tables| ==> Readable(tables[i], zone))
    && pages[0] == PageAt(tables[0], user, unread, limit, None, zone)
    && (forall i :: 0 < i < |pages| ==> FollowsAt(tables, pages, i, user, unread, limit, zone))
  }

  ghost predicate FollowsAt(tables: seq<seq<Row>>, pages: seq<Page>, i: nat, user: Id, unread: bool, limit: nat,
                            zone: Zone)
    requires limit > 0 && 0 < i < |pages| == |tables| && Readable(tables[i], zone)
  {
    Follows(tables[i - 1], tables[i], pages[i - 1], pages[i], user, unread, limit, zone)
  }

  ghost predicate Follows(rows: seq<Row>, rows': seq<Row>, page: Page, page': Page, user: Id, unread: bool, limit: nat,
                          zone: Zone)
    requires limit > 0 && KeyedById(rows') && AllUlids(rows')
  {
    && page.next.Some? && (page.next.value == "" || ReadCursor(page.next.value).Some?)
    && page.items != [] && Grows(rows, rows', page.items[|page.items| - 1])
    && page' == PageAt(rows', user, unread, limit, Start(page.next.value), zone)
  }

  function Shown(pages: seq<Page>): seq<Row> {
    if pages == [] then [] else Shown(pages[..|pages| - 1]) + pages[|pages| - 1].items
  }

  /** The rows shown so far and the listing this page is cut from make up the first listing. */
  ghost predicate Underway(first: seq<Row>, rows: seq<Row>, page: Page, shown: seq<Row>, user: Id, unread: bool,
                           limit: nat,
                           after: Option<Position>, zone: Zone)
    requires limit > 0 && KeyedById(rows) && AllUlids(rows)
  {
    && page == PageAt(rows, user, unread, limit, after, zone)
    && shown + Listing(rows, user, unread, after) == Listing(first, user, unread, None)
  }

  lemma {:induction false} UnderwayStep(first: seq<Row>, rows: seq<Row>, rows': seq<Row>, page: Page, page': Page,
                                        shown: seq<Row>,
                                        user: Id, unread: bool, limit: nat, before: Option<Position>, zone: Zone)
    returns (after: Option<Position>)
    requires limit > 0 && Readable(rows, zone) && Readable(rows', zone)
    requires Underway(first, rows, page, shown, user, unread, limit, before, zone)
    requires Follows(rows, rows', page, page', user, unread, limit, zone)
    ensures Underway(first, rows', page', shown + page.items, user, unread, limit, after, zone) && |page.items| == limit
  {
    after := WalkStep(rows, rows', page, page', user, unread, limit, before, zone);
    Assoc(shown, page.items, Listing(rows', user, unread, after));
  }

  lemma {:induction false} ShownSnoc(pages: seq<Page>, n: nat)
    requires n < |pages|
    ensures Shown(pages[..n + 1]) == Shown(pages[..n]) + pages[n].items
  {
    assert pages[..n + 1][..n] == pages[..n];
  }

  lemma {:induction false} WalkStarts(tables: seq<seq<Row>>, pages: seq<Page>, user: Id, unread: bool, limit: nat,
                                      zone: Zone)
    requires limit > 0 && IsWalk(tables, pages, user, unread, limit, zone)
    ensures Readable(tables[0], zone)
    ensures Underway(tables[0], tables[0], pages[0], Shown(pages[..0]), user, unread, limit, None, zone)
  {
    assert pages[..0] == [];
    assert [] + Listing(tables[0], user, unread, None) == Listing(tables[0], user, unread, None);
  }

  lemma {:induction false} WalkFollows(tables: seq<seq<Row>>, pages: seq<Page>, user: Id, unread: bool, limit: nat,
                                       zone: Zone, n: nat)
    requires limit > 0 && IsWalk(tables, pages, user, unread, limit, zone) && 0 < n < |pages|
    ensures Readable(tables[n - 1], zone) && Readable(tables[n], zone)
    ensures Follows(tables[n - 1], tables[n], pages[n - 1], pages[n], user, unread, limit, zone)
  {
    assert FollowsAt(tables, pages, n, user, unread, limit, zone);
  }

  lemma {:induction false} WalkInvariant(tables: seq<seq<Row>>, pages: seq<Page>, user: Id, unread: bool, limit: nat,
                                         zone: Zone, n: nat)
    returns (after: Option<Position>)
    requires limit > 0 && IsWalk(tables, pages, user, unread, limit, zone) && n < |pages|
    ensures Readable(tables[n], zone)
    ensures Underway(tables[0], tables[n], pages[n], Shown(pages[..n]), user, unread, limit, after, zone)
    ensures |Shown(pages[..n])| == n * limit
    decreases n
  {
    if n == 0 {
      after := None;
      WalkStarts(tables, pages, user, unread, limit, zone);
    } else {
      var before := WalkInvariant(tables, pages, user, unread, limit, zone, n - 1);
      WalkFollows(tables, pages, user, unread, limit, zone, n);
      after := UnderwayStep(tables[0], tables[n - 1], tables[n], pages[n - 1], pages[n], Shown(pages[..n - 1]),
                            user, unread, limit, before, zone);
      ShownSnoc(pages, n - 1);
      MoreShown(Shown(pages[..n - 1]), pages[n - 1].items, n, limit);
    }
  }

  lemma {:induction false} MoreShown(shown: seq<Row>, items: seq<Row>, n: nat, limit: nat)
    requires n > 0 && |shown| == (n - 1) * limit && |items| == limit
    ensures |shown + items| == n * limit
  {
    assert (n - 1) * limit + limit == n * limit;
  }

  /** Every row of a listing can be printed into a cursor that starts right behind it. */
  lemma {:induction false} ListedContinues(rows: seq<Row>, user: Id, unread: bool, after: Option<Position>, zone: Zone,
                                           last: Row)
    requires Readable(rows, zone) && last in Listing(rows, user, unread, after)
    ensures IsUlid(last.id) && Plain(last.id)
    ensures ReadCursor(PrintCursor(zone(last.createdAt), last.id)).Some?
    ensures Start(PrintCursor(zone(last.createdAt), last.id)) == Some(PositionOf(last))
  {
    ListingIs(rows, user, unread, after);
    var j :| 0 <= j < |rows| && rows[j] == last;
    assert FitsRow(rows[j], zone) && IsUlid(rows[j].id);
    CursorContinues(last, zone);
  }

  lemma {:induction false} CutAt(full: seq<Row>, n: nat)
    requires 0 < n < |full|
    ensures full == full[..n] + full[n..] && full[n - 1] in full
    ensures |full[..n]| == n && full[..n][|full[..n]| - 1] == full[n - 1]
  {
  }

  /** A page with a next cursor is the first `limit` rows of a longer listing. */
  lemma {:induction false} PageWithNext(rows: seq<Row>, page: Page, user: Id, unread: bool, limit: nat,
                                        before: Option<Position>,
                                        zone: Zone)
    requires limit > 0 && KeyedById(rows) && AllUlids(rows) && page.next.Some?
    requires page == PageAt(rows, user, unread, limit, before, zone)
    ensures var full := Listing(rows, user, unread, before);
      && limit < |full| && page.items == full[..limit] && full == page.items + full[limit..] && |page.items| == limit
      && page.items[|page.items| - 1] == full[limit - 1] && full[limit - 1] in full
  {
    CutAt(Listing(rows, user, unread, before), limit);
  }

  /** The cursor of such a page starts right behind its last row. */
  lemma {:induction false} NextContinues(rows: seq<Row>, page: Page, user: Id, unread: bool, limit: nat,
                                         before: Option<Position>,
                                         zone: Zone, last: Row)
    requires limit > 0 && Readable(rows, zone) && page.next.Some? && limit < |Listing(rows, user, unread, before)|
    requires page == PageAt(rows, user, unread, limit, before, zone)
    requires last == Listing(rows, user, unread, before)[limit - 1]
    ensures ReadCursor(page.next.value).Some? && Start(page.next.value) == Some(PositionOf(last))
  {
    ListingUlids(rows, user, unread, before);
    ListedContinues(rows, user, unread, before, zone, last);
  }

  lemma {:induction false} WalkStep(rows: seq<Row>, rows': seq<Row>, page: Page, page': Page, user: Id, unread: bool,
                                    limit: nat,
                                    before: Option<Position>, zone: Zone) returns (after: Option<Position>)
    requires limit > 0 && Readable(rows, zone) && KeyedById(rows') && AllUlids(rows')
    requires page == PageAt(rows, user, unread, limit, before, zone)
    requires Follows(rows, rows', page, page', user, unread, limit, zone)
    ensures page' == PageAt(rows', user, unread, limit, after, zone) && |page.items| == limit
    ensures page.items + Listing(rows', user, unread, after) == Listing(rows, user, unread, before)
  {
    PageWithNext(rows, page, user, unread, limit, before, zone);
    var last := Listing(rows, user, unread, before)[limit - 1];
    NextContinues(rows, page, user, unread, limit, before, zone, last);
    after := Some(PositionOf(last));
    RestIsNextListing(rows, rows', user, unread, before, limit);
  }

  /** A walk that has ended has shown every row that was there when it began, each exactly once and in
      strict order, whatever was inserted ahead of it meanwhile. */
  lemma {:induction false} WalkIsExact(tables: seq<seq<Row>>, pages: seq<Page>, user: Id, unread: bool, limit: nat,
                                       zone: Zone)
    requires limit > 0 && IsWalk(tables, pages, user, unread, limit, zone)
    requires pages[|pages| - 1].next == None
    ensures Shown(pages) == Listing(tables[0], user, unread, None)
    ensures Ordered(Shown(pages))
    ensures forall r :: r in Shown(pages) <==> r in tables[0] && r.user == user && (unread ==> r.readAt == None)
  {
    var n := |pages| - 1;
    var after := WalkInvariant(tables, pages, user, unread, limit, zone, n);
    ListingIs(tables[0], user, unread, None);
    ShownSnoc(pages, n);
    assert pages[..n + 1] == pages;
    assert pages[n].items == Listing(tables[n], user, unread, after);
  }

  /** It ends: a walk that may go on has at least one row more to show than it has shown, and shows
      `limit` rows a page. */
  lemma {:induction false} WalkEnds(tables: seq<seq<Row>>, pages: seq<Page>, user: Id, unread: bool, limit: nat,
                                    zone: Zone)
    requires limit > 0 && IsWalk(tables, pages, user, unread, limit, zone)
    requires pages[|pages| - 1].next.Some?
    ensures |pages| * limit < |Listing(tables[0], user, unread, None)|
  {
    var n := |pages| - 1;
    var after := WalkInvariant(tables, pages, user, unread, limit, zone, n);
    MoreToShow(tables[0], tables[n], pages[n], Shown(pages[..n]), user, unread, limit, after, zone);
    PagesTimes(n, limit);
  }

  lemma {:induction false} MoreToShow(first: seq<Row>, rows: seq<Row>, page: Page, shown: seq<Row>, user: Id,
                                      unread: bool,
                                      limit: nat, after: Option<Position>, zone: Zone)
    requires limit > 0 && KeyedById(rows) && AllUlids(rows) && page.next.Some?
    requires Underway(first, rows, page, shown, user, unread, limit, after, zone)
    ensures |shown| + limit < |Listing(first, user, unread, None)|
  {
    assert |Listing(rows, user, unread, after)| > limit;
  }

  lemma {:induction false} PagesTimes(n: nat, limit: nat)
    ensures (n + 1) * limit == n * limit + limit
  {
  }
}
