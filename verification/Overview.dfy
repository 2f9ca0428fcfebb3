/** The overview's two ways of counting credentials by state: the dashboard counters and the grouped
    recap, against the derived status and against each other. */
module Overview {
  import opened Base
  import opened Credentials
  import opened Lifecycle
  import opened LifecycleInvariant

  // ----- Counting -----

  function Count<T>(rows: seq<T>, p: T -> bool): nat {
    if rows == [] then 0 else (if p(rows[0]) then 1 else 0) + Count(rows[1..], p)
  }

  lemma {:induction false} CountSnoc<T>(rows: seq<T>, p: T -> bool)
    requires rows != []
    ensures var n := |rows| - 1;
      Count(rows, p) == Count(rows[..n], p) + (if p(rows[n]) then 1 else 0)
  {
    var n := |rows| - 1;
    if n > 0 {
      CountSnoc(rows[1..], p);
      assert rows[1..][..n - 1] == rows[..n][1..];
    }
  }

  /** How many positions satisfy the predicate. */
  lemma {:induction false} CountIsCardinality<T>(rows: seq<T>, p: T -> bool)
    ensures Count(rows, p) == |set i | 0 <= i < |rows| && p(rows[i])|
  {
    var all := set i | 0 <= i < |rows| && p(rows[i]);
    if rows == [] {
      assert all == {};
    } else {
      var n := |rows| - 1;
      CountSnoc(rows, p);
      CountIsCardinality(rows[..n], p);
      var front := set i | 0 <= i < |rows[..n]| && p(rows[..n][i]);
      assert all == front + (if p(rows[n]) then {n} else {});
    }
  }

  // ----- CredentialCounts: five independent predicates -----

  /** SQL's comparison with a missing value is never true. */
  predicate ExpiresBy(c: Credential, now: Time) {
    c.expiresAt.Some? && c.expiresAt.value <= now
  }

  predicate ExpiresAfter(c: Credential, now: Time) {
    c.expiresAt.Some? && c.expiresAt.value > now
  }

  predicate CountsActive(c: Credential, now: Time) {
    c.revokedAt == None && c.rejectedAt == None && c.activatedAt.Some? && (c.expiresAt == None || ExpiresAfter(c, now))
  }

  predicate CountsPendingReview(c: Credential) {
    c.activatedAt == None && c.rejectedAt == None
  }

  predicate CountsRejected(c: Credential) {
    c.rejectedAt.Some?
  }

  predicate CountsExpired(c: Credential, now: Time) {
    c.activatedAt.Some? && c.revokedAt == None && ExpiresBy(c, now)
  }

  predicate CountsRevoked(c: Credential) {
    c.revokedAt.Some?
  }

  function One(b: bool): nat {
    if b then 1 else 0
  }

  /** In how many of the five counters a row appears. */
  function Appearances(c: Credential, now: Time): nat {
    One(CountsActive(c, now)) + One(CountsPendingReview(c)) + One(CountsRejected(c)) + One(CountsExpired(c, now))
    + One(CountsRevoked(c))
  }

  /** The condition under which the counters are a partition. */
  predicate Separated(c: Credential, now: Time) {
    && (c.rejectedAt.Some? ==> c.revokedAt == None && !(c.activatedAt.Some? && Lapsed(c, now)))
    && (c.rejectedAt == None && c.activatedAt == None ==> c.revokedAt == None)
  }

  /** A row is counted exactly once if and only if its stamps are as the lifecycle leaves them. */
  lemma {:induction false} CountedOnceExactly(c: Credential, now: Time)
    ensures Appearances(c, now) == 1 <==> Separated(c, now)
  {
  }

  /** Without the lifecycle's help a row may be counted twice: whatever else it says, one that is both
      rejected and revoked is claimed by two counters, and the lifecycle leaves no such row. */
  lemma {:induction false} TwiceWithoutLifecycle(c: Credential, now: Time)
    requires c.rejectedAt.Some? && c.revokedAt.Some?
    ensures CountsRejected(c) && CountsRevoked(c) && Appearances(c, now) >= 2 && !Separated(c, now)
  {
  }

  datatype Counts = Counts(total: nat, active: nat, pendingReview: nat, rejected: nat, expired: nat, revoked: nat)

  /** The rows of the date range, of one holder or of all. */
  predicate InRange(c: Credential, from: Time, to: Time, holder: Option<Id>) {
    from <= c.issuedAt <= to && (holder.Some? ==> c.holder == holder.value)
  }

  datatype Counter = InTotal | InActive | InPendingReview | InRejected | InExpired | InRevoked

  predicate Counted(k: Counter, c: Credential, now: Time) {
    match k
    case InTotal => true
    case InActive => CountsActive(c, now)
    case InPendingReview => CountsPendingReview(c)
    case InRejected => CountsRejected(c)
    case InExpired => CountsExpired(c, now)
    case InRevoked => CountsRevoked(c)
  }

  function Ranged(k: Counter, now: Time, from: Time, to: Time, holder: Option<Id>): Credential -> bool {
    (c: Credential) => InRange(c, from, to, holder) && Counted(k, c, now)
  }

  function CredentialCounts(rows: seq<Credential>, now: Time, from: Time, to: Time, holder: Option<Id>): Counts {
    Counts(Count(rows, Ranged(InTotal, now, from, to, holder)),
           Count(rows, Ranged(InActive, now, from, to, holder)),
           Count(rows, Ranged(InPendingReview, now, from, to, holder)),
           Count(rows, Ranged(InRejected, now, from, to, holder)),
           Count(rows, Ranged(InExpired, now, from, to, holder)),
           Count(rows, Ranged(InRevoked, now, from, to, holder)))
  }

  lemma {:induction false} FiveSum(rows: seq<Credential>, all: Credential -> bool, a: Credential -> bool,
                                   b: Credential -> bool,
                                   c: Credential -> bool, d: Credential -> bool, e: Credential -> bool)
    requires forall i :: 0 <= i < |rows| ==>
      One(all(rows[i])) == One(a(rows[i])) + One(b(rows[i])) + One(c(rows[i])) + One(d(rows[i])) + One(e(rows[i]))
    ensures Count(rows, all) == Count(rows, a) + Count(rows, b) + Count(rows, c) + Count(rows, d) + Count(rows, e)
  {
    if rows != [] {
      forall i | 0 <= i < |rows[1..]|
        ensures One(all(rows[1..][i]))
           == One(a(rows[1..][i])) + One(b(rows[1..][i])) + One(c(rows[1..][i])) + One(d(rows[1..][i]))
              + One(e(rows[1..][i]))
      {
        assert rows[1..][i] == rows[i + 1];
      }
      FiveSum(rows[1..], all, a, b, c, d, e);
      assert One(all(rows[0]))
          == One(a(rows[0])) + One(b(rows[0])) + One(c(rows[0])) + One(d(rows[0])) + One(e(rows[0]));
    }
  }

  /** For any table whose rows are separated, the counters add up to the total, in any range. */
  lemma {:induction false} CountsPartition(rows: seq<Credential>, now: Time, from: Time, to: Time, holder: Option<Id>)
    requires forall i :: 0 <= i < |rows| ==> Separated(rows[i], now)
    ensures var n := CredentialCounts(rows, now, from, to, holder);
      n.total == n.active + n.pendingReview + n.rejected + n.expired + n.revoked
  {
    forall i | 0 <= i < |rows| ensures Appearances(rows[i], now) == 1 {
      CountedOnceExactly(rows[i], now);
    }
    FiveSum(rows, Ranged(InTotal, now, from, to, holder), Ranged(InActive, now, from, to, holder),
            Ranged(InPendingReview, now, from, to, holder), Ranged(InRejected, now, from, to, holder),
            Ranged(InExpired, now, from, to, holder), Ranged(InRevoked, now, from, to, holder));
  }

  /** Every reachable credential table is such a table. */
  lemma {:induction false} ReachableRowsCountOnce(w: World, actions: seq<Action>, id: Id, now: Time)
    requires Initial(w) && id in Run(w, actions).rows
    ensures Reviewable(Run(w, actions).rows[id], now)
  {
    ReachableWorlds(w, actions);
    assert RowOk(Run(w, actions).rows[id]) && RowAllowed(Run(w, actions).rows[id], Run(w, actions).users);
  }

  /** On such a row the counters and the derived status agree, except that a row that expired before it
      was reviewed still counts as awaiting review. */
  lemma {:induction false} CountersAgainstStatus(c: Credential, now: Time)
    requires Reviewable(c, now)
    ensures CountsActive(c, now) <==> StatusOf(c, now) == Approved
    ensures CountsRejected(c) <==> StatusOf(c, now) == Rejected
    ensures CountsRevoked(c) <==> StatusOf(c, now) == Revoked
    ensures CountsPendingReview(c)
       <==> StatusOf(c, now) == Pending || (StatusOf(c, now) == Expired && c.activatedAt == None)
    ensures CountsExpired(c, now) <==> StatusOf(c, now) == Expired && c.activatedAt.Some?
  {
  }

  function InStatus(s: Status, now: Time, from: Time, to: Time, holder: Option<Id>): Credential -> bool {
    (c: Credential) => from <= c.issuedAt <= to && (holder == None || holder == Some(c.holder)) && StatusOf(c, now) == s
  }

  function LapsedUnreviewed(now: Time, from: Time, to: Time, holder: Option<Id>): Credential -> bool {
    (c: Credential) =>
      from <= c.issuedAt <= to && (holder == None || holder == Some(c.holder))
      && StatusOf(c, now) == Expired && c.activatedAt == None
  }

  lemma {:induction false} CountSame(rows: seq<Credential>, p: Credential -> bool, q: Credential -> bool)
    requires forall i :: 0 <= i < |rows| ==> p(rows[i]) == q(rows[i])
    ensures Count(rows, p) == Count(rows, q)
  {
    if rows != [] {
      assert forall i :: 0 <= i < |rows[1..]| ==> rows[1..][i] == rows[i + 1];
      CountSame(rows[1..], p, q);
    }
  }

  lemma {:induction false} CountBoth(rows: seq<Credential>, all: Credential -> bool, p: Credential -> bool,
                                     q: Credential -> bool)
    requires forall i :: 0 <= i < |rows| ==> One(all(rows[i])) == One(p(rows[i])) + One(q(rows[i]))
    ensures Count(rows, all) == Count(rows, p) + Count(rows, q)
  {
    if rows != [] {
      forall i | 0 <= i < |rows[1..]| ensures One(all(rows[1..][i])) == One(p(rows[1..][i])) + One(q(rows[1..][i])) {
        assert rows[1..][i] == rows[i + 1];
      }
      CountBoth(rows[1..], all, p, q);
      assert One(all(rows[0])) == One(p(rows[0])) + One(q(rows[0]));
    }
  }

  /** Over every run the dashboard adds up, and its counters are the numbers of credentials by derived
      status, except that those that lapsed unreviewed are among the ones awaiting review. */
  lemma {:induction false} DashboardIsExact(w: World, actions: seq<Action>, order: seq<Id>, now: Time, from: Time,
                                            to: Time, holder: Option<Id>)
    requires Initial(w) && forall id :: id in order ==> id in Run(w, actions).rows
    ensures var rows := Fetch(Run(w, actions).rows, order);
      var n := CredentialCounts(rows, now, from, to, holder);
      && n.total == n.active + n.pendingReview + n.rejected + n.expired + n.revoked
      && n.active == Count(rows, InStatus(Approved, now, from, to, holder))
      && n.rejected == Count(rows, InStatus(Rejected, now, from, to, holder))
      && n.revoked == Count(rows, InStatus(Revoked, now, from, to, holder))
      && n.pendingReview == Count(rows, InStatus(Pending, now, from, to, holder))
                            + Count(rows, LapsedUnreviewed(now, from, to, holder))
  {
    var rows := Fetch(Run(w, actions).rows, order);
    forall i | 0 <= i < |rows| ensures Reviewable(rows[i], now) {
      assert order[i] in order;
      ReachableRowsCountOnce(w, actions, order[i], now);
    }
    CountsPartition(rows, now, from, to, holder);
    CountersByStatus(rows, now, from, to, holder);
  }

  predicate Reviewable(c: Credential, now: Time) {
    Separated(c, now) && (c.activatedAt == None || c.rejectedAt == None)
  }

  lemma {:induction false} CountersByStatus(rows: seq<Credential>, now: Time, from: Time, to: Time, holder: Option<Id>)
    requires forall i :: 0 <= i < |rows| ==> Reviewable(rows[i], now)
    ensures var n := CredentialCounts(rows, now, from, to, holder);
      && n.active == Count(rows, InStatus(Approved, now, from, to, holder))
      && n.rejected == Count(rows, InStatus(Rejected, now, from, to, holder))
      && n.revoked == Count(rows, InStatus(Revoked, now, from, to, holder))
      && n.pendingReview == Count(rows, InStatus(Pending, now, from, to, holder))
                            + Count(rows, LapsedUnreviewed(now, from, to, holder))
  {
    forall i | 0 <= i < |rows|
      ensures CountsActive(rows[i], now) <==> StatusOf(rows[i], now) == Approved
      ensures CountsRejected(rows[i]) <==> StatusOf(rows[i], now) == Rejected
      ensures CountsRevoked(rows[i]) <==> StatusOf(rows[i], now) == Revoked
      ensures CountsPendingReview(rows[i]) <==>
        StatusOf(rows[i], now) == Pending || (StatusOf(rows[i], now) == Expired && rows[i].activatedAt == None)
    {
      assert Reviewable(rows[i], now);
      CountersAgainstStatus(rows[i], now);
    }
    CountSame(rows, Ranged(InActive, now, from, to, holder), InStatus(Approved, now, from, to, holder));
    CountSame(rows, Ranged(InRejected, now, from, to, holder), InStatus(Rejected, now, from, to, holder));
    CountSame(rows, Ranged(InRevoked, now, from, to, holder), InStatus(Revoked, now, from, to, holder));
    CountBoth(rows, Ranged(InPendingReview, now, from, to, holder), InStatus(Pending, now, from, to, holder),
              LapsedUnreviewed(now, from, to, holder));
  }

  // ----- CredentialRecap -----

  datatype Holder = Holder(id: Id, unit: Option<Id>, year: Option<int>, isHolder: bool, trashed: bool)

  datatype Group = Group(unit: Option<Id>, year: Option<int>)

  datatype Tally = Tally(total: nat, active: nat, pending: nat, rejected: nat, expired: nat, revoked: nat)

  datatype RecapRow = RecapRow(group: Group, holders: nat, holdersWith: nat, holdersWithout: nat,
                               holdersActive: nat, holdersInactive: nat, credentials: Tally)

  /** The CASE expressions of the recap. */
  predicate RecapBucket(c: Credential, s: Status, asOf: Time) {
    match s
    case Revoked => c.revokedAt.Some?
    case Rejected => c.revokedAt == None && c.rejectedAt.Some?
    case Expired => c.revokedAt == None && c.rejectedAt == None && ExpiresBy(c, asOf)
    case Approved =>
      && c.revokedAt == None && c.rejectedAt == None && (c.expiresAt == None || ExpiresAfter(c, asOf))
      && c.activatedAt.Some?
    case Pending =>
      && c.revokedAt == None && c.rejectedAt == None && (c.expiresAt == None || ExpiresAfter(c, asOf))
      && c.activatedAt == None
  }

  /** Each bucket is one value of the derived status, for every row whatsoever. */
  lemma {:induction false} BucketIsStatus(c: Credential, s: Status, asOf: Time)
    ensures RecapBucket(c, s, asOf) <==> StatusOf(c, asOf) == s
  {
  }

  function OfHolder(holder: Id): Credential -> bool {
    (c: Credential) => c.holder == holder
  }

  function InBucket(holder: Id, s: Status, asOf: Time): Credential -> bool {
    (c: Credential) => c.holder == holder && RecapBucket(c, s, asOf)
  }

  /** GROUP BY holder. */
  function TallyOf(creds: seq<Credential>, holder: Id, asOf: Time): Tally {
    Tally(Count(creds, OfHolder(holder)), Count(creds, InBucket(holder, Approved, asOf)),
          Count(creds, InBucket(holder, Pending, asOf)),
          Count(creds, InBucket(holder, Rejected, asOf)), Count(creds, InBucket(holder, Expired, asOf)),
          Count(creds, InBucket(holder, Revoked, asOf)))
  }

  function AddTally(a: Tally, b: Tally): Tally {
    Tally(a.total + b.total, a.active + b.active, a.pending + b.pending, a.rejected + b.rejected,
          a.expired + b.expired, a.revoked + b.revoked)
  }

  predicate Selected(u: Holder) {
    u.isHolder && !u.trashed
  }

  function GroupOf(u: Holder): Group {
    Group(u.unit, u.year)
  }

  /** One holder more in a group. */
  function AddHolder(r: RecapRow, t: Tally): RecapRow {
    RecapRow(r.group, r.holders + 1, r.holdersWith + One(t.total > 0), r.holdersWithout + One(t.total == 0),
             r.holdersActive + One(t.active > 0), r.holdersInactive + One(t.active == 0), AddTally(t, r.credentials))
  }

  /** The row of one group; the LEFT JOIN keeps holders without credentials. */
  function RowOf(users: seq<Holder>, creds: seq<Credential>, g: Group, asOf: Time): RecapRow {
    if users == [] then RecapRow(g, 0, 0, 0, 0, 0, Tally(0, 0, 0, 0, 0, 0))
    else
      var rest := RowOf(users[1..], creds, g, asOf);
      if !Selected(users[0]) || GroupOf(users[0]) != g then rest
      else
        AddHolder(rest, TallyOf(creds, users[0].id, asOf))
  }

  predicate Adds(t: Tally) {
    t.total == t.active + t.pending + t.rejected + t.expired + t.revoked
  }

  lemma {:induction false} TallyAdds(creds: seq<Credential>, holder: Id, asOf: Time)
    ensures Adds(TallyOf(creds, holder, asOf))
  {
    forall i | 0 <= i < |creds|
      ensures One(OfHolder(holder)(creds[i]))
           == One(InBucket(holder, Approved, asOf)(creds[i])) + One(InBucket(holder, Pending, asOf)(creds[i]))
            + One(InBucket(holder, Rejected, asOf)(creds[i])) + One(InBucket(holder, Expired, asOf)(creds[i]))
            + One(InBucket(holder, Revoked, asOf)(creds[i]))
    {
      OneBucket(creds[i], asOf);
    }
    FiveSum(creds, OfHolder(holder), InBucket(holder, Approved, asOf), InBucket(holder, Pending, asOf),
            InBucket(holder, Rejected, asOf), InBucket(holder, Expired, asOf), InBucket(holder, Revoked, asOf));
  }

  lemma {:induction false} OneBucket(c: Credential, asOf: Time)
    ensures One(RecapBucket(c, Approved, asOf)) + One(RecapBucket(c, Pending, asOf))
          + One(RecapBucket(c, Rejected, asOf)) + One(RecapBucket(c, Expired, asOf))
          + One(RecapBucket(c, Revoked, asOf)) == 1
  {
    forall s: Status ensures RecapBucket(c, s, asOf) <==> StatusOf(c, asOf) == s {
      BucketIsStatus(c, s, asOf);
    }
  }

  /** The buckets add up to the credentials and both splits to the holders. */
  predicate RowSums(r: RecapRow) {
    && Adds(r.credentials)
    && r.holders == r.holdersWith + r.holdersWithout && r.holders == r.holdersActive + r.holdersInactive
  }

  lemma {:induction false} AddHolderSums(r: RecapRow, t: Tally)
    requires RowSums(r) && Adds(t)
    ensures RowSums(AddHolder(r, t))
  {
  }

  lemma {:induction false} RowUnfolds(users: seq<Holder>, creds: seq<Credential>, g: Group, asOf: Time)
    requires users != []
    ensures var rest := RowOf(users[1..], creds, g, asOf);
      || RowOf(users, creds, g, asOf) == rest
      || RowOf(users, creds, g, asOf) == AddHolder(rest, TallyOf(creds, users[0].id, asOf))
  {
  }

  lemma {:induction false} EitherSums(r: RecapRow, rest: RecapRow, t: Tally)
    requires RowSums(rest) && Adds(t) && (r == rest || r == AddHolder(rest, t))
    ensures RowSums(r)
  {
    AddHolderSums(rest, t);
  }

  /** In every group the five buckets add up to the credentials and both splits to the holders. */
  lemma {:induction false} RowAdds(users: seq<Holder>, creds: seq<Credential>, g: Group, asOf: Time, r: RecapRow)
    requires r == RowOf(users, creds, g, asOf)
    ensures RowSums(r)
  {
    if users != [] {
      var rest, t := RowOf(users[1..], creds, g, asOf), TallyOf(creds, users[0].id, asOf);
      RowAdds(users[1..], creds, g, asOf, rest);
      TallyAdds(creds, users[0].id, asOf);
      RowUnfolds(users, creds, g, asOf);
      EitherSums(r, rest, t);
    }
  }

  /** The groups of the result: those of the selected holders, each once. */
  ghost predicate IsGrouping(groups: seq<Group>, users: seq<Holder>) {
    && Distinct(groups)
    && forall g :: g in groups <==> exists i :: 0 <= i < |users| && Selected(users[i]) && GroupOf(users[i]) == g
  }

  function SumHolders(groups: seq<Group>, users: seq<Holder>, creds: seq<Credential>, asOf: Time): nat {
    if groups == [] then 0
    else RowOf(users, creds, groups[0], asOf).holders + SumHolders(groups[1..], users, creds, asOf)
  }

  function SumTallies(groups: seq<Group>, users: seq<Holder>, creds: seq<Credential>, asOf: Time): Tally {
    if groups == [] then Tally(0, 0, 0, 0, 0, 0)
    else AddTally(RowOf(users, creds, groups[0], asOf).credentials, SumTallies(groups[1..], users, creds, asOf))
  }

  function SelectedCount(users: seq<Holder>): nat {
    if users == [] then 0 else One(Selected(users[0])) + SelectedCount(users[1..])
  }

  /** All credentials of the selected holders, holder by holder. */
  function Holdings(users: seq<Holder>, creds: seq<Credential>, asOf: Time): Tally {
    if users == [] then Tally(0, 0, 0, 0, 0, 0)
    else
      var rest := Holdings(users[1..], creds, asOf);
      if Selected(users[0]) then AddTally(TallyOf(creds, users[0].id, asOf), rest) else rest
  }

  // ----- What the numbers of the recap are -----

  /** A live holder, of the unit and year asked for or of any. */
  predicate Member(u: Holder, g: Option<Group>) {
    u.isHolder && !u.trashed && (g.Some? ==> u.unit == g.value.unit && u.year == g.value.year)
  }

  predicate HeldIn(users: seq<Holder>, g: Option<Group>, holder: Id) {
    exists i :: 0 <= i < |users| && users[i].id == holder && Member(users[i], g)
  }

  function Held(users: seq<Holder>, g: Option<Group>): Credential -> bool {
    (c: Credential) => HeldIn(users, g, c.holder)
  }

  function HeldAs(users: seq<Holder>, g: Option<Group>, s: Status, asOf: Time): Credential -> bool {
    (c: Credential) => HeldIn(users, g, c.holder) && StatusOf(c, asOf) == s
  }

  /** The numbers of credentials whose holder is a member, in all and by derived status. */
  predicate TallyCounts(t: Tally, users: seq<Holder>, creds: seq<Credential>, g: Option<Group>, asOf: Time) {
    && t.total == Count(creds, Held(users, g))
    && t.active == Count(creds, HeldAs(users, g, Approved, asOf))
    && t.pending == Count(creds, HeldAs(users, g, Pending, asOf))
    && t.rejected == Count(creds, HeldAs(users, g, Rejected, asOf))
    && t.expired == Count(creds, HeldAs(users, g, Expired, asOf))
    && t.revoked == Count(creds, HeldAs(users, g, Revoked, asOf))
  }

  function HasOne(creds: seq<Credential>, g: Option<Group>, wanted: bool): Holder -> bool {
    (u: Holder) => Member(u, g) && (exists i :: 0 <= i < |creds| && creds[i].holder == u.id) == wanted
  }

  function HasActive(creds: seq<Credential>, g: Option<Group>, asOf: Time, wanted: bool): Holder -> bool {
    (u: Holder) =>
      && Member(u, g)
      && (exists i :: 0 <= i < |creds| && creds[i].holder == u.id && StatusOf(creds[i], asOf) == Approved) == wanted
  }

  function IsMember(g: Option<Group>): Holder -> bool {
    (u: Holder) => Member(u, g)
  }

  /** The numbers of members, of those with and without a credential, and with and without an approved one. */
  predicate HolderCounts(r: RecapRow, users: seq<Holder>, creds: seq<Credential>, g: Option<Group>, asOf: Time) {
    && r.holders == Count(users, IsMember(g))
    && r.holdersWith == Count(users, HasOne(creds, g, true))
    && r.holdersWithout == Count(users, HasOne(creds, g, false))
    && r.holdersActive == Count(users, HasActive(creds, g, asOf, true))
    && r.holdersInactive == Count(users, HasActive(creds, g, asOf, false))
  }

  ghost predicate IdsDistinct(users: seq<Holder>) {
    forall i, j :: 0 <= i < j < |users| ==> users[i].id != users[j].id
  }

  lemma {:induction false} SomeCounted<T>(rows: seq<T>, p: T -> bool)
    ensures Count(rows, p) > 0 <==> exists i :: 0 <= i < |rows| && p(rows[i])
  {
    if rows != [] {
      SomeCounted(rows[1..], p);
      if i :| 0 <= i < |rows| && p(rows[i]) {
        assert i > 0 ==> rows[1..][i - 1] == rows[i];
      }
      if i :| 0 <= i < |rows[1..]| && p(rows[1..][i]) {
        assert rows[i + 1] == rows[1..][i];
      }
    }
  }

  function HolderAs(holder: Id, s: Status, asOf: Time): Credential -> bool {
    (c: Credential) => c.holder == holder && StatusOf(c, asOf) == s
  }

  ghost predicate OneTally(t: Tally, creds: seq<Credential>, holder: Id, asOf: Time) {
    && t.total == Count(creds, OfHolder(holder))
    && (forall s: Status :: Field(t, s) == Count(creds, HolderAs(holder, s, asOf)))
  }

  /** One holder's tally, field by field. */
  lemma {:induction false} TallyIs(creds: seq<Credential>, holder: Id, asOf: Time)
    ensures OneTally(TallyOf(creds, holder, asOf), creds, holder, asOf)
  {
    forall s: Status ensures Count(creds, InBucket(holder, s, asOf)) == Count(creds, HolderAs(holder, s, asOf)) {
      forall i | 0 <= i < |creds| ensures InBucket(holder, s, asOf)(creds[i]) == HolderAs(holder, s, asOf)(creds[i]) {
        BucketIsStatus(creds[i], s, asOf);
      }
      CountSame(creds, InBucket(holder, s, asOf), HolderAs(holder, s, asOf));
    }
  }

  lemma {:induction false} HeldHead(users: seq<Holder>, g: Option<Group>, holder: Id)
    requires users != [] && IdsDistinct(users)
    ensures HeldIn(users, g, holder)
       <==> (holder == users[0].id && Member(users[0], g)) || HeldIn(users[1..], g, holder)
    ensures holder == users[0].id ==> !HeldIn(users[1..], g, holder)
  {
    if i :| 0 <= i < |users| && users[i].id == holder && Member(users[i], g) {
      assert i > 0 ==> users[1..][i - 1] == users[i];
    }
    if i :| 0 <= i < |users[1..]| && users[1..][i].id == holder && Member(users[1..][i], g) {
      assert users[i + 1] == users[1..][i];
    }
  }

  /** One member more in front adds its own credentials. */
  lemma {:induction false} HeldSplits(users: seq<Holder>, creds: seq<Credential>, g: Option<Group>, s: Status,
                                      asOf: Time)
    requires users != [] && IdsDistinct(users)
    ensures Count(creds, HeldAs(users, g, s, asOf))
         == (if Member(users[0], g) then Count(creds, HolderAs(users[0].id, s, asOf)) else 0)
            + Count(creds, HeldAs(users[1..], g, s, asOf))
    ensures Count(creds, Held(users, g))
         == (if Member(users[0], g) then Count(creds, OfHolder(users[0].id)) else 0) + Count(creds, Held(users[1..], g))
  {
    forall i | 0 <= i < |creds|
      ensures HeldIn(users, g, creds[i].holder)
         <==> (creds[i].holder == users[0].id && Member(users[0], g)) || HeldIn(users[1..], g, creds[i].holder)
      ensures creds[i].holder == users[0].id ==> !HeldIn(users[1..], g, creds[i].holder)
    {
      HeldHead(users, g, creds[i].holder);
    }
    if Member(users[0], g) {
      CountBoth(creds, HeldAs(users, g, s, asOf), HolderAs(users[0].id, s, asOf), HeldAs(users[1..], g, s, asOf));
      CountBoth(creds, Held(users, g), OfHolder(users[0].id), Held(users[1..], g));
    } else {
      CountSame(creds, HeldAs(users, g, s, asOf), HeldAs(users[1..], g, s, asOf));
      CountSame(creds, Held(users, g), Held(users[1..], g));
    }
  }

  /** A number of the row, of one holder and of the holders behind it. */
  ghost predicate FieldCounts(t: nat, own: nat, rest: nat, users: seq<Holder>, creds: seq<Credential>, g: Option<Group>,
                              s: Status, asOf: Time)
    requires users != []
  {
    && own == Count(creds, HolderAs(users[0].id, s, asOf)) && rest == Count(creds, HeldAs(users[1..], g, s, asOf))
    && t == if Member(users[0], g) then own + rest else rest
  }

  lemma {:induction false} StatusAdds(users: seq<Holder>, creds: seq<Credential>, g: Option<Group>, s: Status,
                                      asOf: Time,
                                      t: nat, own: nat, rest: nat)
    requires users != [] && IdsDistinct(users) && FieldCounts(t, own, rest, users, creds, g, s, asOf)
    ensures t == Count(creds, HeldAs(users, g, s, asOf))
  {
    HeldSplits(users, creds, g, s, asOf);
  }

  lemma {:induction false} TotalAdds(users: seq<Holder>, creds: seq<Credential>, g: Option<Group>,
                                     t: nat, own: nat, rest: nat)
    requires users != [] && IdsDistinct(users)
    requires own == Count(creds, OfHolder(users[0].id)) && rest == Count(creds, Held(users[1..], g))
    requires t == if Member(users[0], g) then own + rest else rest
    ensures t == Count(creds, Held(users, g))
  {
    HeldSplits(users, creds, g, Approved, 0);
  }

  function Field(t: Tally, s: Status): nat {
    match s
    case Approved => t.active
    case Pending => t.pending
    case Rejected => t.rejected
    case Expired => t.expired
    case Revoked => t.revoked
  }

  lemma {:induction false} TallyStep(t: Tally, own: Tally, rest: Tally, users: seq<Holder>, creds: seq<Credential>,
                                     g: Option<Group>, asOf: Time)
    requires users != [] && IdsDistinct(users) && FieldsCount(rest, users[1..], creds, g, asOf)
    requires OneTally(own, creds, users[0].id, asOf) && t == if Member(users[0], g) then AddTally(own, rest) else rest
    ensures FieldsCount(t, users, creds, g, asOf)
  {
    TotalAdds(users, creds, g, t.total, own.total, rest.total);
    forall s: Status ensures Field(t, s) == Count(creds, HeldAs(users, g, s, asOf)) {
      FieldsAdd(own, rest, s);
      StatusAdds(users, creds, g, s, asOf, Field(t, s), Field(own, s), Field(rest, s));
    }
  }

  lemma {:induction false} FieldsAdd(a: Tally, b: Tally, s: Status)
    ensures Field(AddTally(a, b), s) == Field(a, s) + Field(b, s)
  {
  }

  ghost predicate FieldsCount(t: Tally, users: seq<Holder>, creds: seq<Credential>, g: Option<Group>, asOf: Time) {
    && t.total == Count(creds, Held(users, g))
    && forall s: Status :: Field(t, s) == Count(creds, HeldAs(users, g, s, asOf))
  }

  lemma {:induction false} ByStatus(t: Tally, users: seq<Holder>, creds: seq<Credential>, g: Option<Group>, asOf: Time)
    requires FieldsCount(t, users, creds, g, asOf)
    ensures TallyCounts(t, users, creds, g, asOf)
  {
    assert t.active == Field(t, Approved) && t.pending == Field(t, Pending) && t.rejected == Field(t, Rejected);
    assert t.expired == Field(t, Expired) && t.revoked == Field(t, Revoked);
  }

  lemma {:induction false} NobodyHolds(users: seq<Holder>, creds: seq<Credential>, g: Option<Group>,
                                       p: Credential -> bool)
    requires users == [] && forall c :: p(c) ==> HeldIn(users, g, c.holder)
    ensures Count(creds, p) == 0
  {
    SomeCounted(creds, p);
  }

  lemma {:induction false} EmptyTally(users: seq<Holder>, creds: seq<Credential>, g: Option<Group>, asOf: Time)
    requires users == []
    ensures FieldsCount(NOTHING, users, creds, g, asOf)
  {
    NobodyHolds(users, creds, g, Held(users, g));
    forall s: Status ensures Field(NOTHING, s) == Count(creds, HeldAs(users, g, s, asOf)) {
      NobodyHolds(users, creds, g, HeldAs(users, g, s, asOf));
    }
  }

  lemma {:induction false} HolderStep(r: RecapRow, rest: RecapRow, users: seq<Holder>, creds: seq<Credential>,
                                      g: Option<Group>, asOf: Time, own: Tally)
    requires users != [] && HolderCounts(rest, users[1..], creds, g, asOf)
    requires own.total == Count(creds, OfHolder(users[0].id))
    requires own.active == Count(creds, HolderAs(users[0].id, Approved, asOf))
    requires r == if Member(users[0], g) then AddHolder(rest, own) else rest
    ensures HolderCounts(r, users, creds, g, asOf)
  {
    SomeCounted(creds, OfHolder(users[0].id));
    SomeCounted(creds, HolderAs(users[0].id, Approved, asOf));
  }

  lemma {:induction false} RowFields(users: seq<Holder>, creds: seq<Credential>, g: Group, asOf: Time)
    requires IdsDistinct(users)
    ensures RowOf(users, creds, g, asOf).group == g
    ensures FieldsCount(RowOf(users, creds, g, asOf).credentials, users, creds, Some(g), asOf)
  {
    if users == [] {
      EmptyTally(users, creds, Some(g), asOf);
    } else {
      var rest, own := RowOf(users[1..], creds, g, asOf), TallyOf(creds, users[0].id, asOf);
      RowFields(users[1..], creds, g, asOf);
      RowHeads(users, creds, g, asOf);
      TallyIs(creds, users[0].id, asOf);
      TallyStep(RowOf(users, creds, g, asOf).credentials, own, rest.credentials, users, creds, Some(g), asOf);
    }
  }

  lemma {:induction false} RowHolders(users: seq<Holder>, creds: seq<Credential>, g: Group, asOf: Time)
    ensures HolderCounts(RowOf(users, creds, g, asOf), users, creds, Some(g), asOf)
  {
    if users != [] {
      var rest, own := RowOf(users[1..], creds, g, asOf), TallyOf(creds, users[0].id, asOf);
      RowHolders(users[1..], creds, g, asOf);
      RowHeads(users, creds, g, asOf);
      TallyIs(creds, users[0].id, asOf);
      assert own.active == Field(own, Approved);
      HolderStep(RowOf(users, creds, g, asOf), rest, users, creds, Some(g), asOf, own);
    }
  }

  /** Every number of a group's row is a count: credentials of the group's holders in all and by derived
      status, and holders of the group with and without any, and with and without an approved one. */
  lemma {:induction false} RowIsCounts(users: seq<Holder>, creds: seq<Credential>, g: Group, asOf: Time)
    requires IdsDistinct(users)
    ensures RowOf(users, creds, g, asOf).group == g
    ensures TallyCounts(RowOf(users, creds, g, asOf).credentials, users, creds, Some(g), asOf)
    ensures HolderCounts(RowOf(users, creds, g, asOf), users, creds, Some(g), asOf)
  {
    RowFields(users, creds, g, asOf);
    ByStatus(RowOf(users, creds, g, asOf).credentials, users, creds, Some(g), asOf);
    RowHolders(users, creds, g, asOf);
  }

  lemma {:induction false} RowHeads(users: seq<Holder>, creds: seq<Credential>, g: Group, asOf: Time)
    requires users != []
    ensures var rest, t := RowOf(users[1..], creds, g, asOf), TallyOf(creds, users[0].id, asOf);
      RowOf(users, creds, g, asOf) == (if Member(users[0], Some(g)) then AddHolder(rest, t) else rest)
  {
  }

  /** Over all groups together: the live holders, each once, and their credentials by derived status. */
  lemma {:induction false} RecapTotals(groups: seq<Group>, users: seq<Holder>, creds: seq<Credential>, asOf: Time)
    requires IsGrouping(groups, users) && IdsDistinct(users)
    ensures SumHolders(groups, users, creds, asOf) == Count(users, IsMember(None))
    ensures TallyCounts(SumTallies(groups, users, creds, asOf), users, creds, None, asOf)
  {
    RecapIsExact(groups, users, creds, asOf);
    SelectedAreMembers(users);
    HoldingsAreCounts(users, creds, asOf);
    ByStatus(Holdings(users, creds, asOf), users, creds, None, asOf);
  }

  lemma {:induction false} SelectedAreMembers(users: seq<Holder>)
    ensures SelectedCount(users) == Count(users, IsMember(None))
  {
    if users != [] {
      SelectedAreMembers(users[1..]);
    }
  }

  lemma {:induction false} HoldingsAreCounts(users: seq<Holder>, creds: seq<Credential>, asOf: Time)
    requires IdsDistinct(users)
    ensures FieldsCount(Holdings(users, creds, asOf), users, creds, None, asOf)
  {
    if users == [] {
      EmptyTally(users, creds, None, asOf);
    } else {
      HoldingsAreCounts(users[1..], creds, asOf);
      HoldingsStep(users, creds, asOf, TallyOf(creds, users[0].id, asOf), Holdings(users[1..], creds, asOf));
      TallyIs(creds, users[0].id, asOf);
      TallyStep(Holdings(users, creds, asOf), TallyOf(creds, users[0].id, asOf), Holdings(users[1..], creds, asOf),
                users, creds, None, asOf);
    }
  }

  lemma {:induction false} AddTallyMoves(a: Tally, b: Tally, c: Tally)
    ensures AddTally(AddTally(a, b), c) == AddTally(a, AddTally(b, c))
    ensures AddTally(b, AddTally(a, c)) == AddTally(a, AddTally(b, c))
  {
  }

  lemma {:induction false} AddsAdd(a: Tally, b: Tally)
    requires Adds(a) && Adds(b)
    ensures Adds(AddTally(a, b))
  {
  }

  lemma {:induction false} RowStep(users: seq<Holder>, creds: seq<Credential>, g: Group, asOf: Time)
    requires users != []
    ensures var here := Selected(users[0]) && GroupOf(users[0]) == g;
      var r := RowOf(users[1..], creds, g, asOf);
      && RowOf(users, creds, g, asOf).holders == One(here) + r.holders
      && RowOf(users, creds, g, asOf).credentials
         == if here then AddTally(TallyOf(creds, users[0].id, asOf), r.credentials) else r.credentials
  {
  }

  /** One user more in front adds what is its own to its group and nothing to the others. */
  lemma {:induction false} SumsStep(groups: seq<Group>, users: seq<Holder>, creds: seq<Credential>, asOf: Time)
    requires users != [] && Distinct(groups)
    ensures var here := Selected(users[0]) && GroupOf(users[0]) in groups;
      && SumHolders(groups, users, creds, asOf) == One(here) + SumHolders(groups, users[1..], creds, asOf)
      && SumTallies(groups, users, creds, asOf)
         == (if here then AddTally(TallyOf(creds, users[0].id, asOf), SumTallies(groups, users[1..], creds, asOf))
             else SumTallies(groups, users[1..], creds, asOf))
  {
    if groups != [] {
      DistinctTail(groups);
      SumsStep(groups[1..], users, creds, asOf);
      RowStep(users, creds, groups[0], asOf);
      assert GroupOf(users[0]) in groups <==> GroupOf(users[0]) == groups[0] || GroupOf(users[0]) in groups[1..];
      AddTallyMoves(TallyOf(creds, users[0].id, asOf), RowOf(users[1..], creds, groups[0], asOf).credentials,
                    SumTallies(groups[1..], users[1..], creds, asOf));
    }
  }

  const NOTHING := Tally(0, 0, 0, 0, 0, 0)

  lemma {:induction false} NoUsersNoRow(creds: seq<Credential>, g: Group, asOf: Time, none: seq<Holder>)
    requires none == []
    ensures RowOf(none, creds, g, asOf).holders == 0 && RowOf(none, creds, g, asOf).credentials == NOTHING
  {
  }

  lemma {:induction false} NoUsersNoSums(groups: seq<Group>, creds: seq<Credential>, asOf: Time, none: seq<Holder>)
    requires none == []
    ensures SumHolders(groups, none, creds, asOf) == 0 && SumTallies(groups, none, creds, asOf) == NOTHING
  {
    if groups != [] {
      NoUsersNoRow(creds, groups[0], asOf, none);
      NoUsersNoSums(groups[1..], creds, asOf, none);
    }
  }

  lemma {:induction false} RecapCovers(groups: seq<Group>, users: seq<Holder>, creds: seq<Credential>, asOf: Time)
    requires Distinct(groups) && forall i :: 0 <= i < |users| && Selected(users[i]) ==> GroupOf(users[i]) in groups
    ensures SumHolders(groups, users, creds, asOf) == SelectedCount(users)
    ensures SumTallies(groups, users, creds, asOf) == Holdings(users, creds, asOf)
  {
    if users == [] {
      NoUsersNoSums(groups, creds, asOf, users);
    } else {
      SumsStep(groups, users, creds, asOf);
      assert forall i :: 0 <= i < |users[1..]| ==> users[1..][i] == users[i + 1];
      RecapCovers(groups, users[1..], creds, asOf);
    }
  }

  /** Over the whole recap every live holder is counted in exactly one group, and the buckets of all
      groups together are the credentials of the live holders by derived status. */
  lemma {:induction false} RecapIsExact(groups: seq<Group>, users: seq<Holder>, creds: seq<Credential>, asOf: Time)
    requires IsGrouping(groups, users)
    ensures SumHolders(groups, users, creds, asOf) == SelectedCount(users)
    ensures SumTallies(groups, users, creds, asOf) == Holdings(users, creds, asOf)
    ensures Adds(SumTallies(groups, users, creds, asOf))
  {
    RecapCovers(groups, users, creds, asOf);
    HoldingsAdd(users, creds, asOf, Holdings(users, creds, asOf));
  }

  lemma {:induction false} HoldingsStep(users: seq<Holder>, creds: seq<Credential>, asOf: Time, t: Tally, rest: Tally)
    requires users != [] && t == TallyOf(creds, users[0].id, asOf) && rest == Holdings(users[1..], creds, asOf)
    ensures Holdings(users, creds, asOf) == if Selected(users[0]) then AddTally(t, rest) else rest
  {
  }

  lemma {:induction false} HoldingsAdd(users: seq<Holder>, creds: seq<Credential>, asOf: Time, h: Tally)
    requires h == Holdings(users, creds, asOf)
    ensures Adds(h)
  {
    if users != [] {
      var t, rest := TallyOf(creds, users[0].id, asOf), Holdings(users[1..], creds, asOf);
      HoldingsStep(users, creds, asOf, t, rest);
      TallyAdds(creds, users[0].id, asOf);
      HoldingsAdd(users[1..], creds, asOf, rest);
      AddsAdd(t, rest);
    }
  }
}
