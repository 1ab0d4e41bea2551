/**
  Backup retention: one pass over the verified points, newest first, keeps the newest point of each
  of the newest distinct days, weeks and months.
 */
module Retention {
  import opened Wrappers

  type Id = string

  const DAY := 86_400_000

  datatype Status = Verified | Failed

  /** A recovery point; its creation time counts milliseconds from the epoch, in UTC. */
  datatype Point = Point(id: Id, createdAt: nat, status: Status)

  datatype Policy = Policy(daily: nat, weekly: nat, monthly: nat)

  const MINIMUM := Policy(7, 4, 12)

  /** What a configuration may ask for; a tier that is not given takes its minimum. */
  datatype Request = Request(daily: Option<int>, weekly: Option<int>, monthly: Option<int>)

  function ValidTier(value: Option<int>, minimum: nat, production: bool): Option<nat> {
    var v := value.GetOr(minimum);
    if v < 0 || (production && v < minimum) then None else Some(v)
  }

  function ValidateRetention(r: Request, production: bool): Option<Policy> {
    var daily, weekly, monthly :=
      ValidTier(r.daily, MINIMUM.daily, production), ValidTier(r.weekly, MINIMUM.weekly, production),
        ValidTier(r.monthly, MINIMUM.monthly, production);
    if daily.None? || weekly.None? || monthly.None? then None
       else Some(Policy(daily.value, weekly.value, monthly.value))
  }

  /** What is kept when nothing is asked for, and what may be asked for: in production no less than that. */
  lemma PoliciesExactly(r: Request, production: bool)
    ensures var daily := if r.daily.Some? then r.daily.value else 7;
            var weekly := if r.weekly.Some? then r.weekly.value else 4;
            var monthly := if r.monthly.Some? then r.monthly.value else 12;
            var least := if production then (7, 4, 12) else (0, 0, 0);
            && (ValidateRetention(r, production).Some? <==> daily >= least.0 && weekly >= least.1 && monthly >= least.2)
            && (ValidateRetention(r, production).Some? ==>
                  var policy := ValidateRetention(r, production).value;
                  policy.daily == daily && policy.weekly == weekly && policy.monthly == monthly)
  {
  }

  // ---------------------------------------------------------------- periods

  datatype Tier = Daily | Weekly | Monthly

  predicate Leap(year: nat) {
    year % 4 == 0 && (year % 100 != 0 || year % 400 == 0)
  }

  function MonthLength(month: nat): (n: nat)
    ensures 28 <= n <= 31
  {
    var year, m := 1970 + month / 12, month % 12;
    if m == 1 then (if Leap(year) then 29 else 28)
    else if m == 3 || m == 5 || m == 8 || m == 10 then 30
    else 31
  }

  /** The month, counted from January 1970, of a day counted from the first of the given month. */
  function MonthFrom(month: nat, day: nat): nat
    decreases day
  {
    if day < MonthLength(month) then month else MonthFrom(month + 1, day - MonthLength(month))
  }

  function DayOf(time: nat): nat {
    time / DAY
  }

  /** The Monday on or before a day; the epoch began on a Thursday. */
  function MondayOf(day: nat): int {
    day - (day + 3) % 7
  }

  function Limit(policy: Policy, tier: Tier): nat {
    match tier
    case Daily => policy.daily
    case Weekly => policy.weekly
    case Monthly => policy.monthly
  }

  function PeriodOf(tier: Tier, p: Point): int {
    match tier
    case Daily => DayOf(p.createdAt)
    case Weekly => MondayOf(DayOf(p.createdAt))
    case Monthly => MonthFrom(0, DayOf(p.createdAt))
  }

  lemma {:induction false} MonthsAdvance(month: nat, day: nat, later: nat)
    requires day <= later
    ensures month <= MonthFrom(month, day) <= MonthFrom(month, later)
    decreases later
  {
    if later < MonthLength(month) {
    } else if day < MonthLength(month) {
      MonthsAdvance(month + 1, 0, later - MonthLength(month));
    } else {
      MonthsAdvance(month + 1, day - MonthLength(month), later - MonthLength(month));
    }
  }

  /** Periods never run backwards. */
  lemma PeriodsAdvance(tier: Tier, p: Point, q: Point)
    requires p.createdAt <= q.createdAt
    ensures PeriodOf(tier, p) <= PeriodOf(tier, q)
  {
    assert DayOf(p.createdAt) <= DayOf(q.createdAt);
    MonthsAdvance(0, DayOf(p.createdAt), DayOf(q.createdAt));
  }

  // ---------------------------------------------------------------- the calendar

  /** Days before a month of a common year. */
  function DaysBefore(m: nat): nat
    requires m < 12
  {
    [0, 31, 59, 90, 120, 151, 181, 212, 243, 273, 304, 334][m]
  }

  predicate IsLeapYear(y: nat) {
    (y % 4 == 0 && y % 100 != 0) || y % 400 == 0
  }

  /** The first of January: 365 days for each year since 1970 and a day for each leap year; 477 came before. */
  function YearStart(y: nat): int
    requires y >= 1
  {
    365 * (y - 1970) + ((y - 1) / 4 - (y - 1) / 100 + (y - 1) / 400 - 477)
  }

  /** The first day of a month of the Gregorian calendar, in closed form. */
  function FirstDay(month: nat): int {
    var y, m := 1970 + month / 12, month % 12;
    YearStart(y) + DaysBefore(m) + (if m >= 2 && IsLeapYear(y) then 1 else 0)
  }

  lemma FourthYears(y: nat)
    requires y >= 1
    ensures y / 4 == (y - 1) / 4 + if y % 4 == 0 then 1 else 0
  {
  }

  lemma HundredthYears(y: nat)
    requires y >= 1
    ensures y / 100 == (y - 1) / 100 + if y % 100 == 0 then 1 else 0
    ensures y % 100 == 0 ==> y % 4 == 0
  {
  }

  lemma FourHundredthYears(y: nat)
    requires y >= 1
    ensures y / 400 == (y - 1) / 400 + if y % 400 == 0 then 1 else 0
    ensures y % 400 == 0 ==> y % 100 == 0
  {
  }

  lemma YearsFollow(y: nat)
    requires y >= 1
    ensures YearStart(1970) == 0 && YearStart(y + 1) == YearStart(y) + if IsLeapYear(y) then 366 else 365
  {
    FourthYears(y);
    HundredthYears(y);
    FourHundredthYears(y);
  }

  lemma MonthsFollow(month: nat)
    ensures FirstDay(0) == 0 && FirstDay(month + 1) == FirstDay(month) + MonthLength(month)
  {
    hide FirstDay, YearStart, MonthLength, DaysBefore;
    var n, m := month / 12, month % 12;
    assert month == n * 12 + m;
    FirstDayOf(0, 0);
    FirstDayOf(n, m);
    YearsFollow(1970 + n);
    MonthDays(1970 + n, m);
    if m == 11 {
      FirstDayOf(n + 1, 0);
    } else {
      FirstDayOf(n, m + 1);
    }
  }

  lemma FirstDayOf(n: nat, m: nat)
    requires m < 12
    ensures FirstDay(n * 12 + m) ==
            YearStart(1970 + n) + DaysBefore(m) + if m >= 2 && IsLeapYear(1970 + n) then 1 else 0
  {
    assert (n * 12 + m) / 12 == n && (n * 12 + m) % 12 == m;
    hide YearStart, DaysBefore, IsLeapYear;
  }

  lemma MonthDays(y: nat, m: nat)
    requires y >= 1970 && m < 12
    ensures DaysBefore(0) == 0 && DaysBefore(11) == 334 && MonthLength((y - 1970) * 12 + 11) == 31
    ensures m < 11 ==>
              DaysBefore(m + 1) + (if m >= 1 && IsLeapYear(y) then 1 else 0) ==
              DaysBefore(m) + (if m >= 2 && IsLeapYear(y) then 1 else 0) + MonthLength((y - 1970) * 12 + m)
  {
    assert ((y - 1970) * 12 + m) / 12 == y - 1970 && ((y - 1970) * 12 + m) % 12 == m;
    assert ((y - 1970) * 12 + 11) / 12 == y - 1970 && ((y - 1970) * 12 + 11) % 12 == 11;
  }

  lemma {:induction false} MonthsIncrease(month: nat, later: nat)
    requires month <= later
    ensures FirstDay(month) <= FirstDay(later)
    decreases later
  {
    hide FirstDay, MonthLength;
    if month < later {
      MonthsIncrease(month, later - 1);
      MonthsFollow(later - 1);
    }
  }

  lemma {:induction false} MonthFromExactly(month: nat, day: nat)
    ensures var m := MonthFrom(month, day); FirstDay(m) <= FirstDay(month) + day < FirstDay(m + 1)
    decreases day
  {
    hide FirstDay, MonthLength;
    MonthsFollow(month);
    if day >= MonthLength(month) {
      MonthFromExactly(month + 1, day - MonthLength(month));
    }
  }

  /**
    Periods are those of the calendar in UTC: two points are of one day when the same midnight precedes
    them, of one week when the same Monday does, the epoch having begun on a Thursday, and a point is of a
    month when it lies between the first of that month and the first of the next.
   */
  lemma PeriodsExactly(p: Point, q: Point, month: nat)
    ensures PeriodOf(Daily, p) == PeriodOf(Daily, q) <==> p.createdAt / 86400000 == q.createdAt / 86400000
    ensures PeriodOf(Weekly, p) == PeriodOf(Weekly, q) <==>
            (p.createdAt / 86400000 + 3) / 7 == (q.createdAt / 86400000 + 3) / 7
    ensures PeriodOf(Monthly, p) == month <==> FirstDay(month) <= p.createdAt / 86400000 < FirstDay(month + 1)
  {
    WeeksExactly(DayOf(p.createdAt), DayOf(q.createdAt));
    MonthOfDayExactly(DayOf(p.createdAt), month);
    hide FirstDay, MonthFrom, MondayOf;
  }

  lemma WeeksExactly(day: nat, other: nat)
    ensures MondayOf(day) == MondayOf(other) <==> (day + 3) / 7 == (other + 3) / 7
  {
  }

  lemma MonthOfDayExactly(day: nat, month: nat)
    ensures MonthFrom(0, day) == month <==> FirstDay(month) <= day < FirstDay(month + 1)
  {
    hide FirstDay;
    MonthsFollow(0);
    MonthFromExactly(0, day);
    var m := MonthFrom(0, day);
    if m < month {
      MonthsIncrease(m + 1, month);
    } else if month < m {
      MonthsIncrease(month + 1, m);
    }
  }

  // ---------------------------------------------------------------- the one-pass selection

  /** The periods met before a position of a listing. */
  function Met(tier: Tier, points: seq<Point>, i: nat): set<int>
    requires i <= |points|
  {
    set j | 0 <= j < i :: PeriodOf(tier, points[j])
  }

  /** The first point of its period, with room left in the tier. */
  predicate KeptBy(policy: Policy, tier: Tier, points: seq<Point>, i: nat)
    requires i < |points|
  {
    PeriodOf(tier, points[i]) !in Met(tier, points, i) && |Met(tier, points, i)| < Limit(policy, tier)
  }

  predicate KeptAt(policy: Policy, points: seq<Point>, i: nat)
    requires i < |points|
  {
    KeptBy(policy, Daily, points, i) || KeptBy(policy, Weekly, points, i) || KeptBy(policy, Monthly, points, i)
  }

  function KeptIds(policy: Policy, points: seq<Point>, n: nat): set<Id>
    requires n <= |points|
  {
    set i | 0 <= i < n && KeptAt(policy, points, i) :: points[i].id
  }

  /** The points whose identifiers are (or are not) in a set, in order. */
  function WithIds(points: seq<Point>, ids: set<Id>, member: bool): seq<Point> {
    if points == [] then []
    else (if (points[0].id in ids) == member then [points[0]] else []) + WithIds(points[1..], ids, member)
  }

  function VerifiedOf(points: seq<Point>): seq<Point> {
    if points == [] then []
    else (if points[0].status.Verified? then [points[0]] else []) + VerifiedOf(points[1..])
  }

  /** Stable insertion into a listing that runs from newest to oldest. */
  function Insert(p: Point, points: seq<Point>): seq<Point> {
    if points == [] || p.createdAt >= points[0].createdAt then [p] + points
    else [points[0]] + Insert(p, points[1..])
  }

  function NewestFirst(points: seq<Point>): seq<Point> {
    if points == [] then [] else Insert(points[0], NewestFirst(points[1..]))
  }

  /** What one tier has seen after a prefix: all periods met, until the tier is full. */
  ghost predicate SeenRight(policy: Policy, tier: Tier, points: seq<Point>, i: nat, seen: set<int>)
    requires i <= |points|
  {
    if |Met(tier, points, i)| <= Limit(policy, tier) then seen == Met(tier, points, i)
       else |seen| == Limit(policy, tier)
  }

  lemma MetGrows(tier: Tier, points: seq<Point>, i: nat)
    requires i < |points|
    ensures Met(tier, points, i + 1) == Met(tier, points, i) + {PeriodOf(tier, points[i])}
    ensures |Met(tier, points, i + 1)| ==
            |Met(tier, points, i)| + (if PeriodOf(tier, points[i]) in Met(tier, points, i) then 0 else 1)
  {
    hide PeriodOf;
    var more := Met(tier, points, i) + {PeriodOf(tier, points[i])};
    forall q ensures q in Met(tier, points, i + 1) <==> q in more {}
    assert Met(tier, points, i + 1) == more;
    if PeriodOf(tier, points[i]) in Met(tier, points, i) {
      assert more == Met(tier, points, i);
    }
  }

  /** One tier looks at one point. */
  method Look(policy: Policy, tier: Tier, points: seq<Point>, i: nat, seen: set<int>)
      returns (more: set<int>, kept: bool)
    requires i < |points| && SeenRight(policy, tier, points, i, seen)
    ensures SeenRight(policy, tier, points, i + 1, more)
    ensures kept == KeptBy(policy, tier, points, i)
  {
    MetGrows(tier, points, i);
    var key := PeriodOf(tier, points[i]);
    kept := |seen| < Limit(policy, tier) && key !in seen;
    more := if kept then seen + {key} else seen;
  }

  lemma NothingSeen(policy: Policy, tier: Tier, points: seq<Point>)
    ensures SeenRight(policy, tier, points, 0, {}) && KeptIds(policy, points, 0) == {}
  {
    assert Met(tier, points, 0) == {};
  }

  lemma KeptNext(policy: Policy, points: seq<Point>, i: nat)
    requires i < |points|
    ensures KeptIds(policy, points, i + 1) ==
            KeptIds(policy, points, i) + (if KeptAt(policy, points, i) then {points[i].id} else {})
  {
    hide KeptAt;
  }

  method SelectRetention(points: seq<Point>, policy: Policy) returns (keep: seq<Point>, prune: seq<Point>)
    ensures var verified := NewestFirst(VerifiedOf(points));
            && keep == WithIds(verified, KeptIds(policy, verified, |verified|), true)
            && prune == WithIds(verified, KeptIds(policy, verified, |verified|), false)
  {
    hide NewestFirst, VerifiedOf, WithIds, PeriodOf, Met, SeenRight, KeptBy, KeptIds;
    var verified := NewestFirst(VerifiedOf(points));
    var kept: set<Id> := {};
    var daily: set<int>, weekly: set<int>, monthly: set<int> := {}, {}, {};
    NothingSeen(policy, Daily, verified);
    NothingSeen(policy, Weekly, verified);
    NothingSeen(policy, Monthly, verified);
    for i := 0 to |verified|
      invariant kept == KeptIds(policy, verified, i)
      invariant SeenRight(policy, Daily, verified, i, daily)
      invariant SeenRight(policy, Weekly, verified, i, weekly)
      invariant SeenRight(policy, Monthly, verified, i, monthly)
    {
      var d, w, m;
      daily, d := Look(policy, Daily, verified, i, daily);
      weekly, w := Look(policy, Weekly, verified, i, weekly);
      monthly, m := Look(policy, Monthly, verified, i, monthly);
      KeptNext(policy, verified, i);
      if d || w || m {
        kept := kept + {verified[i].id};
      }
    }
    keep, prune := WithIds(verified, kept, true), WithIds(verified, kept, false);
  }

  // ---------------------------------------------------------------- listings and sets

  ghost predicate Descending(points: seq<Point>) {
    forall i, j :: 0 <= i < j < |points| ==> points[i].createdAt >= points[j].createdAt
  }

  lemma {:induction false} InsertFacts(p: Point, points: seq<Point>)
    requires Descending(points)
    ensures Descending(Insert(p, points)) && multiset(Insert(p, points)) == multiset(points) + multiset{p}
    decreases |points|
  {
    if points == [] || p.createdAt >= points[0].createdAt {
      assert multiset([p] + points) == multiset{p} + multiset(points);
    } else {
      InsertFacts(p, points[1..]);
      assert points == [points[0]] + points[1..];
      var rest := Insert(p, points[1..]);
      hide Insert;
      OlderThanFirst(p, points, rest);
      assert multiset([points[0]] + rest) == multiset{points[0]} + multiset(rest);
      assert multiset([points[0]] + points[1..]) == multiset{points[0]} + multiset(points[1..]);
      DescendingWithFirst(points[0], rest);
    }
  }

  lemma OlderThanFirst(p: Point, points: seq<Point>, rest: seq<Point>)
    requires points != [] && Descending(points) && p.createdAt < points[0].createdAt
    requires multiset(rest) == multiset(points[1..]) + multiset{p}
    ensures forall i :: 0 <= i < |rest| ==> points[0].createdAt >= rest[i].createdAt
  {
    forall i | 0 <= i < |rest| ensures points[0].createdAt >= rest[i].createdAt {
      assert rest[i] in multiset(rest);
      if rest[i] != p {
        assert rest[i] in multiset(points[1..]);
        var j :| 0 <= j < |points| - 1 && points[1..][j] == rest[i];
        assert points[j + 1] == rest[i];
      }
    }
  }

  lemma DescendingWithFirst(first: Point, rest: seq<Point>)
    requires Descending(rest) && forall i :: 0 <= i < |rest| ==> first.createdAt >= rest[i].createdAt
    ensures Descending([first] + rest)
  {
    var all := [first] + rest;
    forall i, j | 0 <= i < j < |all| ensures all[i].createdAt >= all[j].createdAt {
      assert all[j] == rest[j - 1] && (i > 0 ==> all[i] == rest[i - 1]);
    }
  }

  lemma {:induction false} NewestFirstFacts(points: seq<Point>)
    ensures Descending(NewestFirst(points)) && multiset(NewestFirst(points)) == multiset(points)
    decreases |points|
  {
    if points != [] {
      NewestFirstFacts(points[1..]);
      InsertFacts(points[0], NewestFirst(points[1..]));
      assert points == [points[0]] + points[1..];
    }
  }

  /** Keep and prune split the verified points: each is in exactly one of them. */
  lemma {:induction false} KeepAndPrunePartition(points: seq<Point>, ids: set<Id>)
    ensures multiset(WithIds(points, ids, true)) + multiset(WithIds(points, ids, false)) == multiset(points)
    ensures forall p :: p in WithIds(points, ids, true) <==> p in points && p.id in ids
    ensures forall p :: p in WithIds(points, ids, false) <==> p in points && p.id !in ids
    decreases |points|
  {
    if points != [] {
      KeepAndPrunePartition(points[1..], ids);
      assert points == [points[0]] + points[1..];
    }
  }

  // ---------------------------------------------------------------- the newest few of a set of periods

  ghost function Above(periods: set<int>, period: int): set<int> {
    set q | q in periods && q > period
  }

  ghost function Top(periods: set<int>, n: nat): set<int> {
    set q | q in periods && |Above(periods, q)| < n
  }

  lemma SubsetIsSmaller(a: set<int>, b: set<int>)
    requires a <= b
    ensures |a| <= |b| && (a != b ==> |a| < |b|)
  {
    assert b == a + (b - a);
  }

  lemma SomeMember<T>(s: set<T>) returns (x: T)
    requires |s| > 0
    ensures x in s
  {
    x :| x in s;
  }

  lemma LeastOf(periods: set<int>) returns (least: int)
    requires |periods| > 0
    ensures least in periods && forall q :: q in periods ==> least <= q
    decreases |periods|
  {
    var p := SomeMember(periods);
    var others := periods - {p};
    least := p;
    if |others| > 0 {
      var rest := LeastOf(others);
      least := if p < rest then p else rest;
    }
    forall q | q in periods ensures least <= q {
      assert q == p || q in others;
    }
  }

  /** At least n periods means n of them on top. */
  lemma {:induction false} TopIsFull(periods: set<int>, n: nat)
    requires n <= |periods|
    ensures |Top(periods, n)| == n
    decreases |periods|
  {
    if n == |periods| {
      forall q | q in periods ensures q in Top(periods, n) {
        SubsetIsSmaller(Above(periods, q), periods - {q});
      }
      assert Top(periods, n) == periods;
    } else {
      var least := LeastOf(periods);
      var rest := periods - {least};
      assert Above(periods, least) == rest;
      forall q | q in rest ensures Above(periods, q) == Above(rest, q) {}
      assert Top(periods, n) == Top(rest, n);
      TopIsFull(rest, n);
    }
  }

  /** Forgetting periods outside the top does not change the top. */
  lemma TopOfSubset(periods: set<int>, fewer: set<int>, n: nat)
    requires Top(periods, n) <= fewer <= periods
    ensures Top(fewer, n) == Top(periods, n)
  {
    forall q | q in fewer ensures q in Top(fewer, n) <==> q in Top(periods, n) {
      var above := Above(periods, q);
      SubsetIsSmaller(Above(fewer, q), above);
      if |above| >= n {
        TopIsFull(above, n);
        forall r | r in Top(above, n) ensures r in Above(fewer, q) {
          assert Above(periods, r) == Above(above, r);
          assert r in Top(periods, n);
        }
        SubsetIsSmaller(Top(above, n), Above(fewer, q));
      }
    }
  }

  // ---------------------------------------------------------------- retention as a function of sets

  ghost function Periods(tier: Tier, points: set<Point>): set<int> {
    set p | p in points :: PeriodOf(tier, p)
  }

  ghost predicate NewestOfPeriod(tier: Tier, points: set<Point>, p: Point) {
    p in points && forall q :: q in points && PeriodOf(tier, q) == PeriodOf(tier, p) ==> q.createdAt <= p.createdAt
  }

  /** The newest point of each of the newest distinct periods of a tier. */
  ghost function TierKeeps(policy: Policy, tier: Tier, points: set<Point>): set<Point> {
    set p | p in points && NewestOfPeriod(tier, points, p)
      && PeriodOf(tier, p) in Top(Periods(tier, points), Limit(policy, tier))
  }

  ghost function Keep(policy: Policy, points: set<Point>): set<Point> {
    TierKeeps(policy, Daily, points) + TierKeeps(policy, Weekly, points) + TierKeeps(policy, Monthly, points)
  }

  /**
    Which points are kept: the newest of its day when fewer than the daily limit of later days have points,
    the newest of its week, or the newest of its month, in the same way.
   */
  lemma KeptExactly(policy: Policy, points: set<Point>, p: Point)
    ensures p in Keep(policy, points) <==>
            p in points &&
            (|| (&& (forall q :: q in points && PeriodOf(Daily, q) == PeriodOf(Daily, p) ==> q.createdAt <= p.createdAt)
                 && |set q | q in points && PeriodOf(Daily, q) > PeriodOf(Daily, p) ::
                      PeriodOf(Daily, q)| < policy.daily)
             || (&& (forall q :: q in points && PeriodOf(Weekly, q) == PeriodOf(Weekly, p) ==>
                     q.createdAt <= p.createdAt)
                 && |set q | q in points && PeriodOf(Weekly, q) > PeriodOf(Weekly, p) ::
                      PeriodOf(Weekly, q)| < policy.weekly)
             || (&& (forall q :: q in points && PeriodOf(Monthly, q) == PeriodOf(Monthly, p) ==>
                     q.createdAt <= p.createdAt)
                 && |set q | q in points && PeriodOf(Monthly, q) > PeriodOf(Monthly, p) ::
                      PeriodOf(Monthly, q)| < policy.monthly))
  {
    TierExactly(policy, Daily, points, p);
    TierExactly(policy, Weekly, points, p);
    TierExactly(policy, Monthly, points, p);
    hide PeriodOf, TierKeeps;
  }

  lemma TierExactly(policy: Policy, tier: Tier, points: set<Point>, p: Point)
    ensures p in TierKeeps(policy, tier, points) <==>
            && p in points
            && (forall q :: q in points && PeriodOf(tier, q) == PeriodOf(tier, p) ==> q.createdAt <= p.createdAt)
            && |set q | q in points && PeriodOf(tier, q) > PeriodOf(tier, p) :: PeriodOf(tier, q)| < Limit(policy, tier)
  {
    hide PeriodOf;
    LaterPeriods(tier, points, p);
  }

  lemma LaterPeriods(tier: Tier, points: set<Point>, p: Point)
    ensures Above(Periods(tier, points), PeriodOf(tier, p)) ==
            set q | q in points && PeriodOf(tier, q) > PeriodOf(tier, p) :: PeriodOf(tier, q)
    ensures p in points ==> PeriodOf(tier, p) in Periods(tier, points)
  {
    hide PeriodOf;
  }

  ghost predicate DistinctTimes(points: set<Point>) {
    forall p, q :: p in points && q in points && p.createdAt == q.createdAt ==> p == q
  }

  lemma NewestExists(tier: Tier, points: set<Point>, period: int) returns (p: Point)
    requires period in Periods(tier, points)
    ensures NewestOfPeriod(tier, points, p) && PeriodOf(tier, p) == period
    decreases |points|
  {
    var q :| q in points && PeriodOf(tier, q) == period;
    var rest := points - {q};
    if period in Periods(tier, rest) {
      var r := NewestExists(tier, rest, period);
      p := if q.createdAt < r.createdAt then r else q;
    } else {
      p := q;
    }
  }

  /** A tier keeps the same points of any part of a set that still has the points it keeps. */
  lemma TierOfSubset(policy: Policy, tier: Tier, points: set<Point>, fewer: set<Point>)
    requires DistinctTimes(points) && TierKeeps(policy, tier, points) <= fewer <= points
    ensures TierKeeps(policy, tier, fewer) == TierKeeps(policy, tier, points)
  {
    var n := Limit(policy, tier);
    var all, part := Periods(tier, points), Periods(tier, fewer);
    forall period | period in Top(all, n) ensures period in part {
      var p := NewestExists(tier, points, period);
      assert p in TierKeeps(policy, tier, points);
    }
    assert part <= all;
    TopOfSubset(all, part, n);
    forall p | p in fewer ensures p in TierKeeps(policy, tier, fewer) <==> p in TierKeeps(policy, tier, points) {
      if p in TierKeeps(policy, tier, fewer) {
        var m := NewestExists(tier, points, PeriodOf(tier, p));
        assert m in TierKeeps(policy, tier, points);
      }
    }
  }

  lemma TierKeepsMembers(policy: Policy, tier: Tier, points: set<Point>)
    ensures TierKeeps(policy, tier, points) <= points
  {
  }

  lemma KeepsAreMembers(policy: Policy, points: set<Point>)
    ensures Keep(policy, points) <= points
  {
    hide TierKeeps;
    TierKeepsMembers(policy, Daily, points);
    TierKeepsMembers(policy, Weekly, points);
    TierKeepsMembers(policy, Monthly, points);
  }

  /** Selection is idempotent: pruning right after pruning removes nothing. */
  lemma KeepIsIdempotent(policy: Policy, points: set<Point>)
    requires DistinctTimes(points)
    ensures Keep(policy, Keep(policy, points)) == Keep(policy, points)
  {
    hide TierKeeps;
    KeepsAreMembers(policy, points);
    TierOfSubset(policy, Daily, points, Keep(policy, points));
    TierOfSubset(policy, Weekly, points, Keep(policy, points));
    TierOfSubset(policy, Monthly, points, Keep(policy, points));
  }

  lemma NewerPointKeepsTier(policy: Policy, tier: Tier, points: set<Point>, p: Point)
    requires forall q :: q in points ==> q.createdAt < p.createdAt
    ensures TierKeeps(policy, tier, points + {p}) <= TierKeeps(policy, tier, points) + {p}
  {
    var n, all := Limit(policy, tier), points + {p};
    forall q | q in TierKeeps(policy, tier, all) && q != p ensures q in TierKeeps(policy, tier, points) {
      SubsetIsSmaller(Above(Periods(tier, points), PeriodOf(tier, q)), Above(Periods(tier, all), PeriodOf(tier, q)));
    }
  }

  /** Retention is online: pruning before the next backup does not change what the next prune keeps. */
  lemma KeepIsOnline(policy: Policy, points: set<Point>, p: Point)
    requires DistinctTimes(points) && forall q :: q in points ==> q.createdAt < p.createdAt
    ensures Keep(policy, Keep(policy, points) + {p}) == Keep(policy, points + {p})
  {
    hide TierKeeps, PeriodOf;
    var all, kept := points + {p}, Keep(policy, points) + {p};
    KeepsAreMembers(policy, points);
    NewerPointKeepsTier(policy, Daily, points, p);
    NewerPointKeepsTier(policy, Weekly, points, p);
    NewerPointKeepsTier(policy, Monthly, points, p);
    TierOfSubset(policy, Daily, all, kept);
    TierOfSubset(policy, Weekly, all, kept);
    TierOfSubset(policy, Monthly, all, kept);
  }

  /** What is left when every new backup is followed by a prune. */
  ghost function PruneAfterEach(policy: Policy, points: set<Point>, backups: seq<Point>): set<Point> {
    if backups == [] then Keep(policy, points)
    else
      var n := |backups| - 1;
      Keep(policy, PruneAfterEach(policy, points, backups[..n]) + {backups[n]})
  }

  ghost predicate Later(points: set<Point>, backups: seq<Point>) {
    && (forall i, q :: 0 <= i < |backups| && q in points ==> q.createdAt < backups[i].createdAt)
    && (forall i, j :: 0 <= i < j < |backups| ==> backups[i].createdAt < backups[j].createdAt)
  }

  /** The points there were, and all backups taken since. */
  ghost function WithBackups(points: set<Point>, backups: seq<Point>): set<Point> {
    points + set p | p in backups
  }

  /** Pruning after every backup leaves exactly what one prune at the end would. */
  lemma {:induction false} PruningEachTimeIsPruningOnce(policy: Policy, points: set<Point>, backups: seq<Point>)
    requires DistinctTimes(points) && Later(points, backups)
    ensures PruneAfterEach(policy, points, backups) == Keep(policy, WithBackups(points, backups))
    decreases |backups|
  {
    hide Keep, DistinctTimes, Later;
    if backups == [] {
      assert WithBackups(points, backups) == points;
    } else {
      hide WithBackups;
      var n := |backups| - 1;
      LastBackup(points, backups);
      PruningEachTimeIsPruningOnce(policy, points, backups[..n]);
      KeepIsOnline(policy, WithBackups(points, backups[..n]), backups[n]);
    }
  }

  /** Later backups leave the times of the points distinct. */
  lemma DistinctWithBackups(points: set<Point>, backups: seq<Point>)
    requires DistinctTimes(points) && Later(points, backups)
    ensures DistinctTimes(WithBackups(points, backups))
  {
    forall p, q | p in WithBackups(points, backups) && q in WithBackups(points, backups) && p.createdAt == q.createdAt
      ensures p == q {
      if p in backups && q in backups {
        var i :| 0 <= i < |backups| && backups[i] == p;
        var j :| 0 <= j < |backups| && backups[j] == q;
      }
    }
  }

  lemma LastBackup(points: set<Point>, backups: seq<Point>)
    requires DistinctTimes(points) && Later(points, backups) && backups != []
    ensures var n := |backups| - 1;
            var before := WithBackups(points, backups[..n]);
            && WithBackups(points, backups) == before + {backups[n]} && Later(points, backups[..n])
            && DistinctTimes(before) && (forall q :: q in before ==> q.createdAt < backups[n].createdAt)
  {
    hide DistinctTimes;
    var n := |backups| - 1;
    var some := backups[..n];
    forall i | 0 <= i < n ensures some[i] == backups[i] {}
    DistinctWithBackups(points, some);
    assert backups == some + [backups[n]];
    forall q | q in some ensures q.createdAt < backups[n].createdAt {
      var i :| 0 <= i < n && some[i] == q;
    }
    hide Later;
  }

  // ---------------------------------------------------------------- the pass computes the function

  ghost function Members(points: seq<Point>): set<Point> {
    set p | p in points
  }

  ghost predicate StrictlyDescending(points: seq<Point>) {
    forall i, j :: 0 <= i < j < |points| ==> points[i].createdAt > points[j].createdAt
  }

  lemma MetIsAbove(tier: Tier, points: seq<Point>, i: nat)
    requires StrictlyDescending(points) && i < |points|
    ensures PeriodOf(tier, points[i]) !in Met(tier, points, i) <==> NewestOfPeriod(tier, Members(points), points[i])
    ensures PeriodOf(tier, points[i]) !in Met(tier, points, i) ==>
              Met(tier, points, i) == Above(Periods(tier, Members(points)), PeriodOf(tier, points[i]))
  {
    hide PeriodOf;
    var period, met, all := PeriodOf(tier, points[i]), Met(tier, points, i), Periods(tier, Members(points));
    PeriodsDescend(tier, points, i);
    assert forall j :: 0 <= j < |points| ==> points[j] in Members(points);
    if period !in met {
      forall q ensures q in met <==> q in Above(all, period) {
        if q in met {
          var j :| 0 <= j < i && PeriodOf(tier, points[j]) == q;
          assert points[j] in Members(points);
        }
        if q in Above(all, period) {
          var j :| 0 <= j < |points| && PeriodOf(tier, points[j]) == q;
          assert j < i;
        }
      }
      NewestOfItsPeriod(tier, points, i);
    } else {
      var j :| 0 <= j < i && PeriodOf(tier, points[j]) == period;
      assert points[j] in Members(points) && points[j].createdAt > points[i].createdAt;
    }
  }

  lemma NewestOfItsPeriod(tier: Tier, points: seq<Point>, i: nat)
    requires StrictlyDescending(points) && i < |points| && PeriodOf(tier, points[i]) !in Met(tier, points, i)
    ensures NewestOfPeriod(tier, Members(points), points[i])
  {
    hide PeriodOf;
    assert forall j :: 0 <= j < i ==> PeriodOf(tier, points[j]) in Met(tier, points, i);
    forall q | q in Members(points) && PeriodOf(tier, q) == PeriodOf(tier, points[i])
      ensures q.createdAt <= points[i].createdAt {
      var j :| 0 <= j < |points| && points[j] == q;
    }
  }

  /** In a listing from newest to oldest, periods run backwards. */
  lemma PeriodsDescend(tier: Tier, points: seq<Point>, i: nat)
    requires StrictlyDescending(points) && i < |points|
    ensures forall j :: 0 <= j < |points| ==>
                          if j < i then PeriodOf(tier, points[j]) >= PeriodOf(tier, points[i])
                             else PeriodOf(tier, points[j]) <= PeriodOf(tier, points[i])
  {
    hide PeriodOf;
    forall j | 0 <= j < |points|
      ensures if j < i then PeriodOf(tier, points[j]) >= PeriodOf(tier, points[i])
              else PeriodOf(tier, points[j]) <= PeriodOf(tier, points[i])
    {
      if j < i { PeriodsAdvance(tier, points[i], points[j]); } else { PeriodsAdvance(tier, points[j], points[i]); }
    }
  }

  lemma KeptByIsTierKeeps(policy: Policy, tier: Tier, points: seq<Point>, i: nat)
    requires StrictlyDescending(points) && i < |points|
    ensures KeptBy(policy, tier, points, i) <==> points[i] in TierKeeps(policy, tier, Members(points))
  {
    MetIsAbove(tier, points, i);
    assert points[i] in Members(points);
    assert PeriodOf(tier, points[i]) in Periods(tier, Members(points));
  }

  /** A point's identifier is kept exactly when the point is, one position of the listing at a time. */
  lemma KeptIdExactly(policy: Policy, points: seq<Point>, i: nat)
    requires StrictlyDescending(points) && DistinctIds(points) && i < |points|
    ensures points[i].id in KeptIds(policy, points, |points|) <==> points[i] in Keep(policy, Members(points))
  {
    KeptByIsTierKeeps(policy, Daily, points, i);
    KeptByIsTierKeeps(policy, Weekly, points, i);
    KeptByIsTierKeeps(policy, Monthly, points, i);
    hide StrictlyDescending, KeptBy, TierKeeps;
    KeptIdAt(policy, points, i);
  }

  lemma KeptIdAt(policy: Policy, points: seq<Point>, i: nat)
    requires DistinctIds(points) && i < |points|
    ensures points[i].id in KeptIds(policy, points, |points|) <==> KeptAt(policy, points, i)
  {
    hide KeptAt;
    if points[i].id in KeptIds(policy, points, |points|) {
      var j :| 0 <= j < |points| && KeptAt(policy, points, j) && points[j].id == points[i].id;
      assert i == j;
    }
  }

  ghost predicate DistinctIds(points: seq<Point>) {
    forall i, j :: 0 <= i < j < |points| ==> points[i].id != points[j].id
  }

  /** Dividing a listing by identifiers divides its members. */
  lemma DividedMembers(points: seq<Point>, ids: set<Id>, kept: set<Point>)
    requires kept <= Members(points) && forall i :: 0 <= i < |points| ==> (points[i].id in ids <==> points[i] in kept)
    ensures Members(WithIds(points, ids, true)) == kept
            && Members(WithIds(points, ids, false)) == Members(points) - kept
  {
    KeepAndPrunePartition(points, ids);
    hide WithIds;
  }

  /**
    For points with distinct times and identifiers, the pass keeps exactly the newest point of each
    of the newest distinct days, weeks and months, and prunes exactly the other verified points.
   */
  lemma SelectionIsKeep(policy: Policy, points: seq<Point>)
    requires var verified := NewestFirst(VerifiedOf(points)); StrictlyDescending(verified) && DistinctIds(verified)
    ensures var verified := NewestFirst(VerifiedOf(points));
            var ids := KeptIds(policy, verified, |verified|);
            && Members(WithIds(verified, ids, true)) == Keep(policy, Members(verified))
            && Members(WithIds(verified, ids, false)) == Members(verified) - Keep(policy, Members(verified))
  {
    var verified := NewestFirst(VerifiedOf(points));
    var ids, kept := KeptIds(policy, verified, |verified|), Keep(policy, Members(verified));
    KeepsAreMembers(policy, Members(verified));
    hide NewestFirst, VerifiedOf, Keep, KeptIds, StrictlyDescending, DistinctIds, Members, WithIds;
    forall i | 0 <= i < |verified| ensures verified[i].id in ids <==> verified[i] in kept {
      KeptIdExactly(policy, verified, i);
    }
    DividedMembers(verified, ids, kept);
  }
}
