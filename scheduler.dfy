/**
 * The daily jobs of the scheduler over the `travelled_distances` table and
 * the filtered location points: cutting a user's points into per-day energy
 * ratings, the weekly CO2 rankings, and the per-day global statistics.
 *
 * Times are naive datetimes, counted in microseconds from 1970-01-01 00:00.
 * The database is modelled by the rows its queries return; the `WHERE`
 * clauses that select them are written out as predicates.
 */
module Scheduler {
  import opened Common
  import Sorting

  const MicrosPerSecond: int := 1_000_000
  const MicrosPerDay: int := 86400 * MicrosPerSecond
  const MicrosPerWeek: int := 7 * MicrosPerDay

  /** `t.replace(hour=0, minute=0, second=0, microsecond=0)`. */
  function Midnight(t: int): (m: int)
    ensures m <= t < m + MicrosPerDay
    ensures m % MicrosPerDay == 0
  {
    t - t % MicrosPerDay
  }

  /** A row of `travelled_distances`; ranking rows carry no distance. */
  datatype TravelledDistance = TravelledDistance(userId: int, time: int, totalDistance: Option<real>, averageCo2: real)

  /** `t` lies in the seven days that end with the day starting at `day`. */
  predicate InWeekWindow(t: int, day: int)
  {
    day + MicrosPerDay - MicrosPerWeek <= t < day + MicrosPerDay
  }

  // ----- Rankings ------------------------------------------------------------

  /** A row the ranking of `day` takes into account. */
  predicate Ranked(r: TravelledDistance, day: int)
  {
    r.totalDistance.Some? && InWeekWindow(r.time, day)
  }

  /** The distance a user travelled in the week of `day`. */
  function UserDistance(rows: seq<TravelledDistance>, day: int, u: int): real
  {
    if rows == [] then 0.0
    else
      var r := rows[|rows| - 1];
      UserDistance(rows[..|rows| - 1], day, u) + (if Ranked(r, day) && r.userId == u then r.totalDistance.value else 0.0)
  }

  /** The CO2 a user emitted in the week of `day`: distances weighted by their average emission. */
  function UserCo2(rows: seq<TravelledDistance>, day: int, u: int): real
  {
    if rows == [] then 0.0
    else
      var r := rows[|rows| - 1];
      UserCo2(rows[..|rows| - 1], day, u) + (if Ranked(r, day) && r.userId == u then r.averageCo2 * r.totalDistance.value else 0.0)
  }

  /** The users with a ranked row, in order of first appearance. */
  function RankedUsers(rows: seq<TravelledDistance>, day: int): (users: seq<int>)
    ensures Sorting.Distinct(users)
  {
    if rows == [] then []
    else
      var r := rows[|rows| - 1];
      var front := RankedUsers(rows[..|rows| - 1], day);
      if Ranked(r, day) && r.userId !in front then front + [r.userId] else front
  }

  /** A user's distance-weighted average emission; 0 stands in where the distance is 0. */
  function Average(rows: seq<TravelledDistance>, day: int, u: int): real
  {
    var d := UserDistance(rows, day, u);
    if d == 0.0 then 0.0 else UserCo2(rows, day, u) / d
  }

  datatype RankingError = ZeroDivisionError

  /** A row inserted into `travelled_distances` to record a user's rank on a day. */
  datatype RankingRow = RankingRow(userId: int, time: int, ranking: int)

  function AverageKey(t: (int, real)): real
  {
    t.1
  }

  /** The pairs (user, average) for the given users. */
  function UserAverages(users: seq<int>, rows: seq<TravelledDistance>, day: int): (totals: seq<(int, real)>)
    ensures |totals| == |users|
    ensures forall j :: 0 <= j < |users| ==> totals[j] == (users[j], Average(rows, day, users[j]))
  {
    seq(|users|, j requires 0 <= j < |users| => (users[j], Average(rows, day, users[j])))
  }

  /** The rank rows for the sorted pairs: rank `i + 1` for position `i`. */
  function RankRows(sorted: seq<(int, real)>, day: int): seq<RankingRow>
  {
    seq(|sorted|, i requires 0 <= i < |sorted| => RankingRow(sorted[i].0, day, i + 1))
  }

  /** What the ranking of `day` inserts, or the division by zero it raises. */
  function Rankings(rows: seq<TravelledDistance>, day: int): Result<seq<RankingRow>, RankingError>
  {
    var users := RankedUsers(rows, day);
    if exists u :: u in users && UserDistance(rows, day, u) == 0.0 then Failure(ZeroDivisionError)
    else Success(RankRows(Sorting.SortBy(UserAverages(users, rows, day), AverageKey), day))
  }

  lemma {:induction false} RankedUsersMembers(rows: seq<TravelledDistance>, day: int, u: int)
    ensures u in RankedUsers(rows, day) <==> exists r :: r in rows && Ranked(r, day) && r.userId == u
  {
    if rows != [] {
      var front := rows[..|rows| - 1];
      RankedUsersMembers(front, day, u);
      assert rows == front + [rows[|rows| - 1]];
      if exists r :: r in rows && Ranked(r, day) && r.userId == u {
        var r :| r in rows && Ranked(r, day) && r.userId == u;
        if r != rows[|rows| - 1] {
          assert r in front;
        }
      }
    }
  }

  /** A user without a ranked row has travelled nothing and emitted nothing. */
  lemma {:induction false} UnrankedUserZero(rows: seq<TravelledDistance>, day: int, u: int)
    requires u !in RankedUsers(rows, day)
    ensures UserDistance(rows, day, u) == 0.0 && UserCo2(rows, day, u) == 0.0
  {
    if rows != [] {
      UnrankedUserZero(rows[..|rows| - 1], day, u);
    }
  }

  /**
   * The query half of `generate_rankings`: sums each user's distance and
   * distance-weighted emission over the week, users in order of appearance.
   */
  method SumWeek(rows: seq<TravelledDistance>, day: int)
    returns (users: seq<int>, totalDistances: map<int, real>, totalCo2: map<int, real>)
    ensures users == RankedUsers(rows, day)
    ensures forall u :: u in totalDistances <==> u in users
    ensures forall u :: u in totalDistances ==>
      && u in totalCo2
      && totalDistances[u] == UserDistance(rows, day, u)
      && totalCo2[u] == UserCo2(rows, day, u)
  {
    totalDistances := map[];
    totalCo2 := map[];
    users := [];
    var i := 0;
    while i < |rows|
      invariant 0 <= i <= |rows|
      invariant users == RankedUsers(rows[..i], day)
      invariant forall u :: u in totalDistances <==> u in users
      invariant forall u :: u in totalDistances ==>
        && u in totalCo2
        && totalDistances[u] == UserDistance(rows[..i], day, u)
        && totalCo2[u] == UserCo2(rows[..i], day, u)
    {
      var row := rows[i];
      assert rows[..i + 1][..i] == rows[..i];
      if row.totalDistance.Some? && InWeekWindow(row.time, day) {
        if row.userId in totalDistances {
          totalDistances := totalDistances[row.userId := totalDistances[row.userId] + row.totalDistance.value];
          totalCo2 := totalCo2[row.userId := totalCo2[row.userId] + row.averageCo2 * row.totalDistance.value];
        } else {
          UnrankedUserZero(rows[..i], day, row.userId);
          totalDistances := totalDistances[row.userId := row.totalDistance.value];
          totalCo2 := totalCo2[row.userId := row.averageCo2 * row.totalDistance.value];
          users := users + [row.userId];
        }
      }
      i := i + 1;
    }
    assert rows[..|rows|] == rows;
  }

  /**
   * `generate_rankings`: divides each user's sums, sorts by the average and
   * numbers the users from 1.
   */
  method GenerateRankings(rows: seq<TravelledDistance>, day: int) returns (batch: Result<seq<RankingRow>, RankingError>)
    ensures batch == Rankings(rows, day)
  {
    var users, totalDistances, totalCo2 := SumWeek(rows, day);
    var totals: seq<(int, real)> := [];
    var k := 0;
    while k < |users|
      invariant 0 <= k <= |users|
      invariant |totals| == k
      invariant forall j :: 0 <= j < k ==>
        totals[j] == (users[j], Average(rows, day, users[j])) && UserDistance(rows, day, users[j]) != 0.0
    {
      var u := users[k];
      if totalDistances[u] == 0.0 {
        assert u in users && UserDistance(rows, day, u) == 0.0;
        return Failure(ZeroDivisionError);
      }
      totals := totals + [(u, totalCo2[u] / totalDistances[u])];
      k := k + 1;
    }
    assert totals == UserAverages(users, rows, day);
    var sorted := Sorting.SortBy(totals, AverageKey);
    batch := Success(RankRows(sorted, day));
  }

  /** The division raises exactly when some ranked user's distances sum to zero. */
  lemma RankingsFailure(rows: seq<TravelledDistance>, day: int)
    ensures Rankings(rows, day).Failure? <==>
      exists r :: r in rows && Ranked(r, day) && UserDistance(rows, day, r.userId) == 0.0
  {
    var users := RankedUsers(rows, day);
    if exists u :: u in users && UserDistance(rows, day, u) == 0.0 {
      var u :| u in users && UserDistance(rows, day, u) == 0.0;
      RankedUsersMembers(rows, day, u);
    }
    if exists r :: r in rows && Ranked(r, day) && UserDistance(rows, day, r.userId) == 0.0 {
      var r :| r in rows && Ranked(r, day) && UserDistance(rows, day, r.userId) == 0.0;
      RankedUsersMembers(rows, day, r.userId);
    }
  }

  /** With no ranked row nothing is inserted. */
  lemma RankingsEmpty(rows: seq<TravelledDistance>, day: int)
    requires forall r :: r in rows ==> !Ranked(r, day)
    ensures Rankings(rows, day) == Success([])
  {
    var users := RankedUsers(rows, day);
    if users != [] {
      RankedUsersMembers(rows, day, users[0]);
      assert false;
    }
    assert users == [];
    assert !exists u :: u in users && UserDistance(rows, day, u) == 0.0;
    assert UserAverages(users, rows, day) == [];
    assert Sorting.SortBy(UserAverages(users, rows, day), AverageKey) == [];
    assert RankRows([], day) == [];
  }

  /** The pairs the ranking sorts: each ranked user once, with their average. */
  lemma SortedPairs(rows: seq<TravelledDistance>, day: int, users: seq<int>, sorted: seq<(int, real)>)
    requires users == RankedUsers(rows, day)
    requires sorted == Sorting.SortBy(UserAverages(users, rows, day), AverageKey)
    ensures && (forall i :: 0 <= i < |sorted| ==> sorted[i].0 in users && sorted[i].1 == Average(rows, day, sorted[i].0))
      && (forall i, j :: 0 <= i < j < |sorted| ==> sorted[i].0 != sorted[j].0)
      && (forall u :: u in users ==> exists i :: 0 <= i < |sorted| && sorted[i].0 == u)
  {
    var totals := UserAverages(users, rows, day);
    forall i | 0 <= i < |sorted|
      ensures sorted[i].0 in users && sorted[i].1 == Average(rows, day, sorted[i].0)
    {
      assert sorted[i] in multiset(totals);
      var j :| 0 <= j < |totals| && totals[j] == sorted[i];
    }
    assert Sorting.Distinct(totals);
    Sorting.PermutationDistinct(totals, sorted);
    forall i, j | 0 <= i < j < |sorted| ensures sorted[i].0 != sorted[j].0 {
      assert sorted[i] != sorted[j];
    }
    forall u | u in users ensures exists i :: 0 <= i < |sorted| && sorted[i].0 == u {
      var j :| 0 <= j < |users| && users[j] == u;
      assert totals[j] in multiset(sorted);
      var i :| 0 <= i < |sorted| && sorted[i] == totals[j];
    }
  }

  /** The inserted rows give the ranks 1..n in order, all for `day`. */
  lemma RankingsNumbered(rows: seq<TravelledDistance>, day: int)
    requires Rankings(rows, day).Success?
    ensures var batch := Rankings(rows, day).value;
      && |batch| == |RankedUsers(rows, day)|
      && forall i :: 0 <= i < |batch| ==> batch[i].ranking == i + 1 && batch[i].time == day
  {
    var users := RankedUsers(rows, day);
    var sorted := Sorting.SortBy(UserAverages(users, rows, day), AverageKey);
    var batch := Rankings(rows, day).value;
    assert batch == RankRows(sorted, day);
    assert |sorted| == |users|;
    forall i | 0 <= i < |batch| ensures batch[i].ranking == i + 1 && batch[i].time == day {
      assert batch[i] == RankingRow(sorted[i].0, day, i + 1);
    }
  }

  /** Some row of `u` counts for the ranking of `day`. */
  predicate HasRankedRow(rows: seq<TravelledDistance>, day: int, u: int)
  {
    exists r :: r in rows && Ranked(r, day) && r.userId == u
  }

  /** Every ranked user has a ranked row on the day. */
  lemma RankingsOnlyRanked(rows: seq<TravelledDistance>, day: int)
    requires Rankings(rows, day).Success?
    ensures var batch := Rankings(rows, day).value;
      forall i :: 0 <= i < |batch| ==> HasRankedRow(rows, day, batch[i].userId)
  {
    var users := RankedUsers(rows, day);
    var sorted := Sorting.SortBy(UserAverages(users, rows, day), AverageKey);
    var batch := RankRows(sorted, day);
    assert Rankings(rows, day) == Success(batch);
    SortedPairs(rows, day, users, sorted);
    forall i | 0 <= i < |batch| ensures batch[i].userId in users {
      assert batch[i].userId == sorted[i].0;
    }
    RowsOfRankedUsers(rows, day, users, batch);
  }

  lemma RowsOfRankedUsers(rows: seq<TravelledDistance>, day: int, users: seq<int>, batch: seq<RankingRow>)
    requires users == RankedUsers(rows, day)
    requires forall i :: 0 <= i < |batch| ==> batch[i].userId in users
    ensures forall i :: 0 <= i < |batch| ==> HasRankedRow(rows, day, batch[i].userId)
  {
    forall i | 0 <= i < |batch| ensures HasRankedRow(rows, day, batch[i].userId) {
      RankedUsersMembers(rows, day, batch[i].userId);
    }
  }

  /** Every user with a ranked row on the day is ranked. */
  lemma RankingsCoverRanked(rows: seq<TravelledDistance>, day: int)
    requires Rankings(rows, day).Success?
    ensures var batch := Rankings(rows, day).value;
      forall r :: r in rows && Ranked(r, day) ==> exists i :: 0 <= i < |batch| && batch[i].userId == r.userId
  {
    var users := RankedUsers(rows, day);
    var sorted := Sorting.SortBy(UserAverages(users, rows, day), AverageKey);
    var batch := Rankings(rows, day).value;
    assert batch == RankRows(sorted, day);
    SortedPairs(rows, day, users, sorted);
    forall r | r in rows && Ranked(r, day)
      ensures exists i :: 0 <= i < |batch| && batch[i].userId == r.userId
    {
      RankedUsersMembers(rows, day, r.userId);
      var i :| 0 <= i < |sorted| && sorted[i].0 == r.userId;
      assert batch[i].userId == r.userId;
    }
  }

  /** No user is ranked twice. */
  lemma RankingsUsersDistinct(rows: seq<TravelledDistance>, day: int)
    requires Rankings(rows, day).Success?
    ensures var batch := Rankings(rows, day).value;
      forall i, j :: 0 <= i < j < |batch| ==> batch[i].userId != batch[j].userId
  {
    var users := RankedUsers(rows, day);
    var sorted := Sorting.SortBy(UserAverages(users, rows, day), AverageKey);
    var batch := Rankings(rows, day).value;
    assert batch == RankRows(sorted, day);
    SortedPairs(rows, day, users, sorted);
    forall i, j | 0 <= i < j < |batch| ensures batch[i].userId != batch[j].userId {
      assert batch[i].userId == sorted[i].0 && batch[j].userId == sorted[j].0;
    }
  }

  /** A better rank never has a larger average emission. */
  lemma RankingsOrdered(rows: seq<TravelledDistance>, day: int)
    requires Rankings(rows, day).Success?
    ensures var batch := Rankings(rows, day).value;
      forall i, j :: 0 <= i < j < |batch| ==>
        Average(rows, day, batch[i].userId) <= Average(rows, day, batch[j].userId)
  {
    var users := RankedUsers(rows, day);
    var sorted := Sorting.SortBy(UserAverages(users, rows, day), AverageKey);
    var batch := Rankings(rows, day).value;
    assert batch == RankRows(sorted, day);
    SortedPairs(rows, day, users, sorted);
    forall i, j | 0 <= i < j < |batch|
      ensures Average(rows, day, batch[i].userId) <= Average(rows, day, batch[j].userId)
    {
      assert AverageKey(sorted[i]) <= AverageKey(sorted[j]);
    }
  }

  /** The weighted sum `sum` of values in `[lo, hi]` with total weight `weight` is within bounds. */
  predicate WeightedWithin(sum: real, weight: real, lo: real, hi: real)
  {
    lo * weight <= sum <= hi * weight
  }

  /** One more positively weighted value within `[lo, hi]` keeps the weighted sum within bounds. */
  lemma WeightedStep(sum: real, weight: real, d: real, c: real, lo: real, hi: real, sum': real, weight': real)
    requires WeightedWithin(sum, weight, lo, hi)
    requires d > 0.0 && lo <= c <= hi
    requires sum' == sum + d * c && weight' == weight + d
    ensures WeightedWithin(sum', weight', lo, hi)
  {
    assert d * lo <= d * c by {
      assert d * (c - lo) >= 0.0;
    }
    assert d * c <= d * hi by {
      assert d * (hi - c) >= 0.0;
    }
  }

  /** A weighted sum within bounds gives a weighted mean within the same bounds. */
  lemma WeightedMean(sum: real, weight: real, lo: real, hi: real)
    requires weight > 0.0 && WeightedWithin(sum, weight, lo, hi)
    ensures lo <= sum / weight <= hi
  {
    var m := sum / weight;
    assert (m - lo) * weight == sum - lo * weight;
    assert (hi - m) * weight == hi * weight - sum;
  }

  /**
   * A user's average lies between the smallest and the largest emission of
   * their ranked rows, when every ranked distance is positive.
   */
  lemma AverageBounds(rows: seq<TravelledDistance>, day: int, u: int, lo: real, hi: real)
    requires forall r :: r in rows && Ranked(r, day) && r.userId == u ==>
      r.totalDistance.value > 0.0 && lo <= r.averageCo2 <= hi
    ensures UserDistance(rows, day, u) > 0.0 ==> lo <= Average(rows, day, u) <= hi
  {
    UserWeightedBounds(rows, day, u, lo, hi);
    if UserDistance(rows, day, u) > 0.0 {
      WeightedMean(UserCo2(rows, day, u), UserDistance(rows, day, u), lo, hi);
    }
  }

  lemma {:induction false} UserWeightedBounds(rows: seq<TravelledDistance>, day: int, u: int, lo: real, hi: real)
    requires forall r :: r in rows && Ranked(r, day) && r.userId == u ==>
      r.totalDistance.value > 0.0 && lo <= r.averageCo2 <= hi
    ensures WeightedWithin(UserCo2(rows, day, u), UserDistance(rows, day, u), lo, hi)
  {
    if rows == [] {
    } else {
      var r := rows[|rows| - 1];
      var front := rows[..|rows| - 1];
      assert rows == front + [r];
      UserWeightedBounds(front, day, u, lo, hi);
      var weight, sum := UserDistance(front, day, u), UserCo2(front, day, u);
      var weight', sum' := UserDistance(rows, day, u), UserCo2(rows, day, u);
      if Ranked(r, day) && r.userId == u {
        var d, c := r.totalDistance.value, r.averageCo2;
        assert sum' == sum + c * d;
        assert c * d == d * c;
        WeightedStep(sum, weight, d, c, lo, hi, sum', weight');
      } else {
        assert weight' == weight && sum' == sum;
      }
    }
  }

  // ----- Global statistics ---------------------------------------------------

  /** One row of `global_statistics`. */
  datatype GlobalStatistics = GlobalStatistics(time: int, averageCo2Usage: real, pastWeekCertificatesNumber: nat, totalDistance: real)

  /** Python truthiness of the distance: neither None nor zero. */
  predicate Truthy(r: TravelledDistance)
  {
    r.totalDistance.Some? && r.totalDistance.value != 0.0
  }

  /** The sum of the truthy distances. */
  function DayDistance(rows: seq<TravelledDistance>): real
  {
    if rows == [] then 0.0
    else
      var r := rows[|rows| - 1];
      DayDistance(rows[..|rows| - 1]) + (if Truthy(r) then r.totalDistance.value else 0.0)
  }

  /** The emission of the truthy rows, each distance weighted by its average. */
  function DayCo2(rows: seq<TravelledDistance>): real
  {
    if rows == [] then 0.0
    else
      var r := rows[|rows| - 1];
      DayCo2(rows[..|rows| - 1]) + (if Truthy(r) then r.totalDistance.value * r.averageCo2 else 0.0)
  }

  /** The users with any row in the week ending with `day` (`COUNT(DISTINCT user_id)`). */
  function WeekUsers(table: seq<TravelledDistance>, day: int): set<int>
  {
    set r | r in table && InWeekWindow(r.time, day) :: r.userId
  }

  /** The statistics of the day starting at `day`, from that day's rows. */
  function DayStatistics(table: seq<TravelledDistance>, dayRows: seq<TravelledDistance>, day: int): GlobalStatistics
  {
    var d := DayDistance(dayRows);
    GlobalStatistics(day, if d == 0.0 then 0.0 else DayCo2(dayRows) / d, |WeekUsers(table, day)|, d)
  }

  /** `get_global_statistics_for_day`. */
  method GlobalStatisticsForDay(table: seq<TravelledDistance>, dayRows: seq<TravelledDistance>, day: int)
    returns (stats: GlobalStatistics)
    ensures stats == DayStatistics(table, dayRows, day)
  {
    var idCount := |WeekUsers(table, day)|;
    var distanceSum: real := 0.0;
    var totalCo2: real := 0.0;
    var i := 0;
    while i < |dayRows|
      invariant 0 <= i <= |dayRows|
      invariant distanceSum == DayDistance(dayRows[..i]) && totalCo2 == DayCo2(dayRows[..i])
    {
      var row := dayRows[i];
      assert dayRows[..i + 1][..i] == dayRows[..i];
      if row.totalDistance.Some? && row.totalDistance.value != 0.0 {
        distanceSum := distanceSum + row.totalDistance.value;
        totalCo2 := totalCo2 + row.totalDistance.value * row.averageCo2;
      }
      i := i + 1;
    }
    assert dayRows[..|dayRows|] == dayRows;
    var averageCo2: real;
    if distanceSum == 0.0 {
      averageCo2 := 0.0;
    } else {
      averageCo2 := totalCo2 / distanceSum;
    }
    stats := GlobalStatistics(day, averageCo2, idCount, distanceSum);
  }

  /**
   * The statistics row is stamped with the day, holds the sum of the truthy
   * distances and the number of users of the week ending with the day, and
   * an average that times the distance gives the day's emission (0 when
   * nothing was travelled).
   */
  lemma DayStatisticsFields(table: seq<TravelledDistance>, dayRows: seq<TravelledDistance>, day: int)
    ensures var stats := DayStatistics(table, dayRows, day);
      && stats.time == day && stats.totalDistance == DayDistance(dayRows)
      && stats.pastWeekCertificatesNumber == |WeekUsers(table, day)|
      && (stats.totalDistance == 0.0 ==> stats.averageCo2Usage == 0.0)
      && (stats.totalDistance != 0.0 ==> stats.averageCo2Usage * stats.totalDistance == DayCo2(dayRows))
  {
    var d := DayDistance(dayRows);
    if d != 0.0 {
      DivMul(DayCo2(dayRows), d);
    }
  }

  lemma DivMul(a: real, b: real)
    requires b != 0.0
    ensures a / b * b == a
  {
  }

  /**
   * With positive distances whose averages lie in `[lo, hi]`, the day's
   * average lies in `[lo, hi]` too.
   */
  lemma {:induction false} DayAverageBounds(rows: seq<TravelledDistance>, lo: real, hi: real)
    requires forall r :: r in rows && Truthy(r) ==> r.totalDistance.value > 0.0 && lo <= r.averageCo2 <= hi
    ensures DayDistance(rows) > 0.0 ==> lo <= DayCo2(rows) / DayDistance(rows) <= hi
  {
    DayWeightedBounds(rows, lo, hi);
    if DayDistance(rows) > 0.0 {
      WeightedMean(DayCo2(rows), DayDistance(rows), lo, hi);
    }
  }

  lemma {:induction false} DayWeightedBounds(rows: seq<TravelledDistance>, lo: real, hi: real)
    requires forall r :: r in rows && Truthy(r) ==> r.totalDistance.value > 0.0 && lo <= r.averageCo2 <= hi
    ensures WeightedWithin(DayCo2(rows), DayDistance(rows), lo, hi)
  {
    if rows == [] {
    } else {
      var r := rows[|rows| - 1];
      var front := rows[..|rows| - 1];
      assert rows == front + [r];
      DayWeightedBounds(front, lo, hi);
      var weight, sum := DayDistance(front), DayCo2(front);
      var weight', sum' := DayDistance(rows), DayCo2(rows);
      if Truthy(r) {
        WeightedStep(sum, weight, r.totalDistance.value, r.averageCo2, lo, hi, sum', weight');
      } else {
        assert weight' == weight && sum' == sum;
      }
    }
  }

  /** Rows whose distance is None or zero do not change the day's figures. */
  lemma {:induction false} DayIgnoresFalsy(rows: seq<TravelledDistance>, extra: seq<TravelledDistance>)
    requires forall r :: r in extra ==> !Truthy(r)
    ensures DayDistance(rows + extra) == DayDistance(rows) && DayCo2(rows + extra) == DayCo2(rows)
  {
    if extra == [] {
      assert rows + extra == rows;
    } else {
      var front := extra[..|extra| - 1];
      var last := extra[|extra| - 1];
      assert forall x :: x in front ==> x in extra;
      DayIgnoresFalsy(rows, front);
      assert rows + extra == (rows + front) + [last];
      assert !Truthy(last);
      assert (rows + extra)[..|rows + extra| - 1] == rows + front;
    }
  }

  /** The rows of the day starting at `day`. */
  function DayRows(table: seq<TravelledDistance>, day: int): (rows: seq<TravelledDistance>)
    ensures forall r :: r in rows <==> r in table && day <= r.time < day + MicrosPerDay
  {
    if table == [] then []
    else
      var r := table[|table| - 1];
      var front := table[..|table| - 1];
      assert table == front + [r];
      DayRows(front, day) + (if day <= r.time < day + MicrosPerDay then [r] else [])
  }

  /** The earliest time in a non-empty table (`min(time)`). */
  function MinTime(table: seq<TravelledDistance>): (m: int)
    requires table != []
    ensures exists r :: r in table && r.time == m
    ensures forall r :: r in table ==> m <= r.time
  {
    if |table| == 1 then table[0].time
    else
      var front := table[..|table| - 1];
      var last := table[|table| - 1];
      assert table == front + [last];
      var m := MinTime(front);
      if last.time < m then last.time else m
  }

  /** The first day to compute: the day after the last statistics, else the earliest travelled distance. */
  function StatisticsStart(lastStatisticsTime: Option<int>, table: seq<TravelledDistance>): Option<int>
  {
    if lastStatisticsTime.Some? then Some(lastStatisticsTime.value + MicrosPerDay)
    else if table == [] then None
    else Some(MinTime(table))
  }

  /** The number of whole or partial days from `start` up to `end`. */
  function DaysBefore(start: int, end: int): nat
  {
    if start < end then (end - start - 1) / MicrosPerDay + 1 else 0
  }

  lemma MulStep(a: int, b: int, d: int)
    requires d > 0
    ensures a < b ==> a * d + d <= b * d
  {
    if a < b {
      var k := b - a - 1;
      assert k * d >= 0;
      assert b * d == a * d + k * d + d;
    }
  }

  /** The quotient of `e` by `d` is the `n` with `n * d <= e < (n + 1) * d`. */
  lemma DivUnique(e: int, d: int, n: int)
    requires d > 0 && n * d <= e < (n + 1) * d
    ensures e / d == n
  {
    var q, r := e / d, e % d;
    assert e == q * d + r;
    MulStep(q, n, d);
    MulStep(n, q, d);
  }

  /** The start of the `k`-th day counted from `start`. */
  function DayStart(start: int, k: nat): int
  {
    if k == 0 then start else DayStart(start, k - 1) + MicrosPerDay
  }

  lemma {:induction false} DayStartValue(start: int, k: nat)
    ensures DayStart(start, k) == start + k * MicrosPerDay
  {
    if k > 0 {
      DayStartValue(start, k - 1);
    }
  }

  /** A count of days that reaches `end` with its last day but not before is `DaysBefore(start, end)`. */
  lemma DaysBeforeUnique(start: int, end: int, n: nat)
    requires DayStart(start, n) >= end
    requires n == 0 || DayStart(start, n - 1) < end
    ensures n == DaysBefore(start, end)
  {
    DayStartValue(start, n);
    if n > 0 {
      DayStartValue(start, n - 1);
      assert (n - 1 + 1) * MicrosPerDay == n * MicrosPerDay;
      DivUnique(end - start - 1, MicrosPerDay, n - 1);
    }
  }

  /**
   * The per-day loop of `update_global_statistics`: one item for each day
   * from the start while the day begins before the last midnight.
   */
  method UpdateGlobalStatistics(lastStatisticsTime: Option<int>, table: seq<TravelledDistance>, lastMidnight: int)
    returns (items: seq<GlobalStatistics>)
    ensures StatisticsStart(lastStatisticsTime, table).None? ==> items == []
    ensures StatisticsStart(lastStatisticsTime, table).Some? ==>
      var start := StatisticsStart(lastStatisticsTime, table).value;
      && |items| == DaysBefore(start, lastMidnight)
      && DayStart(start, |items|) >= lastMidnight
      && forall k :: 0 <= k < |items| ==>
           && DayStart(start, k) < lastMidnight
           && items[k].time == DayStart(start, k)
           && items[k] == DayStatistics(table, DayRows(table, DayStart(start, k)), DayStart(start, k))
  {
    var start := StatisticsStart(lastStatisticsTime, table);
    if start.None? {
      return [];
    }
    var timeStart := start.value;
    items := [];
    while timeStart < lastMidnight
      invariant timeStart == DayStart(start.value, |items|)
      invariant |items| == 0 || DayStart(start.value, |items| - 1) < lastMidnight
      invariant forall k :: 0 <= k < |items| ==>
        && DayStart(start.value, k) < lastMidnight
        && items[k].time == DayStart(start.value, k)
        && items[k] == DayStatistics(table, DayRows(table, DayStart(start.value, k)), DayStart(start.value, k))
      decreases lastMidnight - timeStart
    {
      var stats := GlobalStatisticsForDay(table, DayRows(table, timeStart), timeStart);
      ghost var before := items;
      items := items + [stats];
      forall k | 0 <= k < |items|
        ensures && DayStart(start.value, k) < lastMidnight
                && items[k].time == DayStart(start.value, k)
                && items[k] == DayStatistics(table, DayRows(table, DayStart(start.value, k)), DayStart(start.value, k))
      {
        if k < |before| {
          assert items[k] == before[k];
        } else {
          assert k == |before|;
          assert DayStart(start.value, |before|) == timeStart;
          assert items[k] == stats;
        }
      }
      timeStart := timeStart + MicrosPerDay;
    }
    DaysBeforeUnique(start.value, lastMidnight, |items|);
  }

  /** 1971-01-01 00:00, the time used when a user has no row yet. */
  const DefaultMaxTime: int := 365 * MicrosPerDay

  /** `get_max_time_from_table`: the latest of a user's times, or the default when there is none. */
  function MaxTimeFromTable(times: seq<int>): (t: int)
    ensures times == [] ==> t == DefaultMaxTime
    ensures times != [] ==> t in times && forall x :: x in times ==> x <= t
  {
    if times == [] then DefaultMaxTime
    else if |times| == 1 then times[0]
    else
      var front := times[..|times| - 1];
      assert times == front + [times[|times| - 1]];
      var m := MaxTimeFromTable(front);
      if times[|times| - 1] > m then times[|times| - 1] else m
  }

  // ----- Energy ratings ------------------------------------------------------

  /** A GeoJSON point's coordinates. */
  datatype Coord = Coord(longitude: real, latitude: real)

  /** A filtered location point of a user. */
  datatype Point = Point(time: int, activity: string, lineType: Option<string>, location: Coord)

  /** The distance accumulators of an energy rating. */
  datatype Category = MassTransitA | MassTransitB | MassTransitC | InVehicle | OnBicycle | Running | Walking

  /** A user's energy rating for one day: the kilometres travelled in each category. */
  datatype EnergyRating = EnergyRating(
    userId: int, date: int,
    massTransitA: real, massTransitB: real, massTransitC: real,
    inVehicle: real, onBicycle: real, running: real, walking: real)

  function NewRating(userId: int, date: int): EnergyRating
  {
    EnergyRating(userId, date, 0.0, 0.0, 0.0, 0.0, 0.0, 0.0, 0.0)
  }

  function Distance(r: EnergyRating, c: Category): real
  {
    match c
    case MassTransitA => r.massTransitA
    case MassTransitB => r.massTransitB
    case MassTransitC => r.massTransitC
    case InVehicle => r.inVehicle
    case OnBicycle => r.onBicycle
    case Running => r.running
    case Walking => r.walking
  }

  /** A rating with nothing travelled in any category. */
  predicate IsEmpty(r: EnergyRating)
  {
    && r.massTransitA == 0.0 && r.massTransitB == 0.0 && r.massTransitC == 0.0
    && r.inVehicle == 0.0 && r.onBicycle == 0.0 && r.running == 0.0 && r.walking == 0.0
  }

  lemma IsEmptyDistances(r: EnergyRating)
    ensures IsEmpty(r) <==> forall c :: Distance(r, c) == 0.0
  {
    if forall c :: Distance(r, c) == 0.0 {
      assert Distance(r, MassTransitA) == 0.0 && Distance(r, MassTransitB) == 0.0 && Distance(r, MassTransitC) == 0.0;
      assert Distance(r, InVehicle) == 0.0 && Distance(r, OnBicycle) == 0.0;
      assert Distance(r, Running) == 0.0 && Distance(r, Walking) == 0.0;
    }
  }

  /** Adds `d` kilometres to one category and leaves the others as they were. */
  function AddDistance(r: EnergyRating, c: Category, d: real): (r': EnergyRating)
    ensures r'.userId == r.userId && r'.date == r.date
    ensures forall c' :: Distance(r', c') == Distance(r, c') + (if c' == c then d else 0.0)
  {
    match c
    case MassTransitA => r.(massTransitA := r.massTransitA + d)
    case MassTransitB => r.(massTransitB := r.massTransitB + d)
    case MassTransitC => r.(massTransitC := r.massTransitC + d)
    case InVehicle => r.(inVehicle := r.inVehicle + d)
    case OnBicycle => r.(onBicycle := r.onBicycle + d)
    case Running => r.(running := r.running + d)
    case Walking => r.(walking := r.walking + d)
  }

  /** The category a point's distance counts in, if any. */
  function CategoryOf(activity: string, lineType: Option<string>): Option<Category>
  {
    if activity == "IN_VEHICLE" then
      if lineType == Some("TRAIN") then Some(MassTransitA)
      else if lineType == Some("TRAM") || lineType == Some("SUBWAY") then Some(MassTransitB)
      else if lineType == Some("BUS") then Some(MassTransitC)
      else Some(InVehicle)
    else if activity == "ON_BICYCLE" then Some(OnBicycle)
    else if activity == "RUNNING" then Some(Running)
    else if activity == "WALKING" then Some(Walking)
    else None
  }

  /**
   * Only the four known activities count, each in its own category; in a
   * vehicle a train is mass transit A, a tram or subway B and a bus C, and
   * any other line (or none) is plain in-vehicle travel.
   */
  lemma CategoryRules(activity: string, lineType: Option<string>)
    ensures activity == "IN_VEHICLE" && lineType == Some("TRAIN") ==> CategoryOf(activity, lineType) == Some(MassTransitA)
    ensures activity == "IN_VEHICLE" && (lineType == Some("TRAM") || lineType == Some("SUBWAY")) ==>
      CategoryOf(activity, lineType) == Some(MassTransitB)
    ensures activity == "IN_VEHICLE" && lineType == Some("BUS") ==> CategoryOf(activity, lineType) == Some(MassTransitC)
    ensures activity == "ON_BICYCLE" ==> CategoryOf(activity, lineType) == Some(OnBicycle)
    ensures activity == "RUNNING" ==> CategoryOf(activity, lineType) == Some(Running)
    ensures activity == "WALKING" ==> CategoryOf(activity, lineType) == Some(Walking)
    ensures CategoryOf(activity, lineType).None? <==>
      activity != "IN_VEHICLE" && activity != "ON_BICYCLE" && activity != "RUNNING" && activity != "WALKING"
    ensures activity != "IN_VEHICLE" ==> CategoryOf(activity, lineType) == CategoryOf(activity, None)
    ensures CategoryOf(activity, lineType) in {Some(MassTransitA), Some(MassTransitB), Some(MassTransitC), Some(InVehicle)}
      <==> activity == "IN_VEHICLE"
    ensures activity == "IN_VEHICLE" && (lineType.None? || lineType.value !in {"TRAIN", "TRAM", "SUBWAY", "BUS"}) ==>
      CategoryOf(activity, lineType) == Some(InVehicle)
  {
  }

  /** The loop state of `get_ratings_from_rows`. */
  datatype RatingState = RatingState(
    previousTime: int, currentDate: int, previousLocation: Coord,
    rating: EnergyRating, ratings: seq<EnergyRating>)

  /** Closes a rating: it is kept only when something was travelled. */
  function Flush(rating: EnergyRating, ratings: seq<EnergyRating>): seq<EnergyRating>
  {
    if IsEmpty(rating) then ratings else ratings + [rating]
  }

  /** `p` lies more than `maxGap` seconds after the reference time. */
  predicate IsGap(p: Point, previousTime: int, maxGap: int)
  {
    p.time - previousTime > maxGap * MicrosPerSecond
  }

  /** The state before the first point is inspected. */
  function StartState(userId: int, first: Point): RatingState
  {
    var date := Midnight(first.time);
    RatingState(first.time, date, first.location, NewRating(userId, date), [])
  }

  /** The first half of an iteration: a point a full day after the current date closes the rating. */
  function NewDay(userId: int, s: RatingState, p: Point): RatingState
  {
    if p.time - s.currentDate >= MicrosPerDay then
      var date := Midnight(p.time);
      s.(currentDate := date, rating := NewRating(userId, date), ratings := Flush(s.rating, s.ratings))
    else s
  }

  /** The second half: a point after a gap becomes the reference, any other adds its distance. */
  function Advance(dist: (Coord, Coord) -> real, maxGap: int, s: RatingState, p: Point): RatingState
  {
    if IsGap(p, s.previousTime, maxGap) then
      s.(previousTime := p.time, previousLocation := p.location)
    else
      var d := dist(s.previousLocation, p.location) / 1000.0;
      var c := CategoryOf(p.activity, p.lineType);
      s.(previousLocation := p.location, rating := if c.Some? then AddDistance(s.rating, c.value, d) else s.rating)
  }

  /** One iteration of the loop over the remaining points. */
  function Step(userId: int, dist: (Coord, Coord) -> real, maxGap: int, s: RatingState, p: Point): RatingState
  {
    Advance(dist, maxGap, NewDay(userId, s, p), p)
  }

  /** The loop state once the first `n` points are processed. */
  function StateAfter(userId: int, dist: (Coord, Coord) -> real, maxGap: int, points: seq<Point>, n: nat): RatingState
    requires 1 <= n <= |points|
  {
    if n == 1 then StartState(userId, points[0])
    else Step(userId, dist, maxGap, StateAfter(userId, dist, maxGap, points, n - 1), points[n - 1])
  }

  /** The non-empty day ratings of a user's points. */
  function Ratings(points: seq<Point>, userId: int, dist: (Coord, Coord) -> real, maxGap: int): seq<EnergyRating>
  {
    if points == [] then []
    else
      var s := StateAfter(userId, dist, maxGap, points, |points|);
      Flush(s.rating, s.ratings)
  }

  /**
   * `get_ratings_from_rows`: walks the points, closing a rating whenever a
   * point is a full day after the current date, and adds the distance since
   * the previous point to the category of the point unless it follows a gap.
   */
  method GetRatingsFromRows(points: seq<Point>, userId: int, dist: (Coord, Coord) -> real, maxGap: int)
    returns (ratings: seq<EnergyRating>)
    ensures ratings == Ratings(points, userId, dist, maxGap)
  {
    ratings := [];
    if |points| == 0 {
      return ratings;
    }
    var previousTime := points[0].time;
    var currentDate := Midnight(points[0].time);
    var previousLocation := points[0].location;
    var rating := NewRating(userId, currentDate);
    var i := 1;
    while i < |points|
      invariant 1 <= i <= |points|
      invariant RatingState(previousTime, currentDate, previousLocation, rating, ratings)
        == StateAfter(userId, dist, maxGap, points, i)
    {
      var p := points[i];
      ghost var s := RatingState(previousTime, currentDate, previousLocation, rating, ratings);
      if p.time - currentDate >= MicrosPerDay {
        currentDate := Midnight(p.time);
        if !IsEmpty(rating) {
          ratings := ratings + [rating];
        }
        rating := NewRating(userId, currentDate);
      }
      ghost var mid := RatingState(previousTime, currentDate, previousLocation, rating, ratings);
      assert mid == NewDay(userId, s, p);
      if IsGap(p, previousTime, maxGap) {
        previousTime := p.time;
        previousLocation := p.location;
        assert RatingState(previousTime, currentDate, previousLocation, rating, ratings) == Advance(dist, maxGap, mid, p);
      } else {
        var distance := dist(previousLocation, p.location) / 1000.0;
        previousLocation := p.location;
        var c := CategoryOf(p.activity, p.lineType);
        if c.Some? {
          rating := AddDistance(rating, c.value, distance);
        }
        assert rating == if c.Some? then AddDistance(mid.rating, c.value, distance) else mid.rating;
        assert RatingState(previousTime, currentDate, previousLocation, rating, ratings) == Advance(dist, maxGap, mid, p);
      }
      i := i + 1;
    }
    if !IsEmpty(rating) {
      ratings := ratings + [rating];
    }
  }

  /**
   * What the loop keeps: the open rating belongs to the user and starts at
   * the current date, a midnight no earlier than the first; the closed
   * ratings are non-empty, belong to the user, start at midnights from the
   * first date on, strictly increase and precede the current date.
   */
  predicate Consistent(userId: int, first: int, s: RatingState)
  {
    && s.rating.userId == userId && s.rating.date == s.currentDate
    && s.currentDate % MicrosPerDay == 0 && first <= s.currentDate
    && (forall i :: 0 <= i < |s.ratings| ==>
          && !IsEmpty(s.ratings[i]) && s.ratings[i].userId == userId
          && s.ratings[i].date % MicrosPerDay == 0
          && first <= s.ratings[i].date < s.currentDate)
    && (forall i, j :: 0 <= i < j < |s.ratings| ==> s.ratings[i].date < s.ratings[j].date)
  }

  lemma StepConsistent(userId: int, dist: (Coord, Coord) -> real, maxGap: int, first: int, s: RatingState, p: Point)
    requires Consistent(userId, first, s)
    ensures Consistent(userId, first, Step(userId, dist, maxGap, s, p))
  {
    if p.time - s.currentDate >= MicrosPerDay {
      assert Midnight(p.time) > s.currentDate;
    }
  }

  lemma {:induction false} StateAfterConsistent(userId: int, dist: (Coord, Coord) -> real, maxGap: int, points: seq<Point>, n: nat)
    requires 1 <= n <= |points|
    ensures Consistent(userId, Midnight(points[0].time), StateAfter(userId, dist, maxGap, points, n))
  {
    if n > 1 {
      StateAfterConsistent(userId, dist, maxGap, points, n - 1);
      StepConsistent(userId, dist, maxGap, Midnight(points[0].time), StateAfter(userId, dist, maxGap, points, n - 1), points[n - 1]);
    }
  }

  /**
   * No points give no ratings; otherwise every rating is non-empty, is the
   * user's, starts at a midnight no earlier than the first point's day, and
   * the dates strictly increase.
   */
  lemma RatingsWellFormed(points: seq<Point>, userId: int, dist: (Coord, Coord) -> real, maxGap: int)
    ensures points == [] ==> Ratings(points, userId, dist, maxGap) == []
    ensures var rs := Ratings(points, userId, dist, maxGap);
      && (forall i :: 0 <= i < |rs| ==>
            && !IsEmpty(rs[i]) && rs[i].userId == userId && rs[i].date % MicrosPerDay == 0
            && Midnight(points[0].time) <= rs[i].date)
      && (forall i, j :: 0 <= i < j < |rs| ==> rs[i].date < rs[j].date)
  {
    if points != [] {
      StateAfterConsistent(userId, dist, maxGap, points, |points|);
    }
  }

  /**
   * A gap is measured from the last point that followed a gap, not from the
   * previous point: a point more than `maxGap` seconds after that reference
   * becomes the new reference, and only then does the reference time move.
   * Within the current day a gap point adds nothing and closes nothing, and
   * any other point adds the distance from the previous point to its
   * category, if it has one.
   */
  lemma StepGap(userId: int, dist: (Coord, Coord) -> real, maxGap: int, s: RatingState, p: Point)
    ensures var s' := Step(userId, dist, maxGap, s, p);
      && (IsGap(p, s.previousTime, maxGap) ==> s'.previousTime == p.time)
      && (!IsGap(p, s.previousTime, maxGap) ==> s'.previousTime == s.previousTime)
      && s'.previousLocation == p.location
      && (p.time - s.currentDate < MicrosPerDay ==>
            && s'.currentDate == s.currentDate && s'.ratings == s.ratings
            && (IsGap(p, s.previousTime, maxGap) ==> s'.rating == s.rating)
            && (!IsGap(p, s.previousTime, maxGap) ==>
                  var c := CategoryOf(p.activity, p.lineType);
                  s'.rating == if c.Some? then AddDistance(s.rating, c.value, dist(s.previousLocation, p.location) / 1000.0)
                               else s.rating))
  {
  }

  /**
   * A point a full day or more after the current date closes the open
   * rating (kept only when non-empty) and opens a new one at the point's
   * midnight; the point's own distance, unless it follows a gap, is the
   * only thing in the new rating.
   */
  lemma StepNewDay(userId: int, dist: (Coord, Coord) -> real, maxGap: int, s: RatingState, p: Point)
    requires p.time - s.currentDate >= MicrosPerDay
    ensures var s' := Step(userId, dist, maxGap, s, p);
      && s'.currentDate == Midnight(p.time)
      && s'.ratings == Flush(s.rating, s.ratings)
      && s'.rating.userId == userId && s'.rating.date == Midnight(p.time)
      && (IsGap(p, s.previousTime, maxGap) ==> s'.rating == NewRating(userId, Midnight(p.time)))
      && (!IsGap(p, s.previousTime, maxGap) ==>
            forall c :: Distance(s'.rating, c) ==
              if CategoryOf(p.activity, p.lineType) == Some(c) then dist(s.previousLocation, p.location) / 1000.0 else 0.0)
  {
  }

  /**
   * Walking points 30 s apart with a 60 s gap limit: the fourth point is
   * 90 s after the first, the unchanged reference, so it counts as a gap and
   * only two of the three 1 km steps are rated.
   */
  lemma ExampleSteadyWalk()
    ensures var here := Coord(0.0, 0.0);
      var points := seq(4, k requires 0 <= k < 4 => Point(k * 30 * MicrosPerSecond, "WALKING", None, here));
      Ratings(points, 7, (a: Coord, b: Coord) => 1000.0, 60) == [NewRating(7, 0).(walking := 2.0)]
  {
    var here := Coord(0.0, 0.0);
    var points := seq(4, k requires 0 <= k < 4 => Point(k * 30 * MicrosPerSecond, "WALKING", None, here));
    var dist := (a: Coord, b: Coord) => 1000.0;
    var s0 := StartState(7, points[0]);
    assert s0 == RatingState(0, 0, here, NewRating(7, 0), []);
    assert CategoryOf("WALKING", None) == Some(Walking);
    var s1 := Step(7, dist, 60, s0, points[1]);
    assert s1 == RatingState(0, 0, here, NewRating(7, 0).(walking := 1.0), []);
    var s2 := Step(7, dist, 60, s1, points[2]);
    assert s2 == RatingState(0, 0, here, NewRating(7, 0).(walking := 2.0), []);
    var s3 := Step(7, dist, 60, s2, points[3]);
    assert IsGap(points[3], s2.previousTime, 60);
    assert s3 == RatingState(90 * MicrosPerSecond, 0, here, NewRating(7, 0).(walking := 2.0), []);
    assert StateAfter(7, dist, 60, points, 2) == s1;
    assert StateAfter(7, dist, 60, points, 3) == s2;
    assert StateAfter(7, dist, 60, points, 4) == s3;
  }

}
