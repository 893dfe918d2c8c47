/** `RideHistoryService`: the ride log, its queries and its statistics.

    The table is a sequence in storage order with the next IDENTITY value
    beside it. The repository's derived queries are filter-then-sort over
    that sequence.
 */
module RideHistory {
  import opened Wrappers
  import opened Clock
  import opened Bikes
  import opened RideFilters
  import opened RideOrder
  import Seqs

  /** The `ride_history` table and the next id the database hands out. */
  datatype RideLog = RideLog(rides: seq<Ride>, nextId: int)

  /** Every row has its own id, below the next id to be assigned. */
  predicate WellFormed(log: RideLog) {
    && (forall i :: 0 <= i < |log.rides| ==> log.rides[i].id < log.nextId)
    && (forall j, k :: 0 <= j < k < |log.rides| ==> log.rides[j].id != log.rides[k].id)
  }

  function StartTimeOf(r: Ride): int { r.startTime }

  /** `createRideHistory(bikeId, userId, startStationId, bikeType)` at time
      `now`: a new IN_PROGRESS row starting now, with no end fields. */
  function CreateRideHistory(log: RideLog, bikeId: BikeId, userId: UserId, startStationId: Option<StationId>,
                             bikeType: Option<string>, now: Time): (r: (RideLog, Ride))
    ensures r.0.rides == log.rides + [r.1] && r.0.nextId == log.nextId + 1
    ensures r.1.id == log.nextId && r.1.userId == userId && r.1.bikeId == bikeId
    ensures r.1.startStationId == startStationId && r.1.bikeType == bikeType
    ensures r.1.startTime == now && r.1.status == IN_PROGRESS
    ensures r.1.endStationId.None? && r.1.endTime.None?
    ensures r.1.durationMinutes.None? && r.1.distanceKm.None? && r.1.cost.None?
    ensures WellFormed(log) ==> WellFormed(r.0)
  {
    var ride := Ride(log.nextId, userId, bikeId, startStationId, None, now, None, None, None, None, IN_PROGRESS, bikeType);
    (RideLog(log.rides + [ride], log.nextId + 1), ride)
  }

  /** Position of the row with this id (`findById`). */
  function FindRide(rides: seq<Ride>, id: int): (r: Option<nat>)
    ensures r.Some? ==> r.value < |rides| && rides[r.value].id == id
    ensures r.None? <==> forall j :: 0 <= j < |rides| ==> rides[j].id != id
  {
    Seqs.IndexOf(rides, (x: Ride) => x.id == id)
  }

  /** `updateRideHistory(id, endStationId, duration, distance, cost)` at
      time `now`: the row is completed with the trip's figures. */
  function UpdateRideHistory(log: RideLog, id: int, endStationId: Option<StationId>,
                             durationMinutes: Option<real>, distanceKm: Option<real>, cost: Option<real>,
                             now: Time): (r: Result<(RideLog, Ride)>)
    ensures r.Ok? <==> exists j :: 0 <= j < |log.rides| && log.rides[j].id == id
    ensures r.Err? ==> r.error == IllegalArgument("Ride history not found")
    ensures r.Ok? ==> var (log', ride) := r.value; var i := FindRide(log.rides, id).value;
            && log' == log.(rides := log.rides[i := ride])
            && ride == log.rides[i].(endStationId := endStationId, endTime := Some(now),
                                     durationMinutes := durationMinutes, distanceKm := distanceKm,
                                     cost := cost, status := COMPLETED)
    ensures r.Ok? && WellFormed(log) ==> WellFormed(r.value.0)
  {
    match FindRide(log.rides, id)
    case None => Err(IllegalArgument("Ride history not found"))
    case Some(i) =>
      var ride := log.rides[i].(endStationId := endStationId, endTime := Some(now),
                                durationMinutes := durationMinutes, distanceKm := distanceKm,
                                cost := cost, status := COMPLETED);
      Ok((log.(rides := log.rides[i := ride]), ride))
  }

  predicate InProgressFor(r: Ride, userId: UserId) {
    r.userId == userId && r.status == IN_PROGRESS
  }

  /** `findInProgressRide(userId)`: the rider's IN_PROGRESS row with the
      latest start time, when there is one. */
  function FindInProgressRide(rides: seq<Ride>, userId: UserId): (r: Option<Ride>)
    ensures r.None? <==> forall j :: 0 <= j < |rides| ==> !InProgressFor(rides[j], userId)
    ensures r.Some? ==> r.value in rides && InProgressFor(r.value, userId)
    ensures r.Some? ==> forall j :: 0 <= j < |rides| && InProgressFor(rides[j], userId)
                                    ==> rides[j].startTime <= r.value.startTime
  {
    Seqs.FirstByKeyDesc(rides, (x: Ride) => InProgressFor(x, userId), StartTimeOf)
  }

  /** The rows the combined specification admits, in storage order. */
  function Matching(rides: seq<Ride>, criteria: Criteria, strategies: seq<FilterStrategy>): (r: seq<Ride>)
    ensures forall i :: 0 <= i < |r| ==> r[i] in rides && SpecAdmits(criteria, strategies, r[i])
    ensures forall i :: 0 <= i < |rides| && SpecAdmits(criteria, strategies, rides[i]) ==> rides[i] in r
    ensures multiset(r) <= multiset(rides)
    ensures (forall i :: 0 <= i < |rides| ==> SpecAdmits(criteria, strategies, rides[i])) ==> r == rides
  {
    var p := (x: Ride) => SpecAdmits(criteria, strategies, x);
    Seqs.FilterAllPass(rides, p);
    Seqs.Filter(rides, p)
  }

  /** Page `pr.page` of `pr.size` rows of `matching` sorted on `property`
      in the requested direction: the rows that `findAll` returns for one
      page request. */
  function SortedPage(matching: seq<Ride>, property: RideProperty, pr: PageRequest): (r: seq<Ride>)
    ensures |r| <= pr.size
    ensures forall i :: 0 <= i < |r| ==> r[i] in matching
    ensures SortedBy(r, property, pr.direction)
    ensures |r| == PageLength(|matching|, pr.page, pr.size)
    ensures r == PageOf(SortRides(matching, property, pr.direction), pr.page, pr.size)
  {
    var sorted := SortRides(matching, property, pr.direction);
    var content := PageOf(sorted, pr.page, pr.size);
    assert |sorted| == |matching|;
    SliceOfSorted(matching, sorted, PageStart(|sorted|, pr.page, pr.size), content, property, pr.direction);
    content
  }

  /** A run of a sorted rearrangement of `matching` is sorted and holds
      only rows of `matching`. */
  lemma SliceOfSorted(matching: seq<Ride>, sorted: seq<Ride>, from: nat, content: seq<Ride>,
                      property: RideProperty, dir: Direction)
    requires multiset(sorted) == multiset(matching) && SortedBy(sorted, property, dir)
    requires from + |content| <= |sorted| && content == sorted[from..from + |content|]
    ensures SortedBy(content, property, dir)
    ensures forall i :: 0 <= i < |content| ==> content[i] in matching
  {
    SliceSorted(sorted, from, from + |content|, property, dir);
    forall i | 0 <= i < |content| ensures content[i] in matching {
      assert content[i] == sorted[from + i];
      assert content[i] in multiset(sorted);
    }
  }

  /** On the first page, an admitted row that is left off means the page
      is full and the row sorts no earlier than the page's last row. */
  lemma FirstPageHoldsEarliest(matching: seq<Ride>, property: RideProperty, pr: PageRequest, x: Ride)
    requires pr.page == 0 && pr.size > 0 && x in matching
    ensures var r := SortedPage(matching, property, pr);
            x !in r ==> |r| == pr.size && InOrder(property, pr.direction, r[|r| - 1], x)
  {
    var r := SortedPage(matching, property, pr);
    if x !in r {
      var sorted := SortRides(matching, property, pr.direction);
      assert x in multiset(matching);
      assert x in multiset(sorted);
      var k :| 0 <= k < |sorted| && sorted[k] == x;
      assert r == sorted[..|r|];
      assert r[|r| - 1] == sorted[|r| - 1];
    }
  }

  /** The shared body of `getUserRideHistory` and `getAllRideHistories`:
      the criteria for `userId` and the DTO, the page request, and
      `findAll(spec, pageable)`, which sorts the admitted rows on the
      requested property and returns one page of them. A sort on a
      property the entity does not have fails. */
  function QueryRides(rides: seq<Ride>, userId: Option<UserId>, filter: Option<FilterDto>,
                      strategies: seq<FilterStrategy>): (r: Result<seq<Ride>>)
    ensures CreatePageable(filter).Err? ==> r == Err(CreatePageable(filter).error)
    ensures CreatePageable(filter).Ok? ==> var pr := CreatePageable(filter).value;
            && (r.Ok? <==> PropertyNamed(pr.sortBy).Some?)
            && (r.Err? ==> r.error == UnknownProperty(Decapitalize(pr.sortBy)))
    ensures r.Ok? ==> var pr := CreatePageable(filter).value;
            var criteria := BuildFilterCriteria(userId, filter);
            && r.value == SortedPage(Matching(rides, criteria, strategies), PropertyNamed(pr.sortBy).value, pr)
            && |r.value| <= pr.size
            && SortedBy(r.value, PropertyNamed(pr.sortBy).value, pr.direction)
            && (forall i :: 0 <= i < |r.value| ==> r.value[i] in rides && SpecAdmits(criteria, strategies, r.value[i]))
  {
    var criteria := BuildFilterCriteria(userId, filter);
    var pr :- CreatePageable(filter);
    match PropertyNamed(pr.sortBy)
    case None => Err(UnknownProperty(Decapitalize(pr.sortBy)))
    case Some(property) =>
      var matching := Matching(rides, criteria, strategies);
      var content := SortedPage(matching, property, pr);
      assert forall i :: 0 <= i < |content| ==> content[i] in matching;
      Ok(content)
  }

  /** `getUserRideHistory(userId, filter)`: the shared query for this
      rider, so every row returned is the rider's, or the DTO's user's
      when the DTO names one. */
  function GetUserRideHistory(rides: seq<Ride>, userId: UserId, filter: Option<FilterDto>,
                              strategies: seq<FilterStrategy>): (r: Result<seq<Ride>>)
    ensures r == QueryRides(rides, Some(userId), filter, strategies)
    ensures r.Ok? ==> forall i :: 0 <= i < |r.value| ==>
              r.value[i].userId == (if filter.Some? && filter.value.userId.Some? then filter.value.userId.value else userId)
  {
    var q := QueryRides(rides, Some(userId), filter, strategies);
    if q.Ok? then
      var criteria := BuildFilterCriteria(Some(userId), filter);
      forall i | 0 <= i < |q.value| ensures UserAdmits(criteria, q.value[i]) {
        SpecAdmitsAll(criteria, strategies, q.value[i]);
      }
      q
    else q
  }

  /** `getAllRideHistories(filter)`: the shared query with no rider of its
      own; only a user id in the DTO restricts the rows to one rider. */
  function GetAllRideHistories(rides: seq<Ride>, filter: Option<FilterDto>,
                               strategies: seq<FilterStrategy>): (r: Result<seq<Ride>>)
    ensures r == QueryRides(rides, None, filter, strategies)
    ensures r.Ok? && filter.Some? && filter.value.userId.Some? ==>
              forall i :: 0 <= i < |r.value| ==> r.value[i].userId == filter.value.userId.value
  {
    var q := QueryRides(rides, None, filter, strategies);
    if q.Ok? then
      var criteria := BuildFilterCriteria(None, filter);
      forall i | 0 <= i < |q.value| ensures UserAdmits(criteria, q.value[i]) {
        SpecAdmitsAll(criteria, strategies, q.value[i]);
      }
      q
    else q
  }

  /** Without a filter the operator gets the 20 most recently started rows
      of the whole table, newest first: every row when there are at most
      20, and otherwise a full page that no row left off started after. */
  lemma AllHistoriesUnfiltered(rides: seq<Ride>, strategies: seq<FilterStrategy>)
    ensures GetAllRideHistories(rides, None, strategies).Ok?
    ensures var r := GetAllRideHistories(rides, None, strategies).value;
            && |r| == (if |rides| <= 20 then |rides| else 20)
            && (forall i, j :: 0 <= i < j < |r| ==> r[i].startTime >= r[j].startTime)
            && (|rides| <= 20 ==> forall x :: x in rides ==> x in r)
            && (forall x :: x in rides && x !in r ==> |r| == 20 && x.startTime <= r[19].startTime)
  {
    var pr := PageRequest(0, 20, "startTime", DESC);
    UnfilteredQuery(rides, strategies);
    NewestFirstPage(rides, pr, GetAllRideHistories(rides, None, strategies).value);
  }

  /** With no filter the query is the first page of the whole table
      sorted by start time, newest first. */
  lemma UnfilteredQuery(rides: seq<Ride>, strategies: seq<FilterStrategy>)
    ensures GetAllRideHistories(rides, None, strategies)
            == Ok(SortedPage(rides, ByStartTime, PageRequest(0, 20, "startTime", DESC)))
  {
    var criteria := BuildFilterCriteria(None, None);
    forall i | 0 <= i < |rides| ensures SpecAdmits(criteria, strategies, rides[i]) {
      NoFilterAdmitsEverything(strategies, rides[i]);
    }
    assert Matching(rides, criteria, strategies) == rides;
    assert PropertyNamed("startTime") == Some(ByStartTime);
  }

  /** The first page of 20 rows newest first, over a whole table. */
  lemma NewestFirstPage(rides: seq<Ride>, pr: PageRequest, r: seq<Ride>)
    requires pr == PageRequest(0, 20, "startTime", DESC) && r == SortedPage(rides, ByStartTime, pr)
    ensures |r| == (if |rides| <= 20 then |rides| else 20)
    ensures forall i, j :: 0 <= i < j < |r| ==> r[i].startTime >= r[j].startTime
    ensures |rides| <= 20 ==> forall x :: x in rides ==> x in r
    ensures forall x :: x in rides && x !in r ==> |r| == 20 && x.startTime <= r[19].startTime
  {
    forall i, j | 0 <= i < j < |r| ensures r[i].startTime >= r[j].startTime {
      StartTimeDescending(r[i], r[j]);
    }
    if |rides| <= 20 {
      var sorted := SortRides(rides, ByStartTime, DESC);
      assert r == sorted;
      forall x | x in rides ensures x in r {
        assert x in multiset(rides);
        assert x in multiset(r);
      }
    }
    forall x | x in rides && x !in r ensures |r| == 20 && x.startTime <= r[19].startTime {
      FirstPageHoldsEarliest(rides, ByStartTime, pr, x);
      StartTimeDescending(r[|r| - 1], x);
    }
  }

  /** Where page `page` of `size` rows starts in a list of `n` rows. */
  function PageStart(n: nat, page: nat, size: nat): (k: nat)
    ensures k <= n
    ensures n <= page * size ==> k == n
    ensures n > page * size ==> k == page * size
  {
    if page * size <= n then page * size else n
  }

  /** How many rows page `page` of `size` rows holds out of `n`: none past
      the end, `size` when enough rows follow its start, and the rest of
      the rows otherwise. */
  function PageLength(n: nat, page: nat, size: nat): (k: nat)
    ensures k <= size && PageStart(n, page, size) + k <= n
    ensures n <= page * size ==> k == 0
    ensures n >= (page + 1) * size ==> k == size
    ensures page * size < n < (page + 1) * size ==> k == n - page * size
  {
    var from := PageStart(n, page, size);
    assert (page + 1) * size == page * size + size;
    if from + size <= n then size else n - from
  }

  /** Page `page` of `size` rows of `s`: the contiguous run that starts at
      `page * size`, cut short at the end of `s`. */
  function PageOf<T>(s: seq<T>, page: nat, size: nat): (r: seq<T>)
    ensures |r| == PageLength(|s|, page, size)
    ensures r == s[PageStart(|s|, page, size)..PageStart(|s|, page, size) + |r|]
  {
    var from := PageStart(|s|, page, size);
    s[from..from + PageLength(|s|, page, size)]
  }

  /** `RideStatisticsDTO`: the totals, the averages, and the most used
      start station, end station and bike type. */
  datatype RideStatistics = RideStatistics(
    totalRides: nat, totalDistance: real, totalCost: real, averageDuration: real, averageDistance: real,
    mostUsedStartStation: Option<StationId>, mostUsedEndStation: Option<StationId>,
    favoriteBikeType: Option<string>)

  function DistanceOf(r: Ride): real { r.distanceKm.GetOr(0.0) }
  function CostOf(r: Ride): real { r.cost.GetOr(0.0) }
  function DurationOf(r: Ride): real { r.durationMinutes.GetOr(0.0) }
  predicate HasDuration(r: Ride) { r.durationMinutes.Some? }
  function StartStationOf(r: Ride): Option<StationId> { r.startStationId }
  function EndStationOf(r: Ride): Option<StationId> { r.endStationId }
  function BikeTypeOf(r: Ride): Option<string> { r.bikeType }

  predicate Owns(userId: UserId, r: Ride) { r.userId == userId }

  /** The rider's rows, in storage order (`findByUserIdOrderByStartTimeDesc`
      without the ordering, which no total, average or count depends on). */
  function RidesOf(rides: seq<Ride>, userId: UserId): seq<Ride>
  {
    Seqs.Filter(rides, (x: Ride) => Owns(userId, x))
  }

  /** `m` is a value that occurs in `s` at least as often as any other
      present value, and nothing exactly when no value is present. */
  predicate IsMostUsed<K(==)>(m: Option<K>, s: seq<Option<K>>) {
    && (m.None? <==> forall i :: 0 <= i < |s| ==> s[i].None?)
    && (m.Some? ==> Some(m.value) in s
                    && forall i :: 0 <= i < |s| ==> multiset(s)[s[i]] <= multiset(s)[Some(m.value)] || s[i].None?)
  }

  /** The most frequent present value of `s` among the candidates `cands`. */
  function BestAmong<K(==)>(s: seq<Option<K>>, cands: seq<Option<K>>): (m: Option<K>)
    ensures m.None? <==> forall i :: 0 <= i < |cands| ==> cands[i].None?
    ensures m.Some? ==> Some(m.value) in cands
    ensures m.Some? ==> forall i :: 0 <= i < |cands| ==> multiset(s)[cands[i]] <= multiset(s)[Some(m.value)] || cands[i].None?
  {
    if |cands| == 0 then None
    else
      var rest := BestAmong(s, cands[1..]);
      assert forall i :: 1 <= i < |cands| ==> cands[i] == cands[1..][i - 1];
      if cands[0].None? then rest
      else if rest.None? || multiset(s)[cands[0]] >= multiset(s)[Some(rest.value)] then cands[0]
      else rest
  }

  /** `groupingBy(key, counting())` followed by `max(comparingByValue())`
      over the non-null keys: a key of maximal count, or null. */
  function MostUsed<K(==)>(s: seq<Option<K>>): (m: Option<K>)
    ensures IsMostUsed(m, s)
  {
    BestAmong(s, s)
  }

  /** A row without a duration contributes nothing to a sum of durations. */
  lemma DurationMasked()
    ensures forall x: Ride :: DurationOf(x) == (if HasDuration(x) then DurationOf(x) else 0.0)
  {
  }

  /** `mapToDouble(getDurationMinutes).average().orElse(0.0)` over the rows
      with a duration: zero when none has one, and otherwise the sum of all
      the durations, a missing one counting as zero, over the number of
      rows that have one. */
  function AverageDuration(mine: seq<Ride>): (a: real)
    ensures Seqs.Count(mine, HasDuration) == 0 ==> a == 0.0
    ensures Seqs.Count(mine, HasDuration) > 0 ==> a == Mean(Seqs.Sum(mine, DurationOf), Seqs.Count(mine, HasDuration))
  {
    var timed := Seqs.Filter(mine, HasDuration);
    var n := |timed|;
    if n == 0 then 0.0
    else
      var total := Seqs.Sum(timed, DurationOf);
      DurationMasked();
      Seqs.SumFilter(mine, HasDuration, DurationOf, DurationOf);
      Mean(total, n)
  }

  /** `getRideStatistics(userId)`: all zero and nothing most used for a
      rider without rides; otherwise a missing distance, cost or duration
      is skipped, the average duration is over the rides that have one, the
      average distance is over all the rider's rides, and each most used
      value is one no other value of that column outnumbers. */
  function GetRideStatistics(rides: seq<Ride>, userId: UserId): (s: RideStatistics)
    ensures (forall j :: 0 <= j < |rides| ==> rides[j].userId != userId)
            ==> s == RideStatistics(0, 0.0, 0.0, 0.0, 0.0, None, None, None)
    ensures s.totalRides > 0 ==> s.averageDistance == Mean(s.totalDistance, s.totalRides)
    ensures s.averageDuration == AverageDuration(RidesOf(rides, userId))
    ensures IsMostUsed(s.mostUsedStartStation, Seqs.MapSeq(RidesOf(rides, userId), StartStationOf))
    ensures IsMostUsed(s.mostUsedEndStation, Seqs.MapSeq(RidesOf(rides, userId), EndStationOf))
    ensures IsMostUsed(s.favoriteBikeType, Seqs.MapSeq(RidesOf(rides, userId), BikeTypeOf))
  {
    var mine := RidesOf(rides, userId);
    if |mine| == 0 then
      assert Seqs.MapSeq(mine, StartStationOf) == [];
      assert Seqs.MapSeq(mine, EndStationOf) == [];
      assert Seqs.MapSeq(mine, BikeTypeOf) == [];
      RideStatistics(0, 0.0, 0.0, 0.0, 0.0, None, None, None)
    else
      var totalDistance := Seqs.Sum(mine, DistanceOf);
      RideStatistics(|mine|, totalDistance, Seqs.Sum(mine, CostOf), AverageDuration(mine), Mean(totalDistance, |mine|),
                     MostUsed(Seqs.MapSeq(mine, StartStationOf)), MostUsed(Seqs.MapSeq(mine, EndStationOf)),
                     MostUsed(Seqs.MapSeq(mine, BikeTypeOf)))
  }

  /** The totals against an independent reading: the number of the rider's
      rows, and the sum over the whole table of each row's distance or cost
      when it is the rider's and zero otherwise. */
  lemma StatisticsTotals(rides: seq<Ride>, userId: UserId)
    ensures var s := GetRideStatistics(rides, userId);
            && s.totalRides == Seqs.Count(rides, (x: Ride) => Owns(userId, x))
            && s.totalDistance == Seqs.Sum(rides, x => if Owns(userId, x) then DistanceOf(x) else 0.0)
            && s.totalCost == Seqs.Sum(rides, x => if Owns(userId, x) then CostOf(x) else 0.0)
  {
    var p := (x: Ride) => Owns(userId, x);
    Seqs.SumFilter(rides, p, DistanceOf, x => if Owns(userId, x) then DistanceOf(x) else 0.0);
    Seqs.SumFilter(rides, p, CostOf, x => if Owns(userId, x) then CostOf(x) else 0.0);
  }

  /** `total / n` in exact arithmetic. */
  function Mean(total: real, n: nat): (m: real)
    requires n > 0
    ensures m * n as real == total
  {
    total / n as real
  }
}
