/** Ride history rows and the criteria that select them: the filter DTO,
    the criteria built from it, the four filter strategies, and the page
    request.

    A JPA `Specification` is modelled as the predicate it imposes on a row.
    SQL comparisons against a NULL column are never true, so a row whose
    column is null never matches an equality or range test on that column.
 */
module RideFilters {
  import opened Wrappers
  import opened Clock
  import opened Bikes
  import Text

  datatype RideStatus = COMPLETED | IN_PROGRESS | CANCELLED

  /** A `RideHistory` row. */
  datatype Ride = Ride(
    id: int,
    userId: UserId,
    bikeId: BikeId,
    startStationId: Option<StationId>,
    endStationId: Option<StationId>,
    startTime: Time,
    endTime: Option<Time>,
    durationMinutes: Option<real>,
    distanceKm: Option<real>,
    cost: Option<real>,
    status: RideStatus,
    bikeType: Option<string>)

  /** `RideHistoryFilterDTO` as received; every field may be absent. */
  datatype FilterDto = FilterDto(
    userId: Option<UserId>,
    startDate: Option<Time>,
    endDate: Option<Time>,
    stationId: Option<StationId>,
    startStationOnly: Option<bool>,
    status: Option<RideStatus>,
    bikeType: Option<string>,
    page: Option<int>,
    size: Option<int>,
    sortBy: Option<string>,
    sortDirection: Option<string>)

  /** `RideHistoryFilterCriteria`. */
  datatype Criteria = Criteria(
    userId: Option<UserId>,
    startDate: Option<Time>,
    endDate: Option<Time>,
    stationId: Option<StationId>,
    startStationOnly: Option<bool>,
    status: Option<RideStatus>,
    bikeType: Option<string>,
    bikeId: Option<BikeId>)

  /** The four strategy beans. */
  datatype FilterStrategy = DateRangeFilter | StationFilter | StatusFilter | BikeTypeFilter

  /** `buildFilterCriteria(userId, filter)`: the DTO's fields are copied, and
      the DTO's own user id, when present, wins over the caller's. */
  function BuildFilterCriteria(userId: Option<UserId>, filter: Option<FilterDto>): (c: Criteria)
    ensures filter.None? ==> c == Criteria(userId, None, None, None, None, None, None, None)
    ensures filter.Some? ==> c.userId == (if filter.value.userId.Some? then filter.value.userId else userId)
    ensures filter.Some? ==> var f := filter.value;
            && c.startDate == f.startDate && c.endDate == f.endDate
            && c.stationId == f.stationId && c.startStationOnly == f.startStationOnly
            && c.status == f.status && c.bikeType == f.bikeType
    ensures c.bikeId.None?
  {
    match filter
    case None => Criteria(userId, None, None, None, None, None, None, None)
    case Some(f) =>
      Criteria(if f.userId.Some? then f.userId else userId,
               f.startDate, f.endDate, f.stationId, f.startStationOnly, f.status, f.bikeType, None)
  }

  /** `DateRangeFilterStrategy`: both bounds are inclusive and both test the START time. */
  predicate DateRangeAdmits(c: Criteria, r: Ride) {
    (c.startDate.None? || r.startTime >= c.startDate.value)
    && (c.endDate.None? || r.startTime <= c.endDate.value)
  }

  /** `StationFilterStrategy`: the start station only when `startStationOnly`
      is TRUE, otherwise either end of the ride. */
  predicate StationAdmits(c: Criteria, r: Ride) {
    match c.stationId
    case None => true
    case Some(id) =>
      if c.startStationOnly == Some(true) then r.startStationId == Some(id)
      else r.startStationId == Some(id) || r.endStationId == Some(id)
  }

  /** `StatusFilterStrategy`. */
  predicate StatusAdmits(c: Criteria, r: Ride) {
    c.status.None? || r.status == c.status.value
  }

  /** `BikeTypeFilterStrategy`: an empty type string filters nothing. */
  predicate BikeTypeAdmits(c: Criteria, r: Ride) {
    c.bikeType.None? || c.bikeType.value == "" || r.bikeType == c.bikeType
  }

  predicate StrategyAdmits(s: FilterStrategy, c: Criteria, r: Ride) {
    match s
    case DateRangeFilter => DateRangeAdmits(c, r)
    case StationFilter => StationAdmits(c, r)
    case StatusFilter => StatusAdmits(c, r)
    case BikeTypeFilter => BikeTypeAdmits(c, r)
  }

  predicate UserAdmits(c: Criteria, r: Ride) {
    c.userId.None? || r.userId == c.userId.value
  }

  /** `buildSpecification(criteria)` applied to a row: the user test, then
      each strategy in bean order, all combined with AND. */
  predicate SpecAdmits(c: Criteria, strategies: seq<FilterStrategy>, r: Ride)
  {
    if |strategies| == 0 then UserAdmits(c, r)
    else SpecAdmits(c, strategies[..|strategies| - 1], r) && StrategyAdmits(strategies[|strategies| - 1], c, r)
  }

  /** A row matches exactly when it passes the user test and every strategy. */
  lemma {:induction false} SpecAdmitsAll(c: Criteria, strategies: seq<FilterStrategy>, r: Ride)
    ensures SpecAdmits(c, strategies, r)
            <==> UserAdmits(c, r) && forall k :: 0 <= k < |strategies| ==> StrategyAdmits(strategies[k], c, r)
  {
    if |strategies| > 0 {
      var init := strategies[..|strategies| - 1];
      SpecAdmitsAll(c, init, r);
      assert forall k :: 0 <= k < |init| ==> init[k] == strategies[k];
    }
  }

  /** The order in which the strategy beans are injected does not matter. */
  lemma SpecIgnoresStrategyOrder(c: Criteria, ss: seq<FilterStrategy>, ts: seq<FilterStrategy>, r: Ride)
    requires multiset(ss) == multiset(ts)
    ensures SpecAdmits(c, ss, r) == SpecAdmits(c, ts, r)
  {
    SpecAdmitsAll(c, ss, r);
    SpecAdmitsAll(c, ts, r);
    forall k | 0 <= k < |ts| ensures ts[k] in ss {
      assert ts[k] in multiset(ts);
    }
    forall k | 0 <= k < |ss| ensures ss[k] in ts {
      assert ss[k] in multiset(ss);
    }
  }

  /** Without a filter and without a user, every row matches. */
  lemma NoFilterAdmitsEverything(strategies: seq<FilterStrategy>, r: Ride)
    ensures SpecAdmits(BuildFilterCriteria(None, None), strategies, r)
  {
    SpecAdmitsAll(BuildFilterCriteria(None, None), strategies, r);
  }

  /** The end date bounds when a ride STARTED: when a ride ends never
      decides whether it matches, neither for the date-range strategy nor for
      the combined specification, so a ride that starts inside the window
      matches however long after the end date it ends. */
  lemma EndDateBoundsStartTime(c: Criteria, strategies: seq<FilterStrategy>, r: Ride, t: Option<Time>)
    ensures DateRangeAdmits(c, r) == DateRangeAdmits(c, r.(endTime := t))
    ensures SpecAdmits(c, strategies, r) == SpecAdmits(c, strategies, r.(endTime := t))
  {
    var r' := r.(endTime := t);
    SpecAdmitsAll(c, strategies, r);
    SpecAdmitsAll(c, strategies, r');
    forall k | 0 <= k < |strategies|
      ensures StrategyAdmits(strategies[k], c, r) == StrategyAdmits(strategies[k], c, r')
    {
    }
  }

  /** Restricting the station filter to start stations only ever removes rows. */
  lemma StartOnlyNarrowsStationFilter(c: Criteria, r: Ride)
    ensures StationAdmits(c.(startStationOnly := Some(true)), r) ==> StationAdmits(c.(startStationOnly := None), r)
  {
  }

  datatype Direction = ASC | DESC

  /** `PageRequest.of(page, size, Sort.by(direction, sortBy))`. */
  datatype PageRequest = PageRequest(page: nat, size: nat, sortBy: string, direction: Direction)

  const DefaultPageSize: int := 20
  const DefaultSortBy: string := "startTime"

  /** `createPageable(filter)`: page 0, 20 rows, newest first by start time
      unless the DTO says otherwise; only a direction equal to "ASC"
      ignoring case sorts ascending. `Sort.by` is evaluated first and
      rejects a property name without text; `PageRequest.of` then rejects
      a negative page and a size below one. */
  function CreatePageable(filter: Option<FilterDto>): (r: Result<PageRequest>)
    ensures filter.None? ==> r == Ok(PageRequest(0, 20, "startTime", DESC))
    ensures filter.Some? ==> var f := filter.value;
            var page := f.page.GetOr(0);
            var size := f.size.GetOr(DefaultPageSize);
            var sortBy := f.sortBy.GetOr(DefaultSortBy);
            && (r.Ok? <==> Text.HasText(sortBy) && page >= 0 && size >= 1)
            && (!Text.HasText(sortBy) ==> r == Err(IllegalArgument("Property must not be null or empty")))
            && (Text.HasText(sortBy) && page < 0 ==> r == Err(IllegalArgument("Page index must not be less than zero")))
            && (Text.HasText(sortBy) && page >= 0 && size < 1 ==> r == Err(IllegalArgument("Page size must not be less than one")))
            && (r.Ok? ==> r.value.page == page && r.value.size == size && r.value.sortBy == sortBy
                          && (r.value.direction == ASC <==> f.sortDirection.Some? && Text.EqualsIgnoreCase("ASC", f.sortDirection.value)))
    ensures r.Err? ==> r.error.IllegalArgument?
  {
    var page := if filter.Some? && filter.value.page.Some? then filter.value.page.value else 0;
    var size := if filter.Some? && filter.value.size.Some? then filter.value.size.value else DefaultPageSize;
    var sortBy := if filter.Some? && filter.value.sortBy.Some? then filter.value.sortBy.value else DefaultSortBy;
    var direction :=
      if filter.Some? && filter.value.sortDirection.Some? && Text.EqualsIgnoreCase("ASC", filter.value.sortDirection.value)
      then ASC else DESC;
    assert !Text.IsJavaWhitespace(DefaultSortBy[0]);
    if !Text.HasText(sortBy) then Err(IllegalArgument("Property must not be null or empty"))
    else if page < 0 then Err(IllegalArgument("Page index must not be less than zero"))
    else if size < 1 then Err(IllegalArgument("Page size must not be less than one"))
    else Ok(PageRequest(page, size, sortBy, direction))
  }

  /** A successful page request sorts ascending exactly when the DTO's
      direction lower-cases to "asc", whatever its letters' case. */
  lemma AscendingIffLowerAsc(f: FilterDto)
    requires CreatePageable(Some(f)).Ok?
    ensures CreatePageable(Some(f)).value.direction == ASC
            <==> f.sortDirection.Some? && Text.Lower(f.sortDirection.value) == "asc"
  {
    if f.sortDirection.Some? {
      Text.EqualsIgnoreCaseMeansSameLower("ASC", f.sortDirection.value);
      assert Text.Lower("ASC") == "asc";
    }
  }
}
