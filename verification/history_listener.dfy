/** `HistoryService`: the event subscriber that turns trip events into
    ride-history rows, and the ride lifecycle IN_PROGRESS -> COMPLETED that
    the bike service drives through the event bus.
 */
module HistoryListener {
  import opened Wrappers
  import opened Clock
  import opened Bikes
  import opened Events
  import opened BikeFactories
  import opened BikeService
  import opened RideFilters
  import opened RideHistory

  const UnknownBikeType: string := "UNKNOWN"

  /** The bike type recorded for a trip: the bike's type name, or "UNKNOWN"
      when the bike is missing or has no type. */
  function RecordedBikeType(bikes: seq<Bike>, bikeId: BikeId): (t: string)
    ensures t == UnknownBikeType
            <==> FindBike(bikes, bikeId).None? || bikes[FindBike(bikes, bikeId).value].btype.None?
    ensures t != UnknownBikeType ==> t == TypeName(bikes[FindBike(bikes, bikeId).value].btype.value)
  {
    match FindBike(bikes, bikeId)
    case None => UnknownBikeType
    case Some(i) => if bikes[i].btype.Some? then TypeName(bikes[i].btype.value) else UnknownBikeType
  }

  /** A ride row completed with a trip's figures at time `now`. */
  function Completed(ride: Ride, returnStationId: StationId, durationMinutes: real, distanceKm: real,
                     cost: real, now: Time): (r: Ride)
    ensures r.status == COMPLETED && r.endTime == Some(now) && r.endStationId == Some(returnStationId)
    ensures r.durationMinutes == Some(durationMinutes) && r.distanceKm == Some(distanceKm) && r.cost == Some(cost)
    ensures r.id == ride.id && r.userId == ride.userId && r.bikeId == ride.bikeId
    ensures r.startStationId == ride.startStationId && r.startTime == ride.startTime && r.bikeType == ride.bikeType
  {
    ride.(endStationId := Some(returnStationId), endTime := Some(now), durationMinutes := Some(durationMinutes),
          distanceKm := Some(distanceKm), cost := Some(cost), status := COMPLETED)
  }

  /** `onEvent(event)` at time `now`, with `bikes` the bike table the
      listener reads. A trip start adds one IN_PROGRESS row; a trip end
      completes the rider's latest in-progress row, if any; every other
      event leaves the log as it is. */
  function OnEvent(log: RideLog, bikes: seq<Bike>, e: DomainEvent, now: Time): (r: RideLog)
    ensures e.TripStarted? ==>
            && |r.rides| == |log.rides| + 1 && r.rides[..|log.rides|] == log.rides && r.nextId == log.nextId + 1
            && var ride := r.rides[|log.rides|];
               ride.id == log.nextId && ride.bikeId == e.bikeId && ride.userId == e.userId
               && ride.startStationId == e.stationId && ride.status == IN_PROGRESS && ride.startTime == now
               && ride.bikeType == Some(RecordedBikeType(bikes, e.bikeId)) && ride.endTime.None?
    ensures e.TripEnded? && FindInProgressRide(log.rides, e.userId).None? ==> r == log
    ensures e.TripEnded? && FindInProgressRide(log.rides, e.userId).Some? ==>
            var ride := FindInProgressRide(log.rides, e.userId).value;
            exists i :: 0 <= i < |log.rides| && log.rides[i].id == ride.id
              && r == log.(rides := log.rides[i := Completed(log.rides[i], e.returnStationId, e.durationMinutes,
                                                             e.distanceKm, e.cost, now)])
    ensures !e.TripStarted? && !e.TripEnded? ==> r == log
  {
    match e
    case TripStarted(bikeId, userId, stationId) =>
      var r := CreateRideHistory(log, bikeId, userId, stationId, Some(RecordedBikeType(bikes, bikeId)), now).0;
      assert r.rides[..|log.rides|] == log.rides;
      r
    case TripEnded(_, userId, returnStationId, duration, distance, cost) =>
      (match FindInProgressRide(log.rides, userId)
      case None => log
      case Some(ride) =>
        assert ride in log.rides;
        var u := UpdateRideHistory(log, ride.id, Some(returnStationId), Some(duration), Some(distance), Some(cost), now);
        var i := FindRide(log.rides, ride.id).value;
        assert u.value.0 == log.(rides := log.rides[i := Completed(log.rides[i], returnStationId, duration, distance, cost, now)]);
        u.value.0)
    case BikeMoved(_, _, _, _) => log
    case BikeReserved(_, _, _) => log
    case ReservationExpired(_, _) => log
  }

  /** The subscribers on the bus: the history listener and the log-only ones. */
  datatype Subscriber = HistorySubscriber | LogOnlySubscriber

  /** What a subscriber does to the ride log. */
  function Deliver(bikes: seq<Bike>, now: Time): (Subscriber, DomainEvent, RideLog) -> RideLog
  {
    (s: Subscriber, e: DomainEvent, log: RideLog) => if s == HistorySubscriber then OnEvent(log, bikes, e, now) else log
  }

  /** Each event of a call, published in order. */
  function PublishAll(subscribers: seq<Subscriber>, events: seq<DomainEvent>, bikes: seq<Bike>, now: Time,
                      log: RideLog): RideLog
  {
    if |events| == 0 then log
    else PublishAll(subscribers, events[1..], bikes, now, Publish(subscribers, events[0], Deliver(bikes, now), log))
  }

  /** Log-only subscribers may be added anywhere after the history listener
      without changing the ride log an event produces. */
  lemma {:induction false} LogOnlySubscribersChangeNothing(quiet: nat, e: DomainEvent, bikes: seq<Bike>, now: Time, log: RideLog)
    ensures Publish([HistorySubscriber] + seq(quiet, _ => LogOnlySubscriber), e, Deliver(bikes, now), log)
            == OnEvent(log, bikes, e, now)
  {
    if quiet == 0 {
      assert [HistorySubscriber] + seq(0, _ => LogOnlySubscriber) == [HistorySubscriber];
      assert [HistorySubscriber][..0] == [];
    } else {
      var shorter := [HistorySubscriber] + seq(quiet - 1, _ => LogOnlySubscriber);
      assert [HistorySubscriber] + seq(quiet, _ => LogOnlySubscriber) == shorter + [LogOnlySubscriber];
      LogOnlySubscribersChangeNothing(quiet - 1, e, bikes, now, log);
      IgnoringSubscribersAreTransparent(shorter, LogOnlySubscriber, e, Deliver(bikes, now), log);
    }
  }

  /** One event, one history listener: publishing is a single `onEvent`. */
  lemma PublishOneEvent(e: DomainEvent, bikes: seq<Bike>, now: Time, log: RideLog)
    ensures PublishAll([HistorySubscriber], [e], bikes, now, log) == OnEvent(log, bikes, e, now)
  {
    assert [e][1..] == [];
    assert [HistorySubscriber][..0] == [];
    var once := Publish([HistorySubscriber], e, Deliver(bikes, now), log);
    assert once == Deliver(bikes, now)(HistorySubscriber, e, Publish([], e, Deliver(bikes, now), log));
    assert PublishAll([HistorySubscriber], [e], bikes, now, log) == PublishAll([HistorySubscriber], [], bikes, now, once);
  }

  /** A row appended after every earlier in-progress row of the rider is the
      one `findInProgressRide` returns. */
  lemma NewestInProgressFound(rides: seq<Ride>, x: Ride, userId: UserId)
    requires InProgressFor(x, userId)
    requires forall j :: 0 <= j < |rides| && InProgressFor(rides[j], userId) ==> rides[j].startTime < x.startTime
    ensures FindInProgressRide(rides + [x], userId) == Some(x)
  {
    var all := rides + [x];
    assert all[|rides|] == x;
    var found := FindInProgressRide(all, userId).value;
    forall j | 0 <= j < |rides| ensures rides[j] != found {
      if InProgressFor(rides[j], userId) {
        assert all[j] == rides[j];
        assert rides[j].startTime < x.startTime <= found.startTime;
      }
    }
  }

  /** Checking out changes one slot of the bike table and keeps its id, so
      the bike is found at the same position afterwards. */
  lemma CheckoutKeepsPosition(f: Fleet, bikeId: BikeId, userId: UserId, now: Time)
    requires CheckoutBike(f, bikeId, userId, now).Ok?
    ensures FindBike(CheckoutBike(f, bikeId, userId, now).value.fleet.bikes, bikeId) == FindBike(f.bikes, bikeId)
  {
    var o := CheckoutBike(f, bikeId, userId, now).value;
    var i := FindBike(f.bikes, bikeId).value;
    assert o.fleet.bikes[i].id == bikeId;
    assert forall j :: 0 <= j < i ==> o.fleet.bikes[j] == f.bikes[j];
  }

  /** A rider's trip start is recorded as their in-progress ride: after a
      successful checkout, the history listener adds a row for the bike at
      its station with the bike's type, and when the rider's older
      in-progress rows all started earlier, that row is the one
      `findInProgressRide` returns. */
  lemma CheckoutStartsRide(f: Fleet, log: RideLog, bikeId: BikeId, userId: UserId, now: Time)
    requires CheckoutBike(f, bikeId, userId, now).Ok?
    requires forall j :: 0 <= j < |log.rides| && InProgressFor(log.rides[j], userId) ==> log.rides[j].startTime < now
    ensures var o := CheckoutBike(f, bikeId, userId, now).value;
            var log' := PublishAll([HistorySubscriber], o.events, o.fleet.bikes, now, log);
            var ride := FindInProgressRide(log'.rides, userId);
            && ride.Some? && ride.value.bikeId == bikeId && ride.value.id == log.nextId
            && ride.value.startStationId == f.bikes[FindBike(f.bikes, bikeId).value].stationId
            && ride.value.startTime == now
            && (o.bike.btype.Some? ==> ride.value.bikeType == Some(TypeName(o.bike.btype.value)))
  {
    var o := CheckoutBike(f, bikeId, userId, now).value;
    PublishOneEvent(o.events[0], o.fleet.bikes, now, log);
    CheckoutKeepsPosition(f, bikeId, userId, now);
    var log' := OnEvent(log, o.fleet.bikes, o.events[0], now);
    var newRide := log'.rides[|log.rides|];
    assert log'.rides == log.rides + [newRide];
    NewestInProgressFound(log.rides, newRide, userId);
  }

  /** The matching trip end completes that ride: after a successful return,
      the rider's in-progress row, and only that row, is COMPLETED with the
      return station, the trip's figures and the end time. */
  lemma ReturnCompletesRide(f: Fleet, log: RideLog, bikeId: BikeId, stationId: StationId, userId: UserId,
                            duration: real, distance: real, cost: real, now: Time)
    requires ReturnBike(f, bikeId, stationId, userId, duration, distance, cost).Ok?
    requires WellFormed(log) && FindInProgressRide(log.rides, userId).Some?
    ensures var o := ReturnBike(f, bikeId, stationId, userId, duration, distance, cost).value;
            var ride := FindInProgressRide(log.rides, userId).value;
            var log' := PublishAll([HistorySubscriber], o.events, o.fleet.bikes, now, log);
            exists i :: 0 <= i < |log.rides| && log.rides[i] == ride
              && log' == log.(rides := log.rides[i := Completed(ride, stationId, duration, distance, cost, now)])
  {
    var o := ReturnBike(f, bikeId, stationId, userId, duration, distance, cost).value;
    var e := o.events[0];
    PublishOneEvent(e, o.fleet.bikes, now, log);
    var ride := FindInProgressRide(log.rides, userId).value;
    var i :| 0 <= i < |log.rides| && log.rides[i].id == ride.id
             && OnEvent(log, o.fleet.bikes, e, now)
                == log.(rides := log.rides[i := Completed(log.rides[i], stationId, duration, distance, cost, now)]);
    var k :| 0 <= k < |log.rides| && log.rides[k] == ride;
    assert k == i;
  }
}
