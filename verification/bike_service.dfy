/** `BikeService`: creating, reserving, checking out, returning and moving
    bikes, and releasing expired reservations, with the station counts kept
    alongside.

    The bike table is a sequence in storage order. "The first available bike
    at the station" is the first such bike in that order. The lock and unlock
    calls to the dock hardware are not modelled.
 */
module BikeService {
  import opened Wrappers
  import opened Clock
  import opened Bikes
  import opened Stations
  import opened Events
  import opened BikeFactories
  import Seqs

  datatype Fleet = Fleet(bikes: seq<Bike>, stations: StationRepo)

  /** A successful call: the state it commits, the bike it returns, and the
      events it publishes on the bus, in order. */
  datatype Outcome = Outcome(fleet: Fleet, bike: Bike, events: seq<DomainEvent>)

  /** Position of the bike with this id (`findById`). */
  function FindBike(bikes: seq<Bike>, id: BikeId): (r: Option<nat>)
    ensures r.Some? ==> r.value < |bikes| && bikes[r.value].id == id
    ensures r.None? <==> forall j :: 0 <= j < |bikes| ==> bikes[j].id != id
  {
    Seqs.IndexOf(bikes, (b: Bike) => b.id == id)
  }

  predicate AvailableAt(b: Bike, stationId: StationId) {
    b.stationId == Some(stationId) && b.status == AVAILABLE
  }

  predicate ReservedBy(b: Bike, userId: UserId) {
    b.reservedByUserId == Some(userId)
  }

  /** How many bikes the rider holds a reservation on. */
  function ReservationsOf(bikes: seq<Bike>, userId: UserId): nat
  {
    Seqs.Count(bikes, (b: Bike) => ReservedBy(b, userId))
  }

  /** Every bike has its own id. */
  predicate DistinctIds(bikes: seq<Bike>) {
    forall j, k :: 0 <= j < k < |bikes| ==> bikes[j].id != bikes[k].id
  }

  /** No rider holds more than one reservation. */
  predicate AtMostOneReservationEach(bikes: seq<Bike>) {
    forall i :: 0 <= i < |bikes| && bikes[i].reservedByUserId.Some?
      ==> ReservationsOf(bikes, bikes[i].reservedByUserId.value) <= 1
  }

  /** The station table with one station's docked count changed by `delta`,
      when that station exists. */
  function AdjustCount(stations: StationRepo, id: StationId, delta: int): (r: StationRepo)
    ensures r.Keys == stations.Keys
    ensures id in stations ==> r[id] == stations[id].(currentBikeCount := stations[id].currentBikeCount + delta)
    ensures forall k :: k in stations && k != id ==> r[k] == stations[k]
    ensures id !in stations ==> r == stations
  {
    if id in stations then
      stations[id := stations[id].(currentBikeCount := stations[id].currentBikeCount + delta)]
    else stations
  }

  /** `createBike(config)` with the registry built from the factory beans:
      the factory for the type builds the bike, which is stored under the id
      the database assigns, and its station, when it exists, counts one more bike. */
  function CreateBike(f: Fleet, factories: seq<Factory>, t: BikeType, stationId: StationId, newId: BikeId)
    : (r: Result<Outcome>)
    requires FindBike(f.bikes, newId).None?
    ensures r.Ok? <==> LastOfClass(factories, ClassFor(t)).Some?
    ensures r.Err? ==> r.error.IllegalArgument?
    ensures r.Ok? ==> var o := r.value;
      && o.fleet.bikes == f.bikes + [o.bike]
      && o.bike.id == newId && o.bike.btype == Some(t)
      && o.bike.status == AVAILABLE && o.bike.stationId == Some(stationId)
      && o.fleet.stations == AdjustCount(f.stations, stationId, 1)
      && o.events == []
  {
    var factory :- GetFactory(InitRegistry(factories), t);
    var bike := Build(factory, newId, stationId);
    Ok(Outcome(Fleet(f.bikes + [bike], AdjustCount(f.stations, stationId, 1)), bike, []))
  }

  /** `reserveBike(stationId, userId, expiresAfterMinutes)` at time `now`. */
  function ReserveBike(f: Fleet, stationId: StationId, userId: UserId, expiresAfterMinutes: int, now: Time)
    : (r: Result<Outcome>)
    ensures stationId !in f.stations ==> r == Err(IllegalArgument("Station not found"))
    ensures stationId in f.stations && f.stations[stationId].status != ACTIVE
            ==> r == Err(IllegalState("Station is out of service"))
    ensures stationId in f.stations && f.stations[stationId].status == ACTIVE
            && f.stations[stationId].currentBikeCount <= 0
            ==> r == Err(IllegalState("No bikes available at this station"))
    ensures stationId in f.stations && f.stations[stationId].status == ACTIVE
            && f.stations[stationId].currentBikeCount > 0 && ReservationsOf(f.bikes, userId) > 0
            ==> r == Err(IllegalState("User already has an active reservation"))
    ensures r.Ok? <==>
            && stationId in f.stations && f.stations[stationId].status == ACTIVE
            && f.stations[stationId].currentBikeCount > 0
            && ReservationsOf(f.bikes, userId) == 0
            && exists j :: 0 <= j < |f.bikes| && AvailableAt(f.bikes[j], stationId)
    ensures r.Err? && stationId in f.stations && f.stations[stationId].status == ACTIVE
            && f.stations[stationId].currentBikeCount > 0 && ReservationsOf(f.bikes, userId) == 0
            ==> r == Err(IllegalState("No available bikes at this station"))
    ensures r.Ok? ==> exists i :: (0 <= i < |f.bikes|
            && AvailableAt(f.bikes[i], stationId)
            && (forall j :: 0 <= j < i ==> !AvailableAt(f.bikes[j], stationId))
            && r.value.bike == Reserve(f.bikes[i], userId, expiresAfterMinutes, now).value
            && r.value.fleet.bikes == f.bikes[i := r.value.bike])
    ensures r.Ok? ==> r.value.fleet.stations == AdjustCount(f.stations, stationId, -1)
    ensures r.Ok? ==> r.value.events == [BikeReserved(r.value.bike.id, userId, stationId)]
  {
    if stationId !in f.stations then Err(IllegalArgument("Station not found"))
    else
      var station := f.stations[stationId];
      if station.status != ACTIVE then Err(IllegalState("Station is out of service"))
      else if station.currentBikeCount <= 0 then Err(IllegalState("No bikes available at this station"))
      else if ReservationsOf(f.bikes, userId) > 0 then Err(IllegalState("User already has an active reservation"))
      else
        match Seqs.IndexOf(f.bikes, (b: Bike) => AvailableAt(b, stationId))
        case None => Err(IllegalState("No available bikes at this station"))
        case Some(i) =>
          var bike := Reserve(f.bikes[i], userId, expiresAfterMinutes, now).value;
          Ok(Outcome(Fleet(f.bikes[i := bike], AdjustCount(f.stations, stationId, -1)), bike,
                     [BikeReserved(bike.id, userId, stationId)]))
  }

  /** After a successful reservation the rider holds exactly one reservation,
      and no rider holds two if none did before. */
  lemma ReserveGivesSingleReservation(f: Fleet, stationId: StationId, userId: UserId, minutes: int, now: Time)
    requires ReserveBike(f, stationId, userId, minutes, now).Ok?
    requires AtMostOneReservationEach(f.bikes)
    ensures ReservationsOf(ReserveBike(f, stationId, userId, minutes, now).value.fleet.bikes, userId) == 1
    ensures AtMostOneReservationEach(ReserveBike(f, stationId, userId, minutes, now).value.fleet.bikes)
  {
    var o := ReserveBike(f, stationId, userId, minutes, now).value;
    var i := ReservedSlot(f, stationId, userId, minutes, now);
    forall k | 0 <= k < |o.fleet.bikes| && o.fleet.bikes[k].reservedByUserId.Some?
      ensures ReservationsOf(o.fleet.bikes, o.fleet.bikes[k].reservedByUserId.value) <= 1
    {
      var u := o.fleet.bikes[k].reservedByUserId.value;
      if u != userId {
        Seqs.CountUpdate(f.bikes, i, o.bike, (b: Bike) => ReservedBy(b, u));
        assert k != i;
        assert f.bikes[k].reservedByUserId == Some(u);
      }
    }
  }

  /** The slot a successful reservation fills: the bike there is replaced by
      the reserved one, keeping its id, and the rider goes from no
      reservation to exactly one. */
  lemma ReservedSlot(f: Fleet, stationId: StationId, userId: UserId, minutes: int, now: Time) returns (i: nat)
    requires ReserveBike(f, stationId, userId, minutes, now).Ok?
    ensures var o := ReserveBike(f, stationId, userId, minutes, now).value;
            && i < |f.bikes| && o.fleet.bikes == f.bikes[i := o.bike] && o.bike.id == f.bikes[i].id
            && ReservedBy(o.bike, userId) && !ReservedBy(f.bikes[i], userId)
            && ReservationsOf(o.fleet.bikes, userId) == 1
  {
    var o := ReserveBike(f, stationId, userId, minutes, now).value;
    i :| 0 <= i < |f.bikes| && AvailableAt(f.bikes[i], stationId)
         && (forall j :: 0 <= j < i ==> !AvailableAt(f.bikes[j], stationId))
         && o.bike == Reserve(f.bikes[i], userId, minutes, now).value
         && o.fleet.bikes == f.bikes[i := o.bike];
    assert !ReservedBy(f.bikes[i], userId);
    FirstReservation(f.bikes, i, o.bike, userId);
  }

  /** Giving a rider without reservations one reserved bike leaves them exactly one. */
  lemma FirstReservation(bikes: seq<Bike>, i: nat, reserved: Bike, userId: UserId)
    requires i < |bikes| && ReservationsOf(bikes, userId) == 0 && ReservedBy(reserved, userId)
    ensures ReservationsOf(bikes[i := reserved], userId) == 1
  {
    Seqs.CountUpdate(bikes, i, reserved, (b: Bike) => ReservedBy(b, userId));
  }

  /** `checkoutBike(bikeId, userId)` at time `now`.

      An expired reservation is cancelled and the call throws. The service
      method is transactional and the exception is unchecked, so the
      cancellation is rolled back with everything else: the model returns
      the error and no new state. */
  function CheckoutBike(f: Fleet, bikeId: BikeId, userId: UserId, now: Time): (r: Result<Outcome>)
    ensures FindBike(f.bikes, bikeId).None? ==> r == Err(IllegalArgument("Bike not found"))
    ensures r.Ok? <==> (FindBike(f.bikes, bikeId).Some? &&
            var b := f.bikes[FindBike(f.bikes, bikeId).value];
            && (b.status == RESERVED ==> b.reservedByUserId == Some(userId))
            && !IsReservationExpired(b, now)
            && CanCheckout(b))
    ensures FindBike(f.bikes, bikeId).Some? ==>
            var b := f.bikes[FindBike(f.bikes, bikeId).value];
            && (b.status == RESERVED && b.reservedByUserId.None? ==> r == Err(NullReference))
            && (b.status == RESERVED && b.reservedByUserId.Some? && b.reservedByUserId.value != userId
                ==> r == Err(IllegalState("Bike is reserved by another user")))
            && ((b.status == RESERVED ==> b.reservedByUserId == Some(userId)) && IsReservationExpired(b, now)
                ==> r == Err(IllegalState("Reservation has expired")))
            && (((b.status == RESERVED ==> b.reservedByUserId == Some(userId)) && !IsReservationExpired(b, now)
                 && !CanCheckout(b))
                ==> r == Err(IllegalState("Bike cannot be checked out due to its status or condition")))
    ensures r.Ok? ==> var i := FindBike(f.bikes, bikeId).value;
            && r.value.bike == Checkout(f.bikes[i], userId).value
            && r.value.fleet == Fleet(f.bikes[i := r.value.bike], f.stations)
            && r.value.events == [TripStarted(bikeId, userId, f.bikes[i].stationId)]
  {
    match FindBike(f.bikes, bikeId)
    case None => Err(IllegalArgument("Bike not found"))
    case Some(i) =>
      var b := f.bikes[i];
      if b.status == RESERVED && b.reservedByUserId.None? then Err(NullReference)
      else if b.status == RESERVED && b.reservedByUserId.value != userId then
        Err(IllegalState("Bike is reserved by another user"))
      else if IsReservationExpired(b, now) then Err(IllegalState("Reservation has expired"))
      else if !CanCheckout(b) then Err(IllegalState("Bike cannot be checked out due to its status or condition"))
      else
        var out := Checkout(b, userId).value;
        Ok(Outcome(Fleet(f.bikes[i := out], f.stations), out, [TripStarted(bikeId, userId, b.stationId)]))
  }

  /** The bike a reservation picked is found again by its id, at the slot it was taken from. */
  lemma ReservedBikeFound(f: Fleet, stationId: StationId, userId: UserId, minutes: int, now: Time) returns (i: nat)
    requires ReserveBike(f, stationId, userId, minutes, now).Ok?
    requires DistinctIds(f.bikes)
    ensures var o := ReserveBike(f, stationId, userId, minutes, now).value;
            && i < |f.bikes| && FindBike(o.fleet.bikes, o.bike.id) == Some(i)
            && o.fleet.bikes == f.bikes[i := o.bike]
            && ReservationsOf(o.fleet.bikes, userId) == 1
  {
    var o := ReserveBike(f, stationId, userId, minutes, now).value;
    i := ReservedSlot(f, stationId, userId, minutes, now);
    assert o.fleet.bikes[i].id == o.bike.id;
    var k := FindBike(o.fleet.bikes, o.bike.id).value;
    assert o.fleet.bikes[k] == f.bikes[k] || k == i;
  }

  /** Checking out a bike one holds the only reservation for consumes that reservation. */
  lemma CheckoutConsumesReservation(f: Fleet, i: nat, userId: UserId, now: Time)
    requires i < |f.bikes| && FindBike(f.bikes, f.bikes[i].id) == Some(i)
    requires ReservedBy(f.bikes[i], userId) && f.bikes[i].status == RESERVED
    requires !IsReservationExpired(f.bikes[i], now) && CanCheckout(f.bikes[i])
    requires ReservationsOf(f.bikes, userId) == 1
    ensures var c := CheckoutBike(f, f.bikes[i].id, userId, now);
            c.Ok? && c.value.bike.status == IN_USE && NoReservation(c.value.bike)
            && ReservationsOf(c.value.fleet.bikes, userId) == 0
  {
    var c := CheckoutBike(f, f.bikes[i].id, userId, now).value;
    Seqs.CountUpdate(f.bikes, i, c.bike, (b: Bike) => ReservedBy(b, userId));
  }

  /** A rider who reserved a bike can check it out until the reservation
      expires, and then holds no reservation any more. */
  lemma ReservedRiderCanCheckOut(f: Fleet, stationId: StationId, userId: UserId, minutes: int, now: Time, later: Time)
    requires ReserveBike(f, stationId, userId, minutes, now).Ok?
    requires DistinctIds(f.bikes)
    requires later <= PlusMinutes(now, minutes)
    requires var b := ReserveBike(f, stationId, userId, minutes, now).value.bike;
             b.kind.EBikeKind? ==> b.kind.batteryLevel >= MinCheckoutBattery
    ensures var o := ReserveBike(f, stationId, userId, minutes, now).value;
            var c := CheckoutBike(o.fleet, o.bike.id, userId, later);
            c.Ok? && c.value.bike.status == IN_USE && NoReservation(c.value.bike)
            && ReservationsOf(c.value.fleet.bikes, userId) == 0
  {
    var o := ReserveBike(f, stationId, userId, minutes, now).value;
    var i := ReservedBikeFound(f, stationId, userId, minutes, now);
    CheckoutConsumesReservation(o.fleet, i, userId, later);
  }

  /** `returnBike(bikeId, returnStationId, userId, duration, distance)`.
      `cost` is the `double` fare the source computes from duration and
      distance; its floating-point formula is outside the model. */
  function ReturnBike(f: Fleet, bikeId: BikeId, returnStationId: StationId, userId: UserId,
                      durationMinutes: real, distanceKm: real, cost: real): (r: Result<Outcome>)
    ensures FindBike(f.bikes, bikeId).None? ==> r == Err(IllegalArgument("Bike not found"))
    ensures r.Ok? <==> (FindBike(f.bikes, bikeId).Some? &&
            var b := f.bikes[FindBike(f.bikes, bikeId).value];
            && b.status == IN_USE && b.currentUserId == Some(userId)
            && returnStationId in f.stations
            && f.stations[returnStationId].status == ACTIVE
            && f.stations[returnStationId].currentBikeCount < f.stations[returnStationId].capacity)
    ensures FindBike(f.bikes, bikeId).Some? ==>
            var b := f.bikes[FindBike(f.bikes, bikeId).value];
            && (b.status != IN_USE ==> r == Err(IllegalState("Bike is not currently checked out by this user")))
            && (b.status == IN_USE && b.currentUserId.None? ==> r == Err(NullReference))
            && (b.status == IN_USE && b.currentUserId.Some? && b.currentUserId.value != userId
                ==> r == Err(IllegalState("Bike is not currently checked out by this user")))
            && (b.status == IN_USE && b.currentUserId == Some(userId) && returnStationId !in f.stations
                ==> r == Err(IllegalArgument("Return station not found")))
            && (b.status == IN_USE && b.currentUserId == Some(userId) && returnStationId in f.stations
                && f.stations[returnStationId].status != ACTIVE
                ==> r == Err(IllegalState("Return station is out of service")))
            && (b.status == IN_USE && b.currentUserId == Some(userId) && returnStationId in f.stations
                && f.stations[returnStationId].status == ACTIVE
                && f.stations[returnStationId].currentBikeCount >= f.stations[returnStationId].capacity
                ==> r == Err(IllegalState("Return station is full")))
    ensures r.Ok? ==> var i := FindBike(f.bikes, bikeId).value;
            && r.value.bike == ReturnTo(f.bikes[i], returnStationId).value
            && r.value.fleet.bikes == f.bikes[i := r.value.bike]
            && r.value.fleet.stations == AdjustCount(f.stations, returnStationId, 1)
            && r.value.events == [TripEnded(bikeId, userId, returnStationId, durationMinutes, distanceKm, cost)]
  {
    match FindBike(f.bikes, bikeId)
    case None => Err(IllegalArgument("Bike not found"))
    case Some(i) =>
      var b := f.bikes[i];
      if b.status != IN_USE then Err(IllegalState("Bike is not currently checked out by this user"))
      else if b.currentUserId.None? then Err(NullReference)
      else if b.currentUserId.value != userId then Err(IllegalState("Bike is not currently checked out by this user"))
      else if returnStationId !in f.stations then Err(IllegalArgument("Return station not found"))
      else
        var station := f.stations[returnStationId];
        if station.status != ACTIVE then Err(IllegalState("Return station is out of service"))
        else if station.currentBikeCount >= station.capacity then Err(IllegalState("Return station is full"))
        else
          var out := ReturnTo(b, returnStationId).value;
          Ok(Outcome(Fleet(f.bikes[i := out], AdjustCount(f.stations, returnStationId, 1)), out,
                     [TripEnded(bikeId, userId, returnStationId, durationMinutes, distanceKm, cost)]))
  }

  /** A successful return never docks a bike beyond the station's capacity. */
  lemma ReturnRespectsCapacity(f: Fleet, bikeId: BikeId, stationId: StationId, userId: UserId,
                               duration: real, distance: real, cost: real)
    requires ReturnBike(f, bikeId, stationId, userId, duration, distance, cost).Ok?
    ensures var s := ReturnBike(f, bikeId, stationId, userId, duration, distance, cost).value.fleet.stations[stationId];
            s.currentBikeCount <= s.capacity
  {
  }

  /** `moveBike(bikeId, newStationId, operatorId)`: an operator relocates a bike. */
  function MoveBike(f: Fleet, bikeId: BikeId, newStationId: StationId, operatorId: UserId): (r: Result<Outcome>)
    ensures FindBike(f.bikes, bikeId).None? ==> r == Err(IllegalArgument("Bike not found"))
    ensures r.Ok? <==> (FindBike(f.bikes, bikeId).Some? &&
            var b := f.bikes[FindBike(f.bikes, bikeId).value];
            && newStationId in f.stations
            && f.stations[newStationId].status == ACTIVE
            && f.stations[newStationId].currentBikeCount < f.stations[newStationId].capacity
            && b.stationId.Some? && b.stationId.value != newStationId
            && (b.status == AVAILABLE || b.status == MAINTENANCE))
    ensures FindBike(f.bikes, bikeId).Some? ==>
            var b := f.bikes[FindBike(f.bikes, bikeId).value];
            && (newStationId !in f.stations ==> r == Err(IllegalArgument("Destination station not found")))
            && (newStationId in f.stations && f.stations[newStationId].status != ACTIVE
                ==> r == Err(IllegalState("Destination station is out of service")))
            && (newStationId in f.stations && f.stations[newStationId].status == ACTIVE
                && f.stations[newStationId].currentBikeCount >= f.stations[newStationId].capacity
                ==> r == Err(IllegalState("Destination station is full")))
            && (newStationId in f.stations && f.stations[newStationId].status == ACTIVE
                && f.stations[newStationId].currentBikeCount < f.stations[newStationId].capacity
                ==> (b.stationId.None? ==> r == Err(NullReference))
                    && (b.stationId == Some(newStationId) ==> r == Err(IllegalState("Cannot move bike to the same station"))))
    ensures r.Ok? ==> var i := FindBike(f.bikes, bikeId).value;
            var src := f.bikes[i].stationId.value;
            && r.value.bike == MoveToStation(f.bikes[i], newStationId).value
            && r.value.fleet.bikes == f.bikes[i := r.value.bike]
            && r.value.fleet.stations.Keys == f.stations.Keys
            && r.value.fleet.stations[newStationId].currentBikeCount == f.stations[newStationId].currentBikeCount + 1
            && (src in f.stations ==> r.value.fleet.stations[src].currentBikeCount
                                       == Max(0, f.stations[src].currentBikeCount - 1))
            && (forall k :: k in f.stations ==> r.value.fleet.stations[k] == f.stations[k].(
                  currentBikeCount := r.value.fleet.stations[k].currentBikeCount))
            && (forall k :: k in f.stations && k != src && k != newStationId ==> r.value.fleet.stations[k] == f.stations[k])
            && r.value.events == [BikeMoved(bikeId, Some(src), newStationId, operatorId)]
  {
    match FindBike(f.bikes, bikeId)
    case None => Err(IllegalArgument("Bike not found"))
    case Some(i) =>
      var b := f.bikes[i];
      if newStationId !in f.stations then Err(IllegalArgument("Destination station not found"))
      else
        var dest := f.stations[newStationId];
        if dest.status != ACTIVE then Err(IllegalState("Destination station is out of service"))
        else if dest.currentBikeCount >= dest.capacity then Err(IllegalState("Destination station is full"))
        else if b.stationId.None? then Err(NullReference)
        else if b.stationId.value == newStationId then Err(IllegalState("Cannot move bike to the same station"))
        else
          var moved :- MoveToStation(b, newStationId);
          var src := b.stationId.value;
          Ok(Outcome(Fleet(f.bikes[i := moved], Relocated(f.stations, src, newStationId)), moved,
                     [BikeMoved(bikeId, Some(src), newStationId, operatorId)]))
  }

  /** The counts after a move: the source, when it exists, counts one bike
      fewer but never below zero, and the destination one more. */
  function Relocated(stations: StationRepo, src: StationId, dest: StationId): (r: StationRepo)
    requires src != dest && dest in stations
    ensures r.Keys == stations.Keys
    ensures r[dest].currentBikeCount == stations[dest].currentBikeCount + 1
    ensures src in stations ==> r[src].currentBikeCount == Max(0, stations[src].currentBikeCount - 1)
    ensures forall k :: k in stations ==> r[k] == stations[k].(currentBikeCount := r[k].currentBikeCount)
    ensures forall k :: k in stations && k != src && k != dest ==> r[k] == stations[k]
  {
    var afterOld :=
      if src in stations
      then stations[src := stations[src].(currentBikeCount := Max(0, stations[src].currentBikeCount - 1))]
      else stations;
    AdjustCount(afterOld, dest, 1)
  }

  function Max(a: int, b: int): int {
    if a >= b then a else b
  }

  /** A move between two stations keeps the total number of docked bikes,
      unless the source station's count was already zero. */
  lemma MoveConservesDockedBikes(f: Fleet, bikeId: BikeId, newStationId: StationId, operatorId: UserId)
    requires MoveBike(f, bikeId, newStationId, operatorId).Ok?
    requires var b := f.bikes[FindBike(f.bikes, bikeId).value];
             b.stationId.value in f.stations && f.stations[b.stationId.value].currentBikeCount > 0
    ensures var src := f.bikes[FindBike(f.bikes, bikeId).value].stationId.value;
            var s' := MoveBike(f, bikeId, newStationId, operatorId).value.fleet.stations;
            s'[src].currentBikeCount + s'[newStationId].currentBikeCount
            == f.stations[src].currentBikeCount + f.stations[newStationId].currentBikeCount
  {
  }

  /** The `ReservationExpiredEvent` as the source builds it: the rider id is
      read from the bike AFTER `cancelReservation()` has cleared it. */
  function ExpiryEventAsWritten(b: Bike): (e: DomainEvent)
    ensures e.ReservationExpired? && e.bikeId == b.id
    ensures b.status == RESERVED ==> e.expiredUserId.None?
  {
    ReservationExpired(b.id, CancelReservation(b).reservedByUserId)
  }

  /** As written, the expiry event of every expired reservation names no rider. */
  lemma ExpiryEventAsWrittenLosesRider()
    ensures var b := Bike(1, StandardKind, Some(STANDARD), Some(1), RESERVED, None, None, Some(7), Some(0), Some(600));
            IsReservationExpired(b, 601) && ReservedBy(b, 7) && ExpiryEventAsWritten(b).expiredUserId == None
  {
  }

  /** The expiry event as intended: it names the rider whose reservation lapsed. */
  function ExpiryEvent(b: Bike): (e: DomainEvent)
    ensures e.ReservationExpired? && e.bikeId == b.id
    ensures forall u :: ReservedBy(b, u) ==> e.expiredUserId == Some(u)
  {
    ReservationExpired(b.id, b.reservedByUserId)
  }

  /** How many expired reservations sit at a station. */
  function ExpiredAt(bikes: seq<Bike>, stationId: StationId, now: Time): nat
  {
    Seqs.Count(bikes, (b: Bike) => IsReservationExpired(b, now) && b.stationId == Some(stationId))
  }

  /** The expiry events for the expired reservations, in storage order. */
  function ExpiryEvents(bikes: seq<Bike>, now: Time): seq<DomainEvent>
  {
    if |bikes| == 0 then []
    else ExpiryEvents(bikes[..|bikes| - 1], now)
         + (if IsReservationExpired(bikes[|bikes| - 1], now) then [ExpiryEvent(bikes[|bikes| - 1])] else [])
  }

  /** The station table after each expired reservation in `bikes` has given
      its bike back to its station, one at a time in storage order. */
  function ReleaseCounts(stations: StationRepo, bikes: seq<Bike>, now: Time): StationRepo
  {
    if |bikes| == 0 then stations
    else
      var prev := ReleaseCounts(stations, bikes[..|bikes| - 1], now);
      var b := bikes[|bikes| - 1];
      if IsReservationExpired(b, now) && b.stationId.Some? then AdjustCount(prev, b.stationId.value, 1) else prev
  }

  /** One more bike of the scan: its reservation, when expired, adds its
      event and gives its station one bike back. */
  lemma ExpiryStep(stations: StationRepo, bikes: seq<Bike>, i: nat, now: Time)
    requires i < |bikes|
    ensures var b := bikes[i];
            && ReleaseCounts(stations, bikes[..i + 1], now)
               == (if IsReservationExpired(b, now) && b.stationId.Some?
                   then AdjustCount(ReleaseCounts(stations, bikes[..i], now), b.stationId.value, 1)
                   else ReleaseCounts(stations, bikes[..i], now))
            && ExpiryEvents(bikes[..i + 1], now)
               == ExpiryEvents(bikes[..i], now) + (if IsReservationExpired(b, now) then [ExpiryEvent(b)] else [])
  {
    assert bikes[..i + 1][..i] == bikes[..i];
  }

  /** Each station ends up counting the expired reservations held at it. */
  lemma {:induction false} ReleaseCountsSpec(stations: StationRepo, bikes: seq<Bike>, now: Time)
    ensures ReleaseCounts(stations, bikes, now).Keys == stations.Keys
    ensures forall s :: s in stations ==>
              ReleaseCounts(stations, bikes, now)[s]
              == stations[s].(currentBikeCount := stations[s].currentBikeCount + ExpiredAt(bikes, s, now))
  {
    if |bikes| > 0 {
      var init := bikes[..|bikes| - 1];
      var b := bikes[|bikes| - 1];
      ReleaseCountsSpec(stations, init, now);
      assert bikes == init + [b];
      forall s | s in stations
        ensures ReleaseCounts(stations, bikes, now)[s]
              == stations[s].(currentBikeCount := stations[s].currentBikeCount + ExpiredAt(bikes, s, now))
      {
        Seqs.CountAppend(init, b, (x: Bike) => IsReservationExpired(x, now) && x.stationId == Some(s));
      }
    }
  }

  /** `processExpiredReservations()` at time `now`: every reserved bike whose
      deadline has passed is released, and each such bike's station, when it
      exists, counts it as docked again. */
  method ProcessExpiredReservations(f: Fleet, now: Time) returns (f': Fleet, events: seq<DomainEvent>)
    ensures |f'.bikes| == |f.bikes|
    ensures forall i :: 0 <= i < |f.bikes| ==>
              f'.bikes[i] == (if IsReservationExpired(f.bikes[i], now) then CancelReservation(f.bikes[i]) else f.bikes[i])
    ensures forall i :: 0 <= i < |f'.bikes| ==> !IsReservationExpired(f'.bikes[i], now)
    ensures f'.stations.Keys == f.stations.Keys
    ensures forall s :: s in f.stations ==>
              f'.stations[s] == f.stations[s].(currentBikeCount := f.stations[s].currentBikeCount + ExpiredAt(f.bikes, s, now))
    ensures events == ExpiryEvents(f.bikes, now)
  {
    var bikes := f.bikes;
    var stations := f.stations;
    events := [];
    var i := 0;
    while i < |bikes|
      invariant 0 <= i <= |bikes| == |f.bikes|
      invariant forall j :: 0 <= j < i ==>
                  bikes[j] == (if IsReservationExpired(f.bikes[j], now) then CancelReservation(f.bikes[j]) else f.bikes[j])
      invariant forall j :: i <= j < |bikes| ==> bikes[j] == f.bikes[j]
      invariant stations == ReleaseCounts(f.stations, f.bikes[..i], now)
      invariant events == ExpiryEvents(f.bikes[..i], now)
    {
      var bike := bikes[i];
      ExpiryStep(f.stations, f.bikes, i, now);
      if IsReservationExpired(bike, now) {
        bikes := bikes[i := CancelReservation(bike)];
        if bike.stationId.Some? && bike.stationId.value in stations {
          stations := AdjustCount(stations, bike.stationId.value, 1);
        }
        events := events + [ExpiryEvent(bike)];
      }
      i := i + 1;
    }
    assert f.bikes[..i] == f.bikes;
    ReleaseCountsSpec(f.stations, f.bikes, now);
    f' := Fleet(bikes, stations);
  }
}
