/** A bike and its life cycle: the abstract `Bike` entity with its two
    concrete kinds, `StandardBike` and `EBike`.

    The Java class hierarchy becomes the `kind` field. `canCheckout`,
    `needsMaintenance` and `performMaintenance` dispatch on that kind, as the
    overridden methods do. The persisted `type` column is kept separately as
    `btype`, since other components read it and it may be null.
 */
module Bikes {
  import opened Wrappers
  import opened Clock

  type BikeId = int
  type StationId = int
  type UserId = int

  datatype BikeType = STANDARD | E_BIKE

  datatype BikeStatus = AVAILABLE | RESERVED | IN_USE | MAINTENANCE

  /** Which subclass the entity is; an e-bike carries its battery level. */
  datatype BikeKind = StandardKind | EBikeKind(batteryLevel: int)

  datatype Bike = Bike(
    id: BikeId,
    kind: BikeKind,
    btype: Option<BikeType>,
    stationId: Option<StationId>,
    status: BikeStatus,
    lastMaintenance: Option<Time>,
    currentUserId: Option<UserId>,
    reservedByUserId: Option<UserId>,
    reservationTime: Option<Time>,
    reservationExpiresAt: Option<Time>)

  /** Battery level below which an e-bike cannot be checked out. */
  const MinCheckoutBattery: int := 20
  /** Battery level below which an e-bike needs maintenance. */
  const MaintenanceBattery: int := 10
  const FullBattery: int := 100
  /** Months after the last maintenance when a standard bike is due again. */
  const StandardMaintenanceMonths: nat := 3
  /** Months after the last maintenance when an e-bike is due again. */
  const EBikeMaintenanceMonths: nat := 2

  /** No reservation fields are set. */
  predicate NoReservation(b: Bike) {
    b.reservedByUserId.None? && b.reservationTime.None? && b.reservationExpiresAt.None?
  }

  /** `new StandardBike(stationId)`: an available standard bike at the station. */
  function NewStandardBike(id: BikeId, stationId: StationId): (b: Bike)
    ensures b.kind == StandardKind && b.btype == Some(STANDARD)
    ensures b.status == AVAILABLE && b.stationId == Some(stationId)
    ensures NoReservation(b) && b.currentUserId.None? && b.lastMaintenance.None?
  {
    Bike(id, StandardKind, Some(STANDARD), Some(stationId), AVAILABLE, None, None, None, None, None)
  }

  /** `new EBike(stationId)`: an available, fully charged e-bike at the station. */
  function NewEBike(id: BikeId, stationId: StationId): (b: Bike)
    ensures b.kind == EBikeKind(FullBattery) && b.btype == Some(E_BIKE)
    ensures b.status == AVAILABLE && b.stationId == Some(stationId)
    ensures NoReservation(b) && b.currentUserId.None? && b.lastMaintenance.None?
  {
    Bike(id, EBikeKind(FullBattery), Some(E_BIKE), Some(stationId), AVAILABLE, None, None, None, None, None)
  }

  /** `canCheckout()`: available or reserved, and for an e-bike a battery of at least 20. */
  predicate CanCheckout(b: Bike) {
    (b.status == AVAILABLE || b.status == RESERVED)
    && (b.kind.EBikeKind? ==> b.kind.batteryLevel >= MinCheckoutBattery)
  }

  /** `reserve(userId, expiresAfterMinutes)` at time `now`. */
  function Reserve(b: Bike, userId: UserId, expiresAfterMinutes: int, now: Time): (r: Result<Bike>)
    ensures r.Ok? <==> b.status == AVAILABLE
    ensures r.Ok? ==> r.value.status == RESERVED && r.value.reservedByUserId == Some(userId)
    ensures r.Ok? ==> r.value.reservationTime == Some(now)
    ensures r.Ok? ==> r.value.reservationExpiresAt == Some(PlusMinutes(now, expiresAfterMinutes))
    ensures r.Ok? ==> r.value.(status := b.status, reservedByUserId := b.reservedByUserId,
                               reservationTime := b.reservationTime,
                               reservationExpiresAt := b.reservationExpiresAt) == b
    ensures r.Err? ==> r.error == IllegalState("Bike is not available for reservation.")
  {
    if b.status == AVAILABLE then
      Ok(b.(status := RESERVED, reservedByUserId := Some(userId), reservationTime := Some(now),
            reservationExpiresAt := Some(PlusMinutes(now, expiresAfterMinutes))))
    else
      Err(IllegalState("Bike is not available for reservation."))
  }

  /** `cancelReservation()`: a reserved bike becomes available with its
      reservation cleared; a bike in any other status is left as it is. */
  function CancelReservation(b: Bike): (r: Bike)
    ensures b.status != RESERVED ==> r == b
    ensures b.status == RESERVED ==> r.status == AVAILABLE && NoReservation(r)
    ensures r.(status := b.status, reservedByUserId := b.reservedByUserId,
               reservationTime := b.reservationTime,
               reservationExpiresAt := b.reservationExpiresAt) == b
  {
    if b.status == RESERVED then
      b.(status := AVAILABLE, reservedByUserId := None, reservationTime := None, reservationExpiresAt := None)
    else b
  }

  /** `checkout(userId)`: the rider takes the bike; any reservation is consumed. */
  function Checkout(b: Bike, userId: UserId): (r: Result<Bike>)
    ensures r.Ok? <==> CanCheckout(b)
    ensures r.Ok? ==> r.value.status == IN_USE && r.value.currentUserId == Some(userId) && NoReservation(r.value)
    ensures r.Ok? ==> r.value.(status := b.status, currentUserId := b.currentUserId, reservedByUserId := b.reservedByUserId,
                               reservationTime := b.reservationTime, reservationExpiresAt := b.reservationExpiresAt) == b
    ensures r.Err? ==> r.error == IllegalState("Bike cannot be checked out.")
  {
    if CanCheckout(b) then
      Ok(b.(status := IN_USE, currentUserId := Some(userId), reservedByUserId := None,
            reservationTime := None, reservationExpiresAt := None))
    else
      Err(IllegalState("Bike cannot be checked out."))
  }

  /** `returnBike(stationId)`: a bike in use is docked at the station and released. */
  function ReturnTo(b: Bike, stationId: StationId): (r: Result<Bike>)
    ensures r.Ok? <==> b.status == IN_USE
    ensures r.Ok? ==> r.value.status == AVAILABLE && r.value.stationId == Some(stationId)
    ensures r.Ok? ==> r.value.currentUserId.None?
    ensures r.Ok? ==> r.value.(status := b.status, stationId := b.stationId, currentUserId := b.currentUserId) == b
    ensures r.Err? ==> r.error == IllegalState("Bike is not currently in use.")
  {
    if b.status == IN_USE then
      Ok(b.(status := AVAILABLE, stationId := Some(stationId), currentUserId := None))
    else
      Err(IllegalState("Bike is not currently in use."))
  }

  /** `moveToStation(newStationId)`: only the station changes, and only for an
      available bike or one in maintenance. */
  function MoveToStation(b: Bike, newStationId: StationId): (r: Result<Bike>)
    ensures r.Ok? <==> b.status == AVAILABLE || b.status == MAINTENANCE
    ensures r.Ok? ==> r.value.stationId == Some(newStationId) && r.value.(stationId := b.stationId) == b
    ensures r.Err? ==> r.error == IllegalState("Bike cannot be moved while in use or reserved.")
  {
    if b.status == AVAILABLE || b.status == MAINTENANCE then
      Ok(b.(stationId := Some(newStationId)))
    else
      Err(IllegalState("Bike cannot be moved while in use or reserved."))
  }

  /** `isReservationExpired()` at time `now`: reserved with a deadline strictly in the past. */
  predicate IsReservationExpired(b: Bike, now: Time) {
    b.status == RESERVED && b.reservationExpiresAt.Some? && now > b.reservationExpiresAt.value
  }

  /** `needsMaintenance()` at time `now`. `minusMonths(t, k)` is the calendar's
      `t.minusMonths(k)`, which the model does not fix. */
  predicate NeedsMaintenance(b: Bike, now: Time, minusMonths: (Time, nat) -> Time) {
    match b.kind
    case StandardKind =>
      b.lastMaintenance.None? || b.lastMaintenance.value < minusMonths(now, StandardMaintenanceMonths)
    case EBikeKind(battery) =>
      b.lastMaintenance.None? || b.lastMaintenance.value < minusMonths(now, EBikeMaintenanceMonths)
      || battery < MaintenanceBattery
  }

  /** `performMaintenance()` at time `now`: serviced now, available, and an e-bike recharged. */
  function PerformMaintenance(b: Bike, now: Time): (r: Bike)
    ensures r.lastMaintenance == Some(now) && r.status == AVAILABLE
    ensures b.kind.EBikeKind? ==> r.kind == EBikeKind(FullBattery)
    ensures b.kind.StandardKind? ==> r.kind == StandardKind
    ensures r.(lastMaintenance := b.lastMaintenance, status := b.status, kind := b.kind) == b
  {
    match b.kind
    case StandardKind => b.(lastMaintenance := Some(now), status := AVAILABLE)
    case EBikeKind(_) => b.(lastMaintenance := Some(now), status := AVAILABLE, kind := EBikeKind(FullBattery))
  }

  /** `EBike.chargeBattery()`: the battery is full, nothing else changes.
      The method exists on e-bikes only. */
  function ChargeBattery(b: Bike): (r: Bike)
    requires b.kind.EBikeKind?
    ensures r.kind == EBikeKind(FullBattery) && r.(kind := b.kind) == b
  {
    b.(kind := EBikeKind(FullBattery))
  }

  /** Cancelling a fresh reservation restores the bike, with the reservation fields cleared. */
  lemma ReserveThenCancel(b: Bike, userId: UserId, minutes: int, now: Time)
    requires b.status == AVAILABLE
    ensures CancelReservation(Reserve(b, userId, minutes, now).value)
            == b.(reservedByUserId := None, reservationTime := None, reservationExpiresAt := None)
  {
  }

  /** A fresh reservation has expired exactly when more than the allowed minutes have passed. */
  lemma ReservationExpiry(b: Bike, userId: UserId, minutes: int, now: Time, later: Time)
    requires b.status == AVAILABLE
    ensures IsReservationExpired(Reserve(b, userId, minutes, now).value, later)
            <==> later > now + minutes * SecondsPerMinute
  {
  }

  /** A full ride: reserve, check out by the same rider, return at another
      station. The bike ends available at the return station, free of any
      rider or reservation, with its kind unchanged. */
  lemma RideLifecycle(b: Bike, userId: UserId, minutes: int, now: Time, returnStation: StationId)
    requires b.status == AVAILABLE
    requires b.kind.EBikeKind? ==> b.kind.batteryLevel >= MinCheckoutBattery
    ensures Reserve(b, userId, minutes, now).Ok?
    ensures Checkout(Reserve(b, userId, minutes, now).value, userId).Ok?
    ensures ReturnTo(Checkout(Reserve(b, userId, minutes, now).value, userId).value, returnStation).Ok?
    ensures var r := ReturnTo(Checkout(Reserve(b, userId, minutes, now).value, userId).value, returnStation).value;
            r.status == AVAILABLE && r.stationId == Some(returnStation) && r.currentUserId.None?
            && NoReservation(r) && r.kind == b.kind && r.id == b.id
  {
  }

  /** Right after maintenance a bike can be checked out and is not due for
      maintenance, provided the calendar's `minusMonths` goes back in time. */
  lemma MaintenanceRestoresService(b: Bike, now: Time, minusMonths: (Time, nat) -> Time)
    requires minusMonths(now, StandardMaintenanceMonths) <= now
    requires minusMonths(now, EBikeMaintenanceMonths) <= now
    ensures CanCheckout(PerformMaintenance(b, now))
    ensures !NeedsMaintenance(PerformMaintenance(b, now), now, minusMonths)
  {
  }

  /** A charged e-bike is held back from checkout only by its status. */
  lemma ChargedEBikeCheckout(b: Bike)
    requires b.kind.EBikeKind?
    ensures CanCheckout(ChargeBattery(b)) <==> b.status == AVAILABLE || b.status == RESERVED
  {
  }
}
