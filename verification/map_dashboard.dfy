/** The operations map (`MapDashboard.jsx`): marker colours and positions,
    the checks the page makes before it asks the server to reserve, return
    or move a bike or to switch a station, and the message console.

    The page's lists are the JSON of the server's stations and bikes, so
    they are modelled with the server's own `Station` and `Bike`. A lookup
    that finds no station makes the handler throw a TypeError, which its
    `catch` turns into the generic message of that action; no request is
    sent.
 */
module MapDashboard {
  import opened Wrappers
  import opened Clock
  import opened Bikes
  import opened Stations
  import Seqs
  import BikeService

  // ---- Markers ----

  datatype Colour = RED | YELLOW | GREEN

  /** `getStationColor(currentBikes, capacity)`: red when empty or exactly
      full, yellow below 25% or above 85% of capacity, green otherwise. A
      zero capacity makes the percentage infinite, so it is yellow. */
  function StationColour(currentBikes: int, capacity: int): (c: Colour)
    ensures c == RED <==> currentBikes == 0 || currentBikes == capacity
    ensures capacity > 0 && c != RED ==>
            (c == GREEN <==> 4 * currentBikes >= capacity && 20 * currentBikes <= 17 * capacity)
  {
    if currentBikes == 0 || currentBikes == capacity then RED
    else if capacity == 0 then YELLOW
    else
      var percentage := (currentBikes as real / capacity as real) * 100.0;
      PercentageBounds(currentBikes, capacity);
      if percentage < 25.0 || percentage > 85.0 then YELLOW else GREEN
  }

  /** The percentage compared in whole numbers. */
  lemma PercentageBounds(currentBikes: int, capacity: int)
    requires capacity != 0
    ensures capacity > 0 ==> ((currentBikes as real / capacity as real) * 100.0 < 25.0 <==> 4 * currentBikes < capacity)
    ensures capacity > 0 ==> ((currentBikes as real / capacity as real) * 100.0 > 85.0 <==> 20 * currentBikes > 17 * capacity)
  {
    if capacity > 0 {
      QuotientBelow(currentBikes as real, capacity as real, 0.25);
      QuotientAbove(currentBikes as real, capacity as real, 0.85);
    }
  }

  lemma QuotientBelow(a: real, k: real, b: real)
    requires k > 0.0
    ensures a / k < b <==> a < b * k
  {
    var q := a / k;
    assert q * k == a;
    if q < b {
      assert q * k < b * k;
    } else {
      assert q * k >= b * k;
    }
  }

  lemma QuotientAbove(a: real, k: real, b: real)
    requires k > 0.0
    ensures a / k > b <==> a > b * k
  {
    var q := a / k;
    assert q * k == a;
    if q > b {
      assert q * k > b * k;
    } else {
      assert q * k <= b * k;
    }
  }

  /** For a station of positive capacity the green counts form one band:
      a count between two green counts is green as well. */
  lemma GreenIsOneBand(capacity: int, a: int, b: int, c: int)
    requires capacity > 0 && a <= b <= c
    requires StationColour(a, capacity) == GREEN && StationColour(c, capacity) == GREEN
    ensures StationColour(b, capacity) == GREEN || b == capacity
  {
  }

  /** A latitude and longitude. */
  datatype LatLng = LatLng(lat: real, lng: real)

  const MontrealCentre: LatLng := LatLng(45.5017, -73.5673)

  /** `STATION_COORDINATES`: the positions of the known station names. */
  const StationCoordinates: map<string, LatLng> := map[
    "Downtown Central" := LatLng(45.5017, -73.5673),
    "University Campus" := LatLng(45.5048, -73.5772),
    "Shopping Mall" := LatLng(45.4975, -73.5675),
    "Park & Ride" := LatLng(45.4950, -73.5825),
    "Waterfront" := LatLng(45.5088, -73.5540)]

  /** Where a station's marker goes: its known position, or the city centre. */
  function MarkerPosition(name: string): (p: LatLng)
    ensures name !in StationCoordinates ==> p == MontrealCentre
    ensures name in StationCoordinates ==> p == StationCoordinates[name]
  {
    if name in StationCoordinates then StationCoordinates[name] else MontrealCentre
  }

  /** Every station whose name is not listed shares the centre with
      "Downtown Central", so a marker there does not tell them apart. */
  lemma UnknownStationsSitDowntown(name: string)
    requires name !in StationCoordinates
    ensures MarkerPosition(name) == MarkerPosition("Downtown Central")
  {
  }

  // ---- Console ----

  datatype MessageKind = Info | Success | Warning | Failure

  /** One console line: the text, its kind, the local time text and `Date.now()`. */
  datatype ConsoleMessage = ConsoleMessage(message: string, kind: MessageKind, timestamp: string, id: Time)

  /** `addConsoleMessage(message, type)` at clock reading `now`, shown as `clockText`. */
  function AddConsoleMessage(console: seq<ConsoleMessage>, message: string, kind: MessageKind,
                             clockText: string, now: Time): (r: seq<ConsoleMessage>)
    ensures |r| == |console| + 1 && r[..|console|] == console
    ensures r[|console|].message == message && r[|console|].kind == kind && r[|console|].id == now
  {
    console + [ConsoleMessage(message, kind, clockText, now)]
  }

  /** The console's clear button. */
  function ClearConsole(console: seq<ConsoleMessage>): (r: seq<ConsoleMessage>)
    ensures |r| == 0
  {
    []
  }

  /** Messages are only ever added at the end: after any number of them the
      earlier console is still the head of the list, in order. */
  lemma {:induction false} ConsoleOnlyGrows(console: seq<ConsoleMessage>, added: seq<(string, MessageKind)>,
                                            clockText: string, now: Time)
    ensures |AddAll(console, added, clockText, now)| == |console| + |added|
    ensures AddAll(console, added, clockText, now)[..|console|] == console
    ensures forall k :: 0 <= k < |added| ==> AddAll(console, added, clockText, now)[|console| + k].message == added[k].0
  {
    if |added| > 0 {
      var front := AddAll(console, added[..|added| - 1], clockText, now);
      ConsoleOnlyGrows(console, added[..|added| - 1], clockText, now);
      assert AddAll(console, added, clockText, now) == AddConsoleMessage(front, added[|added| - 1].0, added[|added| - 1].1, clockText, now);
      assert front[..|console|] == console;
    }
  }

  /** Adding several messages one after the other. */
  function AddAll(console: seq<ConsoleMessage>, added: seq<(string, MessageKind)>, clockText: string, now: Time)
    : seq<ConsoleMessage>
  {
    if |added| == 0 then console
    else
      var last := added[|added| - 1];
      AddConsoleMessage(AddAll(console, added[..|added| - 1], clockText, now), last.0, last.1, clockText, now)
  }

  // ---- Actions ----

  /** A request the page sends. */
  datatype Request =
    | ReturnRequest(bikeId: BikeId, returnStationId: StationId, userId: Option<UserId>,
                    durationMinutes: real, distanceKm: real)
    | ReserveRequest(stationId: StationId, userId: Option<UserId>, expiresAfterMinutes: int)
    | MoveRequest(bikeId: BikeId, newStationId: StationId, operatorId: Option<UserId>)
    | StatusRequest(stationId: StationId, status: StationStatus)

  /** What an action does: report an error in the console, or send a request. */
  datatype Step = Reported(message: string) | Post(request: Request)

  const ReturnFailed: string := "Failed to return bike"
  const ReturnOutOfService: string := "Cannot return bike to out-of-service station. Please select another nearby station."
  const ReturnFull: string := "Station is full. Please return bike to another nearby station."
  const ReserveFailed: string := "Failed to reserve bike"
  const ReserveOutOfService: string := "Cannot reserve bike from out-of-service station"
  const ReserveNoBikes: string := "No bikes available at this station"
  const MoveFailed: string := "Failed to move bike"
  const MoveNoSourceBikes: string := "Source station has no available bikes to move"
  const MoveNoDocks: string := "Destination station has no free docks"
  const MoveSameStation: string := "Cannot move bike to the same station"
  const StatusFailed: string := "Failed to update station status"
  /** The reservation length the page asks for, in minutes. */
  const ReserveMinutes: int := 15

  /** `stations.find(s => s.id === id)`. */
  function FindStation(stations: seq<Station>, id: StationId): (r: Option<Station>)
    ensures r.Some? ==> r.value in stations && r.value.id == id
    ensures r.None? <==> forall k :: 0 <= k < |stations| ==> stations[k].id != id
  {
    match Seqs.IndexOf(stations, (s: Station) => s.id == id)
    case None => None
    case Some(i) => Some(stations[i])
  }

  /** `station.capacity - station.currentBikeCount`. */
  function FreeDocks(s: Station): int {
    s.capacity - s.currentBikeCount
  }

  /** The bikes the page counts as available at a station. */
  function AvailableBikes(bikes: seq<Bike>, stationId: StationId): (r: seq<Bike>)
    ensures forall b :: b in r <==> b in bikes && BikeService.AvailableAt(b, stationId)
  {
    Seqs.Filter(bikes, (b: Bike) => BikeService.AvailableAt(b, stationId))
  }

  /** `handleReturn(bikeId, stationId)`: no request when the station has no
      free dock or is out of service, the out-of-service message winning. */
  function ReturnPrecheck(stations: seq<Station>, bikeId: BikeId, stationId: StationId, userId: Option<UserId>,
                          durationMinutes: real, distanceKm: real): (r: Step)
    ensures FindStation(stations, stationId).None? ==> r == Reported(ReturnFailed)
    ensures FindStation(stations, stationId).Some? ==>
            var s := FindStation(stations, stationId).value;
            && (s.status == OUT_OF_SERVICE ==> r == Reported(ReturnOutOfService))
            && (s.status == ACTIVE && FreeDocks(s) == 0 ==> r == Reported(ReturnFull))
            && (r.Post? <==> s.status == ACTIVE && FreeDocks(s) != 0)
    ensures r.Post? ==> r.request == ReturnRequest(bikeId, stationId, userId, durationMinutes, distanceKm)
  {
    match FindStation(stations, stationId)
    case None => Reported(ReturnFailed)
    case Some(s) =>
      if FreeDocks(s) == 0 || s.status == OUT_OF_SERVICE then
        Reported(if s.status == OUT_OF_SERVICE then ReturnOutOfService else ReturnFull)
      else Post(ReturnRequest(bikeId, stationId, userId, durationMinutes, distanceKm))
  }

  /** `handleReserve(stationId)`: no request when the station shows no
      AVAILABLE bike or is out of service, the out-of-service message winning. */
  function ReservePrecheck(stations: seq<Station>, bikes: seq<Bike>, stationId: StationId, userId: Option<UserId>)
    : (r: Step)
    ensures FindStation(stations, stationId).None? ==> r == Reported(ReserveFailed)
    ensures FindStation(stations, stationId).Some? ==>
            var s := FindStation(stations, stationId).value;
            && (s.status == OUT_OF_SERVICE ==> r == Reported(ReserveOutOfService))
            && (s.status == ACTIVE && |AvailableBikes(bikes, stationId)| == 0 ==> r == Reported(ReserveNoBikes))
            && (r.Post? <==> s.status == ACTIVE && |AvailableBikes(bikes, stationId)| > 0)
    ensures r.Post? ==> r.request == ReserveRequest(stationId, userId, ReserveMinutes)
  {
    var available := AvailableBikes(bikes, stationId);
    match FindStation(stations, stationId)
    case None => Reported(ReserveFailed)
    case Some(s) =>
      if |available| == 0 || s.status == OUT_OF_SERVICE then
        Reported(if s.status == OUT_OF_SERVICE then ReserveOutOfService else ReserveNoBikes)
      else Post(ReserveRequest(stationId, userId, ReserveMinutes))
  }

  /** `handleMove(bikeId, source, destination)`: after looking both stations
      up, the checks run in order (the source shows an AVAILABLE bike, the
      destination has a free dock, the two differ) and the first failure is
      reported. A destination the page does not list throws before any check. */
  function MovePrecheck(stations: seq<Station>, bikes: seq<Bike>, bikeId: BikeId, source: StationId,
                        destination: StationId, operatorId: Option<UserId>): (r: Step)
    ensures FindStation(stations, destination).None? ==> r == Reported(MoveFailed)
    ensures FindStation(stations, destination).Some? ==>
            var d := FindStation(stations, destination).value;
            && (|AvailableBikes(bikes, source)| == 0 ==> r == Reported(MoveNoSourceBikes))
            && (|AvailableBikes(bikes, source)| > 0 && FreeDocks(d) == 0 ==> r == Reported(MoveNoDocks))
            && (|AvailableBikes(bikes, source)| > 0 && FreeDocks(d) != 0 && source == destination
                ==> r == Reported(MoveSameStation))
            && (r.Post? <==> |AvailableBikes(bikes, source)| > 0 && FreeDocks(d) != 0 && source != destination)
    ensures r.Post? ==> r.request == MoveRequest(bikeId, destination, operatorId)
  {
    match FindStation(stations, destination)
    case None => Reported(MoveFailed)
    case Some(d) =>
      if |AvailableBikes(bikes, source)| == 0 then Reported(MoveNoSourceBikes)
      else if FreeDocks(d) == 0 then Reported(MoveNoDocks)
      else if source == destination then Reported(MoveSameStation)
      else Post(MoveRequest(bikeId, destination, operatorId))
  }

  /** The status the toggle asks for: ACTIVE becomes OUT_OF_SERVICE and
      anything else becomes ACTIVE. */
  function Toggled(status: StationStatus): (r: StationStatus)
    ensures r != status
  {
    if status == ACTIVE then OUT_OF_SERVICE else ACTIVE
  }

  /** `handleToggleStationStatus(stationId)`. */
  function TogglePrecheck(stations: seq<Station>, stationId: StationId): (r: Step)
    ensures FindStation(stations, stationId).None? ==> r == Reported(StatusFailed)
    ensures FindStation(stations, stationId).Some? ==>
            r == Post(StatusRequest(stationId, Toggled(FindStation(stations, stationId).value.status)))
  {
    match FindStation(stations, stationId)
    case None => Reported(StatusFailed)
    case Some(s) => Post(StatusRequest(stationId, Toggled(s.status)))
  }

  /** Two toggles of a listed station, the second from the state the first
      produced on the server, give back the status it started with. */
  lemma ToggleTwiceRestores(repo: StationRepo, id: StationId)
    requires id in repo
    ensures var first := SetStatus(repo, id, Toggled(repo[id].status));
            first.Ok? && SetStatus(first.value.0, id, Toggled(first.value.0[id].status)).Ok?
            && SetStatus(first.value.0, id, Toggled(first.value.0[id].status)).value.0[id] == repo[id]
  {
  }

  // ---- The page against the server ----

  /** The page's lists show the server's state: the bikes as stored, and
      exactly the stored stations. */
  predicate Shows(f: BikeService.Fleet, stations: seq<Station>, bikes: seq<Bike>) {
    && bikes == f.bikes
    && (forall k :: 0 <= k < |stations| ==> stations[k].id in f.stations && f.stations[stations[k].id] == stations[k])
    && (forall id :: id in f.stations ==> exists k :: 0 <= k < |stations| && stations[k].id == id)
  }

  lemma ShownStationFound(f: BikeService.Fleet, stations: seq<Station>, bikes: seq<Bike>, id: StationId)
    requires Shows(f, stations, bikes) && id in f.stations
    ensures FindStation(stations, id) == Some(f.stations[id])
  {
    var k :| 0 <= k < |stations| && stations[k].id == id;
    assert stations[k].id == id;
  }

  /** The return precheck never blocks a return the server would accept. */
  lemma PageAllowsAcceptedReturns(f: BikeService.Fleet, stations: seq<Station>, bikeId: BikeId,
                                  stationId: StationId, userId: UserId, duration: real, distance: real, cost: real)
    requires Shows(f, stations, f.bikes)
    requires BikeService.ReturnBike(f, bikeId, stationId, userId, duration, distance, cost).Ok?
    ensures ReturnPrecheck(stations, bikeId, stationId, Some(userId), duration, distance)
            == Post(ReturnRequest(bikeId, stationId, Some(userId), duration, distance))
  {
    ShownStationFound(f, stations, f.bikes, stationId);
  }

  /** The check is weaker than the server's: a station holding more bikes
      than its capacity passes it (its free docks are negative, not 0), and
      the server then refuses the return as full. */
  lemma OverfullStationPassesReturnPrecheck(f: BikeService.Fleet, stations: seq<Station>, bikeId: BikeId,
                                            stationId: StationId, userId: UserId, duration: real, distance: real,
                                            cost: real)
    requires Shows(f, stations, f.bikes)
    requires stationId in f.stations && f.stations[stationId].status == ACTIVE
    requires f.stations[stationId].currentBikeCount > f.stations[stationId].capacity
    requires BikeService.FindBike(f.bikes, bikeId).Some?
    requires var b := f.bikes[BikeService.FindBike(f.bikes, bikeId).value];
             b.status == IN_USE && b.currentUserId == Some(userId)
    ensures ReturnPrecheck(stations, bikeId, stationId, Some(userId), duration, distance).Post?
    ensures BikeService.ReturnBike(f, bikeId, stationId, userId, duration, distance, cost)
            == Err(IllegalState("Return station is full"))
  {
    ShownStationFound(f, stations, f.bikes, stationId);
  }

  /** The reserve precheck never blocks a reservation the server would accept. */
  lemma PageAllowsAcceptedReservations(f: BikeService.Fleet, stations: seq<Station>, stationId: StationId,
                                       userId: UserId, now: Time)
    requires Shows(f, stations, f.bikes)
    requires BikeService.ReserveBike(f, stationId, userId, ReserveMinutes, now).Ok?
    ensures ReservePrecheck(stations, f.bikes, stationId, Some(userId))
            == Post(ReserveRequest(stationId, Some(userId), ReserveMinutes))
  {
    ShownStationFound(f, stations, f.bikes, stationId);
    var j :| 0 <= j < |f.bikes| && BikeService.AvailableAt(f.bikes[j], stationId);
    assert f.bikes[j] in AvailableBikes(f.bikes, stationId);
  }

  /** A move the page sends is never to the bike's own source station, and
      its destination showed a free dock; when source and destination are
      the same full station the page reports the full dock first. */
  lemma MoveCheckOrder(stations: seq<Station>, bikes: seq<Bike>, bikeId: BikeId, id: StationId,
                       operatorId: Option<UserId>)
    requires FindStation(stations, id).Some? && FreeDocks(FindStation(stations, id).value) == 0
    requires |AvailableBikes(bikes, id)| > 0
    ensures MovePrecheck(stations, bikes, bikeId, id, id, operatorId) == Reported(MoveNoDocks)
  {
  }
}
