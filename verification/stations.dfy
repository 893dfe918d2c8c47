/** Bike stations and `BikeStationService`: lookup, status changes, and the
    guard that a station is in service. */
module Stations {
  import opened Wrappers
  import opened Bikes

  datatype StationStatus = ACTIVE | OUT_OF_SERVICE

  datatype Station = Station(
    id: StationId,
    name: string,
    address: Option<string>,
    capacity: int,
    currentBikeCount: int,
    status: StationStatus)

  /** The station table, keyed by id. */
  type StationRepo = map<StationId, Station>

  /** `StationStatusChangedEvent`: the id, the status before and the status requested. */
  datatype StatusChange = StatusChange(stationId: StationId, oldStatus: StationStatus, newStatus: StationStatus)

  /** A station as first stored: no bikes docked and in service. */
  function NewStation(id: StationId, name: string, address: Option<string>, capacity: int): (s: Station)
    ensures s.currentBikeCount == 0 && s.status == ACTIVE && s.capacity == capacity
  {
    Station(id, name, address, capacity, 0, ACTIVE)
  }

  /** `getStation(id)`. */
  function GetStation(repo: StationRepo, id: StationId): (r: Result<Station>)
    ensures r.Ok? <==> id in repo
    ensures r.Ok? ==> r.value == repo[id]
    ensures r.Err? ==> r.error == IllegalArgument("Station not found")
  {
    if id in repo then Ok(repo[id]) else Err(IllegalArgument("Station not found"))
  }

  /** `setStatus(id, status)`: the new table, the saved station and the
      published change event. Only that station's status changes. */
  function SetStatus(repo: StationRepo, id: StationId, status: StationStatus)
    : (r: Result<(StationRepo, Station, StatusChange)>)
    ensures r.Ok? <==> id in repo
    ensures r.Ok? ==> var (repo', saved, ev) := r.value;
      && repo'.Keys == repo.Keys
      && repo'[id] == saved && saved == repo[id].(status := status)
      && (forall k :: k in repo && k != id ==> repo'[k] == repo[k])
      && ev == StatusChange(id, repo[id].status, status)
    ensures r.Err? ==> r.error == IllegalArgument("Station not found")
  {
    if id !in repo then Err(IllegalArgument("Station not found"))
    else
      var saved := repo[id].(status := status);
      Ok((repo[id := saved], saved, StatusChange(id, repo[id].status, status)))
  }

  /** `ensureActive(id)`: passes for an active station only. */
  function EnsureActive(repo: StationRepo, id: StationId): (r: Result<()>)
    ensures r.Ok? <==> id in repo && repo[id].status == ACTIVE
    ensures id !in repo ==> r == Err(IllegalArgument("Station not found"))
    ensures id in repo && repo[id].status == OUT_OF_SERVICE
            ==> r == Err(StationOutOfService("Station is out of service"))
  {
    if id !in repo then Err(IllegalArgument("Station not found"))
    else match repo[id].status
      case OUT_OF_SERVICE => Err(StationOutOfService("Station is out of service"))
      case ACTIVE => Ok(())
  }

  /** After a status change the guard passes exactly when the new status is ACTIVE. */
  lemma SetStatusThenEnsureActive(repo: StationRepo, id: StationId, status: StationStatus)
    requires id in repo
    ensures EnsureActive(SetStatus(repo, id, status).value.0, id).Ok? <==> status == ACTIVE
  {
  }

  /** Setting the status a station already has leaves the table as it was,
      though an event is still published. */
  lemma SetSameStatusKeepsTable(repo: StationRepo, id: StationId)
    requires id in repo
    ensures SetStatus(repo, id, repo[id].status).value.0 == repo
    ensures SetStatus(repo, id, repo[id].status).value.2.oldStatus == repo[id].status
  {
    assert repo[id := repo[id]] == repo;
  }
}
