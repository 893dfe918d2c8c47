/** The station details panel (`StationDetailsPanel.jsx`): the bikes of one
    station split by status, its free docks, the dock grid, which rider
    actions are enabled, and the operator's move dialog.

    The panel receives the station, the page's bikes docked there, and the
    page's station list; it hands its actions to the map page's handlers.
 */
module StationPanel {
  import opened Wrappers
  import opened Bikes
  import opened Stations
  import Seqs
  import MapDashboard
  import BikeService

  // ---- Status lists ----

  function WithStatus(bikes: seq<Bike>, status: BikeStatus): (r: seq<Bike>)
    ensures forall b :: b in r <==> b in bikes && b.status == status
    ensures |r| == Seqs.Count(bikes, (b: Bike) => b.status == status)
  {
    Seqs.Filter(bikes, (b: Bike) => b.status == status)
  }

  /** `availableBikes`, `reservedBikes`, `inUseBikes`, `maintenanceBikes`. */
  datatype Partition = Partition(available: seq<Bike>, reserved: seq<Bike>, inUse: seq<Bike>, maintenance: seq<Bike>)

  function Split(bikes: seq<Bike>): (p: Partition)
    ensures forall b :: b in p.available <==> b in bikes && b.status == AVAILABLE
    ensures forall b :: b in p.reserved <==> b in bikes && b.status == RESERVED
    ensures forall b :: b in p.inUse <==> b in bikes && b.status == IN_USE
    ensures forall b :: b in p.maintenance <==> b in bikes && b.status == MAINTENANCE
  {
    Partition(WithStatus(bikes, AVAILABLE), WithStatus(bikes, RESERVED), WithStatus(bikes, IN_USE),
              WithStatus(bikes, MAINTENANCE))
  }

  /** The four lists hold every bike exactly once between them. */
  lemma {:induction false} SplitCoversEveryBike(bikes: seq<Bike>)
    ensures var p := Split(bikes);
            |p.available| + |p.reserved| + |p.inUse| + |p.maintenance| == |bikes|
  {
    if |bikes| > 0 {
      SplitCoversEveryBike(bikes[1..]);
      WithStatusStep(bikes, AVAILABLE);
      WithStatusStep(bikes, RESERVED);
      WithStatusStep(bikes, IN_USE);
      WithStatusStep(bikes, MAINTENANCE);
    }
  }

  lemma WithStatusStep(bikes: seq<Bike>, status: BikeStatus)
    requires |bikes| > 0
    ensures |WithStatus(bikes, status)| == |WithStatus(bikes[1..], status)| + if bikes[0].status == status then 1 else 0
  {
  }

  // ---- Docks ----

  /** One cell of the dock grid: `dock-<index>`, holding a bike or empty. */
  datatype Dock = Occupied(index: nat, bike: Bike) | Empty(index: nat)

  /** The grid as a whole: a dock per bike in order, then empty docks up to
      the capacity. */
  function DockLayout(bikes: seq<Bike>, capacity: int): (r: seq<Dock>)
    ensures |r| == BikeService.Max(|bikes|, capacity)
  {
    seq(BikeService.Max(|bikes|, capacity), (i: nat) => if i < |bikes| then Occupied(i, bikes[i]) else Empty(i))
  }

  /** `renderDockGrid()`: the `forEach` over the bikes, then the `for` loop
      adding empty docks while the index is below the capacity. */
  method RenderDockGrid(bikes: seq<Bike>, capacity: int) returns (docks: seq<Dock>)
    ensures |docks| == BikeService.Max(|bikes|, capacity)
    ensures forall i :: 0 <= i < |bikes| ==> docks[i] == Occupied(i, bikes[i])
    ensures forall i :: |bikes| <= i < |docks| ==> docks[i] == Empty(i)
    ensures docks == DockLayout(bikes, capacity)
  {
    docks := [];
    var index := 0;
    while index < |bikes|
      invariant 0 <= index <= |bikes| && |docks| == index
      invariant forall i :: 0 <= i < index ==> docks[i] == Occupied(i, bikes[i])
    {
      docks := docks + [Occupied(index, bikes[index])];
      index := index + 1;
    }
    var i := |bikes|;
    while i < capacity
      invariant |bikes| <= i && |docks| == i
      invariant i <= BikeService.Max(|bikes|, capacity)
      invariant forall k :: 0 <= k < |bikes| ==> docks[k] == Occupied(k, bikes[k])
      invariant forall k :: |bikes| <= k < i ==> docks[k] == Empty(k)
    {
      docks := docks + [Empty(i)];
      i := i + 1;
    }
  }

  /** `station.capacity - station.currentBikeCount`, as the map page computes it. */
  function FreeDocks(s: Station): (r: int)
    ensures r == s.capacity - s.currentBikeCount
  {
    MapDashboard.FreeDocks(s)
  }

  function EmptyCount(docks: seq<Dock>): nat {
    Seqs.Count(docks, (d: Dock) => d.Empty?)
  }

  /** When the station's count matches the bikes shown and is within the
      capacity, the grid shows exactly the free docks as empty; an
      over-full station shows no empty dock, and never fewer docks than bikes. */
  lemma EmptyDocksAreFreeDocks(s: Station, bikes: seq<Bike>)
    requires |bikes| == s.currentBikeCount
    ensures s.currentBikeCount <= s.capacity ==> EmptyCount(DockLayout(bikes, s.capacity)) == FreeDocks(s)
    ensures s.currentBikeCount > s.capacity ==> EmptyCount(DockLayout(bikes, s.capacity)) == 0
  {
    var docks := DockLayout(bikes, s.capacity);
    EmptyCountOfLayout(docks, |bikes|);
  }

  lemma {:induction false} EmptyCountOfLayout(docks: seq<Dock>, n: nat)
    requires n <= |docks| || (forall i :: 0 <= i < |docks| ==> docks[i].Occupied?)
    requires forall i :: 0 <= i < |docks| ==> (docks[i].Empty? <==> i >= n)
    ensures EmptyCount(docks) == if |docks| <= n then 0 else |docks| - n
  {
    if |docks| > 0 {
      var last := docks[|docks| - 1];
      var front := docks[..|docks| - 1];
      assert docks == front + [last];
      Seqs.CountAppend(front, last, (d: Dock) => d.Empty?);
      EmptyCountOfLayout(front, n);
    }
  }

  // ---- Rider actions ----

  /** The "Reserve Bike" button is disabled. */
  predicate ReserveDisabled(s: Station, bikes: seq<Bike>) {
    |Split(bikes).available| == 0 || s.status == OUT_OF_SERVICE
  }

  /** The "Return Bike Here" button is disabled. */
  predicate ReturnDisabled(s: Station) {
    FreeDocks(s) == 0 || s.status == OUT_OF_SERVICE
  }

  /** The bikes the map page hands to the panel: those docked at the station. */
  function DockedAt(pageBikes: seq<Bike>, s: Station): (r: seq<Bike>)
    ensures forall b :: b in r <==> b in pageBikes && b.stationId == Some(s.id)
  {
    Seqs.Filter(pageBikes, (b: Bike) => b.stationId == Some(s.id))
  }

  /** The panel's buttons agree with the map page's checks: a click on an
      enabled button passes the page's check, and a disabled one matches a
      check that would refuse. */
  lemma ButtonsMatchPageChecks(stations: seq<Station>, pageBikes: seq<Bike>, s: Station, userId: Option<UserId>,
                               bikeId: BikeId, duration: real, distance: real)
    requires MapDashboard.FindStation(stations, s.id) == Some(s)
    ensures !ReserveDisabled(s, DockedAt(pageBikes, s))
            <==> MapDashboard.ReservePrecheck(stations, pageBikes, s.id, userId).Post?
    ensures !ReturnDisabled(s)
            <==> MapDashboard.ReturnPrecheck(stations, bikeId, s.id, userId, duration, distance).Post?
  {
    SameAvailableBikes(pageBikes, s);
  }

  /** The panel keeps the station it was opened on, a snapshot the map page
      does not refresh when it reloads its station list. Against that
      snapshot each button agrees with the page's check exactly when the
      snapshot and the page's current copy of the station agree on
      disabling it; an unlisted station is refused by the page, so the
      button agrees exactly when it is disabled. */
  lemma SnapshotButtonsMatchPageChecks(stations: seq<Station>, pageBikes: seq<Bike>, snap: Station,
                                       userId: Option<UserId>, bikeId: BikeId, duration: real, distance: real)
    ensures MapDashboard.FindStation(stations, snap.id).Some? ==>
            var cur := MapDashboard.FindStation(stations, snap.id).value;
            && ((!ReserveDisabled(snap, DockedAt(pageBikes, snap))
                 <==> MapDashboard.ReservePrecheck(stations, pageBikes, snap.id, userId).Post?)
                <==> ReserveDisabled(snap, DockedAt(pageBikes, snap)) == ReserveDisabled(cur, DockedAt(pageBikes, cur)))
            && ((!ReturnDisabled(snap)
                 <==> MapDashboard.ReturnPrecheck(stations, bikeId, snap.id, userId, duration, distance).Post?)
                <==> ReturnDisabled(snap) == ReturnDisabled(cur))
    ensures MapDashboard.FindStation(stations, snap.id).None? ==>
            && ((!ReserveDisabled(snap, DockedAt(pageBikes, snap))
                 <==> MapDashboard.ReservePrecheck(stations, pageBikes, snap.id, userId).Post?)
                <==> ReserveDisabled(snap, DockedAt(pageBikes, snap)))
            && ((!ReturnDisabled(snap)
                 <==> MapDashboard.ReturnPrecheck(stations, bikeId, snap.id, userId, duration, distance).Post?)
                <==> ReturnDisabled(snap))
  {
    if MapDashboard.FindStation(stations, snap.id).Some? {
      var cur := MapDashboard.FindStation(stations, snap.id).value;
      assert DockedAt(pageBikes, cur) == DockedAt(pageBikes, snap);
      ButtonsMatchPageChecks(stations, pageBikes, cur, userId, bikeId, duration, distance);
    }
  }

  /** A stale snapshot offers a return the page refuses: the panel was
      opened while the active station had a free dock, and returns since
      then have filled it. */
  lemma StaleSnapshotOffersRefusedReturn(stations: seq<Station>, snap: Station, bikeId: BikeId,
                                         userId: Option<UserId>, duration: real, distance: real)
    requires snap.status == ACTIVE && snap.currentBikeCount < snap.capacity
    requires MapDashboard.FindStation(stations, snap.id) == Some(snap.(currentBikeCount := snap.capacity))
    ensures !ReturnDisabled(snap)
    ensures MapDashboard.ReturnPrecheck(stations, bikeId, snap.id, userId, duration, distance)
            == MapDashboard.Reported(MapDashboard.ReturnFull)
  {
  }

  /** The panel shows an available bike exactly when the map page counts one. */
  lemma SameAvailableBikes(pageBikes: seq<Bike>, s: Station)
    ensures |Split(DockedAt(pageBikes, s)).available| == 0
            <==> |MapDashboard.AvailableBikes(pageBikes, s.id)| == 0
  {
    var docked := DockedAt(pageBikes, s);
    var shown := Split(docked).available;
    var page := MapDashboard.AvailableBikes(pageBikes, s.id);
    if |shown| > 0 {
      assert shown[0] in page;
    }
    if |page| > 0 {
      assert page[0] in docked;
      assert page[0] in shown;
    }
  }

  /** The bike "Return Bike Here" hands back: the first bike in use among
      those docked at the station, if any. */
  function ReturnTarget(bikes: seq<Bike>): (r: Option<Bike>)
    ensures r.None? <==> forall k :: 0 <= k < |bikes| ==> bikes[k].status != IN_USE
    ensures r.Some? ==> r.value in bikes && r.value.status == IN_USE
  {
    match Seqs.IndexOf(bikes, (b: Bike) => b.status == IN_USE)
    case None => None
    case Some(i) => Some(bikes[i])
  }

  /** A checked-out bike keeps the station it left from, so the return
      button only ever hands back a bike that was taken from this very
      station, and not necessarily the rider's own. */
  lemma ReturnOnlyFromOrigin(pageBikes: seq<Bike>, s: Station)
    requires ReturnTarget(DockedAt(pageBikes, s)).Some?
    ensures var b := ReturnTarget(DockedAt(pageBikes, s)).value;
            b in pageBikes && b.stationId == Some(s.id) && b.status == IN_USE
  {
  }

  // ---- Operator move dialog ----

  /** The move dialog: open or not, the chosen bike, and the chosen
      destination (`''` is `None`; an option's value is its station's id). */
  datatype MoveDialog = MoveDialog(open: bool, selectedBike: Option<Bike>, destination: Option<StationId>)

  const Closed: MoveDialog := MoveDialog(false, None, None)

  /** `handleMoveClick(bike)`, the "Move" button of a row of the bike
      table: the dialog opens on that bike, keeping any destination chosen
      before. */
  function MoveClickOn(d: MoveDialog, b: Bike): (r: MoveDialog)
    ensures r.open && r.selectedBike == Some(b) && r.destination == d.destination
  {
    d.(open := true, selectedBike := Some(b))
  }

  /** The operator's "Move Bike" button: the row button's action on the
      first available bike, and nothing when there is none. */
  function MoveClick(d: MoveDialog, bikes: seq<Bike>): (r: MoveDialog)
    ensures |Split(bikes).available| == 0 ==> r == d
    ensures |Split(bikes).available| > 0 ==> r == MoveClickOn(d, Split(bikes).available[0])
    ensures r.open <==> d.open || |Split(bikes).available| > 0
  {
    var available := Split(bikes).available;
    if |available| > 0 then MoveClickOn(d, available[0]) else d
  }

  /** `handleMoveConfirm()`: with a bike and a destination chosen, the move
      (bike, this station, destination) is handed to the map page and the
      dialog is reset; otherwise nothing happens. */
  function MoveConfirm(d: MoveDialog, s: Station): (r: (MoveDialog, Option<(BikeId, StationId, StationId)>))
    ensures r.1.Some? <==> d.selectedBike.Some? && d.destination.Some?
    ensures r.1.Some? ==> r.0 == Closed && r.1.value == (d.selectedBike.value.id, s.id, d.destination.value)
    ensures r.1.None? ==> r.0 == d
  {
    if d.selectedBike.Some? && d.destination.Some? then
      (Closed, Some((d.selectedBike.value.id, s.id, d.destination.value)))
    else (d, None)
  }

  /** The destinations offered: every listed station but this one. */
  function DestinationChoices(stations: seq<Station>, s: Station): (r: seq<Station>)
    ensures forall t :: t in r <==> t in stations && t.id != s.id
  {
    Seqs.Filter(stations, (t: Station) => t.id != s.id)
  }

  /** A move confirmed with an offered destination never meets the page's
      same-station check. */
  lemma ConfirmedMoveIsNeverToItself(d: MoveDialog, s: Station, stations: seq<Station>, pageBikes: seq<Bike>,
                                     operatorId: Option<UserId>)
    requires d.destination.Some?
    requires exists t :: t in DestinationChoices(stations, s) && t.id == d.destination.value
    requires MoveConfirm(d, s).1.Some?
    ensures var (bike, source, dest) := MoveConfirm(d, s).1.value;
            source != dest
            && MapDashboard.MovePrecheck(stations, pageBikes, bike, source, dest, operatorId)
               != MapDashboard.Reported(MapDashboard.MoveSameStation)
  {
  }
}
