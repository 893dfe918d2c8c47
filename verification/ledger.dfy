/** The billing ledger (`BillingLedgerService`, `LedgerEntryRepository`):
    an append-only table of priced trips and adjustments, and the rider's
    pending balance that every appended entry moves.

    Entries get their id from an IDENTITY column, so `save` inserts at
    once; a row that breaks a column constraint makes the whole call fail
    and, the service being transactional, leaves every table as it was.
 */
module Ledger {
  import opened Wrappers
  import opened Clock
  import Text
  import Seqs
  import opened ChargeMeta
  import opened PricingRules
  import PricingEngine
  import Accounts

  /** `PaymentStatus`. */
  datatype PaymentStatus = PENDING | PAID | FAILED | ADJUSTED

  /** `paymentStatus.name()`. */
  function StatusName(s: PaymentStatus): string {
    match s
    case PENDING => "PENDING"
    case PAID => "PAID"
    case FAILED => "FAILED"
    case ADJUSTED => "ADJUSTED"
  }

  /** `LedgerEntry`. The NOT NULL columns are plain values here; a trip
      whose station or time is missing never becomes an entry. */
  datatype LedgerEntry = LedgerEntry(
    id: int,
    riderId: int,
    planVersionId: PlanId,
    planName: string,
    bikeId: int,
    startStationId: int,
    endStationId: int,
    startTime: Time,
    endTime: Time,
    durationMinutes: int,
    distanceKm: real,
    total: real,
    paymentStatus: PaymentStatus,
    paymentReference: Option<string>,
    paymentProcessedAt: Option<Time>,
    charges: seq<LedgerCharge>,
    summary: Option<string>,
    adjustmentOfEntryId: Option<int>)

  /** The `ledger_entries` table in storage order, and the next IDENTITY value. */
  datatype LedgerRepo = LedgerRepo(entries: seq<LedgerEntry>, nextId: int)

  /** Every id is unique and was issued before `nextId`. */
  predicate WellFormed(l: LedgerRepo) {
    && (forall i, j :: 0 <= i < j < |l.entries| ==> l.entries[i].id != l.entries[j].id)
    && (forall i :: 0 <= i < |l.entries| ==> l.entries[i].id < l.nextId)
  }

  /** The declared column lengths. */
  const SummaryLength: nat := 128
  const ReferenceLength: nat := 64
  const MetaLength: nat := 512

  /** The first column of `e` whose value is longer than its declared length, if any. */
  function OverlongColumn(e: LedgerEntry): (r: Option<string>)
    ensures r.None? <==> (e.summary.None? || |e.summary.value| <= SummaryLength)
                         && (e.paymentReference.None? || |e.paymentReference.value| <= ReferenceLength)
                         && (forall k :: 0 <= k < |e.charges| ==> e.charges[k].meta.None? || |e.charges[k].meta.value| <= MetaLength)
  {
    if e.summary.Some? && |e.summary.value| > SummaryLength then Some("summary")
    else if e.paymentReference.Some? && |e.paymentReference.value| > ReferenceLength then Some("payment_reference")
    else if exists k :: 0 <= k < |e.charges| && e.charges[k].meta.Some? && |e.charges[k].meta.value| > MetaLength
    then Some("charge_meta")
    else None
  }

  /** `findById`: the position of the entry with that id. */
  function FindEntry(entries: seq<LedgerEntry>, id: int): (r: Option<nat>)
    ensures r.Some? ==> r.value < |entries| && entries[r.value].id == id
    ensures r.Some? ==> forall j :: 0 <= j < r.value ==> entries[j].id != id
    ensures r.None? <==> forall i :: 0 <= i < |entries| ==> entries[i].id != id
  {
    Seqs.IndexOf(entries, (e: LedgerEntry) => e.id == id)
  }

  /** `save(entry)` of a new row: it gets the next id and goes at the end. */
  function Insert(l: LedgerRepo, e: LedgerEntry): (r: (LedgerEntry, LedgerRepo))
    requires OverlongColumn(e).None?
    ensures r.0 == e.(id := l.nextId)
    ensures r.1 == LedgerRepo(l.entries + [r.0], l.nextId + 1)
    ensures WellFormed(l) ==> WellFormed(r.1) && FindEntry(r.1.entries, r.0.id) == Some(|l.entries|)
  {
    var saved := e.(id := l.nextId);
    var entries := l.entries + [saved];
    assert entries[|l.entries|].id == saved.id;
    assert forall k :: 0 <= k < |l.entries| ==> entries[k] == l.entries[k];
    (saved, LedgerRepo(entries, l.nextId + 1))
  }

  /** `save(entry)` of an existing row: the row with that id is replaced. */
  function Replace(l: LedgerRepo, i: nat, e: LedgerEntry): (r: LedgerRepo)
    requires i < |l.entries| && e.id == l.entries[i].id
    ensures r == l.(entries := l.entries[i := e])
    ensures WellFormed(l) ==> WellFormed(r)
    ensures FindEntry(r.entries, e.id) == FindEntry(l.entries, e.id)
  {
    SameIdsSameFind(l.entries[i := e], l.entries, e.id);
    l.(entries := l.entries[i := e])
  }

  /** Two tables with the same ids in the same places find an id at the same place. */
  lemma SameIdsSameFind(a: seq<LedgerEntry>, b: seq<LedgerEntry>, id: int)
    requires |a| == |b| && forall k :: 0 <= k < |a| ==> a[k].id == b[k].id
    ensures FindEntry(a, id) == FindEntry(b, id)
  {
    var x := FindEntry(a, id);
    var y := FindEntry(b, id);
    if x.Some? {
      assert b[x.value].id == id;
    }
    if y.Some? {
      assert a[y.value].id == id;
    }
  }

  /** `adjustRiderBalance(riderId, delta)`: the rider's pending balance,
      counting null as zero, moves by `delta`; an unknown rider is skipped. */
  function AdjustRiderBalance(users: Accounts.UserRepo, riderId: int, delta: real): (r: Accounts.UserRepo)
    ensures |r.users| == |users.users| && r.nextId == users.nextId
    ensures Accounts.FindById(users.users, riderId).None? ==> r == users
    ensures Accounts.FindById(users.users, riderId).Some? ==>
            var i := Accounts.FindById(users.users, riderId).value;
            r.users == users.users[i := users.users[i].(pendingBalance := Some(users.users[i].pendingBalance.GetOr(0.0) + delta))]
  {
    match Accounts.FindById(users.users, riderId)
    case None => users
    case Some(i) =>
      var u := users.users[i];
      users.(users := users.users[i := u.(pendingBalance := Some(u.pendingBalance.GetOr(0.0) + delta))])
  }

  /** The pending balance of the rider with that id, null counting as zero. */
  function PendingBalance(users: Accounts.UserRepo, riderId: int): real {
    match Accounts.FindById(users.users, riderId)
    case None => 0.0
    case Some(i) => users.users[i].pendingBalance.GetOr(0.0)
  }

  /** Two adjustments of the same rider add up. */
  lemma AdjustmentsAdd(users: Accounts.UserRepo, riderId: int, a: real, b: real)
    requires Accounts.FindById(users.users, riderId).Some?
    ensures PendingBalance(AdjustRiderBalance(AdjustRiderBalance(users, riderId, a), riderId, b), riderId)
            == PendingBalance(users, riderId) + a + b
  {
    var once := AdjustRiderBalance(users, riderId, a);
    var i := Accounts.FindById(users.users, riderId).value;
    AdjustmentMovesBalance(users, riderId, a);
    assert once.users[i].id == riderId;
    AdjustmentMovesBalance(once, riderId, b);
  }

  /** An adjustment moves only the given rider's balance. */
  lemma AdjustmentLeavesOthers(users: Accounts.UserRepo, riderId: int, delta: real, other: int)
    requires other != riderId
    ensures PendingBalance(AdjustRiderBalance(users, riderId, delta), other) == PendingBalance(users, other)
  {
    var r := AdjustRiderBalance(users, riderId, delta);
    assert forall j :: 0 <= j < |users.users| ==> r.users[j].id == users.users[j].id;
    Accounts.FindByIdSameIds(users.users, r.users, other);
  }

  /** The balance after an adjustment is the balance before plus the delta. */
  lemma AdjustmentMovesBalance(users: Accounts.UserRepo, riderId: int, delta: real)
    requires Accounts.FindById(users.users, riderId).Some?
    ensures PendingBalance(AdjustRiderBalance(users, riderId, delta), riderId) == PendingBalance(users, riderId) + delta
  {
    var r := AdjustRiderBalance(users, riderId, delta);
    var i := Accounts.FindById(users.users, riderId).value;
    assert r.users[i].id == riderId;
    assert forall j :: 0 <= j < i ==> r.users[j] == users.users[j];
  }

  /** A bill's charge lines as stored: `LedgerCharge.from` with the line's
      meta, null meta counting as empty. */
  function StoredCharges(lines: Bill): (r: seq<LedgerCharge>)
    ensures |r| == |lines|
    ensures forall k :: 0 <= k < |lines| ==>
              r[k].code == lines[k].code && r[k].amount == lines[k].amount
              && r[k].meta == SerializeMeta(lines[k].meta.GetOr([]))
  {
    Seqs.MapSeq(lines, (c: ChargeLine) => From(c.code, c.amount, c.meta.GetOr([])))
  }

  /** `String.format("%s • %d min • $%s", plan, minutes, total)`, with
      `totalText` the decimal text of the total. */
  function TripSummary(planName: string, minutes: nat, totalText: string): (s: string)
    ensures |s| == |planName| + |Text.NatToString(minutes)| + |totalText| + 11
    ensures s[..|planName|] == planName
  {
    planName + " • " + Text.NatToString(minutes) + " min • $" + totalText
  }

  /** `appendTripEntry(bill, trip)`: a PENDING entry for the trip, priced by
      the bill, with the charge lines copied in order; the rider's pending
      balance then grows by the total. `totalText` is the total's decimal
      text. A trip whose start or end station or time is missing breaks a
      NOT NULL column, and an over-long summary or meta breaks its length. */
  function AppendTripEntry(l: LedgerRepo, users: Accounts.UserRepo, bill: PricingEngine.FinalizedBill,
                           t: TripFacts, totalText: string): (r: Result<(LedgerEntry, LedgerRepo, Accounts.UserRepo)>)
    ensures t.startStationId.None? ==> r == Err(ConstraintViolation("start_station_id"))
    ensures r.Ok? <==> t.startStationId.Some? && t.endStationId.Some? && t.startTime.Some? && t.endTime.Some?
                       && |TripSummary(bill.planName, DurationMinutes(t), totalText)| <= SummaryLength
                       && (forall k :: 0 <= k < |bill.charges| ==> |SerializeMeta(bill.charges[k].meta.GetOr([])).GetOr("")| <= MetaLength)
    ensures r.Ok? ==>
            var e := r.value.0;
            && r.value.1 == LedgerRepo(l.entries + [e], l.nextId + 1)
            && r.value.2 == AdjustRiderBalance(users, t.riderId, bill.total)
            && e.id == l.nextId && e.riderId == t.riderId && e.bikeId == t.bikeId
            && e.planVersionId == bill.planVersionId && e.planName == bill.planName
            && e.paymentStatus == PENDING && e.total == bill.total
            && e.durationMinutes == DurationMinutes(t) && e.distanceKm == t.distanceKm
            && e.startStationId == t.startStationId.value && e.endStationId == t.endStationId.value
            && e.startTime == t.startTime.value && e.endTime == t.endTime.value
            && e.charges == StoredCharges(bill.charges)
            && e.summary == Some(TripSummary(bill.planName, DurationMinutes(t), totalText))
            && e.paymentReference.None? && e.paymentProcessedAt.None? && e.adjustmentOfEntryId.None?
  {
    if t.startStationId.None? then Err(ConstraintViolation("start_station_id"))
    else if t.endStationId.None? then Err(ConstraintViolation("end_station_id"))
    else if t.startTime.None? then Err(ConstraintViolation("start_time"))
    else if t.endTime.None? then Err(ConstraintViolation("end_time"))
    else
      var minutes := DurationMinutes(t);
      var e := LedgerEntry(0, t.riderId, bill.planVersionId, bill.planName, t.bikeId,
                           t.startStationId.value, t.endStationId.value, t.startTime.value, t.endTime.value,
                           minutes, t.distanceKm, bill.total, PENDING, None, None,
                           StoredCharges(bill.charges), Some(TripSummary(bill.planName, minutes, totalText)), None);
      match OverlongColumn(e)
      case Some(column) => Err(ConstraintViolation(column))
      case None =>
        var (saved, l') := Insert(l, e);
        Ok((saved, l', AdjustRiderBalance(users, t.riderId, bill.total)))
  }

  /** `appendAdjustment(riderId, original, bill, note)` at time `now`: an
      ADJUSTED entry that copies the original trip's bike, stations, times,
      duration and distance, carries the bill's plan, charges and total,
      records `note` as its summary and points back at the original; the
      rider's pending balance then moves by the bill's total. */
  function AppendAdjustment(l: LedgerRepo, users: Accounts.UserRepo, riderId: int, original: LedgerEntry,
                            bill: PricingEngine.FinalizedBill, note: string, now: Time)
    : (r: Result<(LedgerEntry, LedgerRepo, Accounts.UserRepo)>)
    ensures r.Ok? <==> |note| <= SummaryLength
                       && (forall k :: 0 <= k < |bill.charges| ==> |SerializeMeta(bill.charges[k].meta.GetOr([])).GetOr("")| <= MetaLength)
    ensures |note| > SummaryLength ==> r == Err(ConstraintViolation("summary"))
    ensures r.Ok? ==>
            var e := r.value.0;
            && r.value.1 == LedgerRepo(l.entries + [e], l.nextId + 1)
            && r.value.2 == AdjustRiderBalance(users, riderId, bill.total)
            && e.id == l.nextId && e.riderId == riderId
            && e.planVersionId == bill.planVersionId && e.planName == bill.planName
            && e.bikeId == original.bikeId && e.startStationId == original.startStationId
            && e.endStationId == original.endStationId && e.startTime == original.startTime
            && e.endTime == original.endTime && e.durationMinutes == original.durationMinutes
            && e.distanceKm == original.distanceKm
            && e.total == bill.total && e.paymentStatus == ADJUSTED && e.paymentProcessedAt == Some(now)
            && e.charges == StoredCharges(bill.charges) && e.summary == Some(note)
            && e.adjustmentOfEntryId == Some(original.id) && e.paymentReference.None?
  {
    var e := LedgerEntry(0, riderId, bill.planVersionId, bill.planName, original.bikeId,
                         original.startStationId, original.endStationId, original.startTime, original.endTime,
                         original.durationMinutes, original.distanceKm, bill.total, ADJUSTED, None, Some(now),
                         StoredCharges(bill.charges), Some(note), Some(original.id));
    match OverlongColumn(e)
    case Some(column) => Err(ConstraintViolation(column))
    case None =>
      var (saved, l') := Insert(l, e);
      Ok((saved, l', AdjustRiderBalance(users, riderId, bill.total)))
  }

  /** Appending never touches an existing entry: the old table is a prefix of the new one. */
  lemma AppendOnly(l: LedgerRepo, users: Accounts.UserRepo, bill: PricingEngine.FinalizedBill, t: TripFacts,
                   totalText: string)
    requires WellFormed(l)
    requires AppendTripEntry(l, users, bill, t, totalText).Ok?
    ensures var l' := AppendTripEntry(l, users, bill, t, totalText).value.1;
            WellFormed(l') && l'.entries[..|l.entries|] == l.entries
            && forall id :: FindEntry(l.entries, id).Some? ==> FindEntry(l'.entries, id) == FindEntry(l.entries, id)
  {
    AppendKeepsEntries(l, AppendTripEntry(l, users, bill, t, totalText).value.0);
  }

  /** Adding a row with the next id keeps the table well formed and every
      existing row where it was. */
  lemma AppendKeepsEntries(l: LedgerRepo, e: LedgerEntry)
    requires WellFormed(l) && e.id == l.nextId
    ensures var l' := LedgerRepo(l.entries + [e], l.nextId + 1);
            WellFormed(l') && l'.entries[..|l.entries|] == l.entries
            && forall id :: FindEntry(l.entries, id).Some? ==> FindEntry(l'.entries, id) == FindEntry(l.entries, id)
  {
    var l' := LedgerRepo(l.entries + [e], l.nextId + 1);
    assert l'.entries[..|l.entries|] == l.entries;
    forall id | FindEntry(l.entries, id).Some?
      ensures FindEntry(l'.entries, id) == FindEntry(l.entries, id)
    {
      FindEntryExtends(l.entries, e, id);
    }
  }

  /** A row found before an append is found at the same place after it. */
  lemma FindEntryExtends(entries: seq<LedgerEntry>, e: LedgerEntry, id: int)
    requires FindEntry(entries, id).Some?
    ensures FindEntry(entries + [e], id) == FindEntry(entries, id)
  {
    var i := FindEntry(entries, id).value;
    var longer := entries + [e];
    assert longer[i] == entries[i];
    forall j | 0 <= j < i
      ensures longer[j].id != id
    {
      assert longer[j] == entries[j];
    }
  }

  /** The trip's rider is charged exactly the bill's total. */
  lemma TripEntryChargesRider(l: LedgerRepo, users: Accounts.UserRepo, bill: PricingEngine.FinalizedBill,
                              t: TripFacts, totalText: string)
    requires AppendTripEntry(l, users, bill, t, totalText).Ok?
    requires Accounts.FindById(users.users, t.riderId).Some?
    ensures PendingBalance(AppendTripEntry(l, users, bill, t, totalText).value.2, t.riderId)
            == PendingBalance(users, t.riderId) + bill.total
  {
    AdjustmentMovesBalance(users, t.riderId, bill.total);
  }

  // ---- LedgerEntryRepository

  function StartTimeOf(e: LedgerEntry): int { e.startTime }

  /** `findByRiderIdOrderByStartTimeDesc(riderId)`. */
  function ByRider(entries: seq<LedgerEntry>, riderId: int): (r: seq<LedgerEntry>)
    ensures forall e :: e in r <==> e in entries && e.riderId == riderId
    ensures Seqs.SortedDesc(r, StartTimeOf)
    ensures |r| == Seqs.Count(entries, (e: LedgerEntry) => e.riderId == riderId)
  {
    Seqs.SelectDesc(entries, (e: LedgerEntry) => e.riderId == riderId, StartTimeOf)
  }

  /** The JPQL `between` of the range query: both bounds inclusive. */
  predicate InRange(e: LedgerEntry, riderId: int, start: Time, end: Time) {
    e.riderId == riderId && start <= e.startTime <= end
  }

  /** `findByRiderAndDateRange(riderId, start, end)`. */
  function ByRiderInRange(entries: seq<LedgerEntry>, riderId: int, start: Time, end: Time): (r: seq<LedgerEntry>)
    ensures forall e :: e in r <==> e in entries && e.riderId == riderId && start <= e.startTime <= end
    ensures Seqs.SortedDesc(r, StartTimeOf)
    ensures |r| == Seqs.Count(entries, (e: LedgerEntry) => InRange(e, riderId, start, end))
  {
    Seqs.SelectDesc(entries, (e: LedgerEntry) => InRange(e, riderId, start, end), StartTimeOf)
  }

  /** `findByPaymentStatusOrderByStartTimeDesc(status)`. */
  function ByStatus(entries: seq<LedgerEntry>, status: PaymentStatus): (r: seq<LedgerEntry>)
    ensures forall e :: e in r <==> e in entries && e.paymentStatus == status
    ensures Seqs.SortedDesc(r, StartTimeOf)
    ensures |r| == Seqs.Count(entries, (e: LedgerEntry) => e.paymentStatus == status)
  {
    Seqs.SelectDesc(entries, (e: LedgerEntry) => e.paymentStatus == status, StartTimeOf)
  }

  /** A range that starts after it ends is empty. */
  lemma EmptyRange(entries: seq<LedgerEntry>, riderId: int, start: Time, end: Time)
    requires end < start
    ensures ByRiderInRange(entries, riderId, start, end) == []
  {
    assert forall j :: 0 <= j < |entries| ==> !InRange(entries[j], riderId, start, end);
  }

  /** The range query returns a sub-list of the rider query. */
  lemma RangeWithinRider(entries: seq<LedgerEntry>, riderId: int, start: Time, end: Time)
    ensures forall e :: e in ByRiderInRange(entries, riderId, start, end) ==> e in ByRider(entries, riderId)
  {
  }

  // ---- Responses

  /** `ChargeLineResponse`: the stored meta text decoded again. */
  datatype ChargeLineResponse = ChargeLineResponse(code: string, amount: real, meta: map<string, string>)

  function ChargeResponse(c: LedgerCharge): ChargeLineResponse {
    ChargeLineResponse(c.code, c.amount, MetaAsMap(c.meta))
  }

  function ChargeResponses(charges: seq<LedgerCharge>): (r: seq<ChargeLineResponse>)
    ensures |r| == |charges|
    ensures forall k :: 0 <= k < |charges| ==>
              r[k].code == charges[k].code && r[k].amount == charges[k].amount && r[k].meta == MetaAsMap(charges[k].meta)
  {
    Seqs.MapSeq(charges, ChargeResponse)
  }

  /** `BillingEntryResponse`. */
  datatype BillingEntryResponse = BillingEntryResponse(
    id: int, planVersionId: PlanId, planName: string, bikeId: int, startStationId: int, endStationId: int,
    startTime: Time, endTime: Time, durationMinutes: int, distanceKm: real, total: real,
    paymentStatus: PaymentStatus, charges: seq<ChargeLineResponse>, summary: Option<string>,
    paymentReference: Option<string>, paymentProcessedAt: Option<Time>, adjustmentOfEntryId: Option<int>)

  function ToResponse(e: LedgerEntry): (r: BillingEntryResponse)
    ensures r.id == e.id && r.total == e.total && r.paymentStatus == e.paymentStatus && r.startTime == e.startTime
    ensures r.planVersionId == e.planVersionId && r.planName == e.planName
    ensures r.charges == ChargeResponses(e.charges)
  {
    BillingEntryResponse(e.id, e.planVersionId, e.planName, e.bikeId, e.startStationId, e.endStationId,
                         e.startTime, e.endTime, e.durationMinutes, e.distanceKm, e.total, e.paymentStatus,
                         ChargeResponses(e.charges), e.summary, e.paymentReference, e.paymentProcessedAt,
                         e.adjustmentOfEntryId)
  }

  function ResponseStart(r: BillingEntryResponse): int { r.startTime }

  /** `getHistory(riderId, start, end)`: the range query when both bounds
      are given, otherwise all of the rider's entries; newest first. */
  function GetHistory(l: LedgerRepo, riderId: int, start: Option<Time>, end: Option<Time>): (r: seq<BillingEntryResponse>)
    ensures start.Some? && end.Some? ==> r == Seqs.MapSeq(ByRiderInRange(l.entries, riderId, start.value, end.value), ToResponse)
    ensures start.None? || end.None? ==> r == Seqs.MapSeq(ByRider(l.entries, riderId), ToResponse)
  {
    Seqs.MapSeq(HistoryEntries(l, riderId, start, end), ToResponse)
  }

  /** The entries a history lists. */
  function HistoryEntries(l: LedgerRepo, riderId: int, start: Option<Time>, end: Option<Time>): seq<LedgerEntry> {
    if start.Some? && end.Some? then ByRiderInRange(l.entries, riderId, start.value, end.value)
    else ByRider(l.entries, riderId)
  }

  /** An entry the history must list: the rider's, and within the range when both bounds are given. */
  predicate Listed(e: LedgerEntry, riderId: int, start: Option<Time>, end: Option<Time>) {
    e.riderId == riderId && (start.Some? && end.Some? ==> start.value <= e.startTime <= end.value)
  }

  /** The history is newest first. */
  lemma HistoryNewestFirst(l: LedgerRepo, riderId: int, start: Option<Time>, end: Option<Time>)
    ensures Seqs.SortedDesc(GetHistory(l, riderId, start, end), ResponseStart)
  {
    var entries := HistoryEntries(l, riderId, start, end);
    var r := GetHistory(l, riderId, start, end);
    assert forall i :: 0 <= i < |r| ==> ResponseStart(r[i]) == StartTimeOf(entries[i]);
  }

  /** The history lists every entry of the rider (within the range when both bounds are given). */
  lemma HistoryComplete(l: LedgerRepo, riderId: int, start: Option<Time>, end: Option<Time>, e: LedgerEntry)
    requires e in l.entries && Listed(e, riderId, start, end)
    ensures ToResponse(e) in GetHistory(l, riderId, start, end)
  {
    var entries := HistoryEntries(l, riderId, start, end);
    HistoryEntriesListed(l, riderId, start, end);
    Seqs.MapSeqMember(entries, ToResponse, e);
  }

  /** The entries of a history are exactly the listed ones. */
  lemma HistoryEntriesListed(l: LedgerRepo, riderId: int, start: Option<Time>, end: Option<Time>)
    ensures forall e :: e in HistoryEntries(l, riderId, start, end) <==> e in l.entries && Listed(e, riderId, start, end)
  {
  }

  /** The history lists nothing but entries of the rider (within the range when both bounds are given). */
  lemma HistorySound(l: LedgerRepo, riderId: int, start: Option<Time>, end: Option<Time>, k: nat)
    requires k < |GetHistory(l, riderId, start, end)|
    ensures exists e :: e in l.entries && Listed(e, riderId, start, end)
                        && GetHistory(l, riderId, start, end)[k] == ToResponse(e)
  {
    var entries := HistoryEntries(l, riderId, start, end);
    HistoryEntriesListed(l, riderId, start, end);
    assert entries[k] in entries;
    assert GetHistory(l, riderId, start, end)[k] == ToResponse(entries[k]);
  }

  /** With one bound missing the other is ignored: the history is the rider's whole history. */
  lemma OneBoundIsIgnored(l: LedgerRepo, riderId: int, start: Time)
    ensures GetHistory(l, riderId, Some(start), None) == GetHistory(l, riderId, None, None)
  {
  }

  /** `TripSummaryResponse`. */
  datatype TripSummaryResponse = TripSummaryResponse(
    bikeId: int, riderId: int, startStationId: int, endStationId: int, startTime: Time, endTime: Time,
    durationMinutes: int, distanceKm: real, total: real, charges: seq<ChargeLineResponse>, planName: string)

  /** `buildSummary(entry)`. */
  function BuildSummary(e: LedgerEntry): (r: TripSummaryResponse)
    ensures r.riderId == e.riderId && r.total == e.total && r.planName == e.planName
    ensures r.durationMinutes == e.durationMinutes && r.charges == ChargeResponses(e.charges)
  {
    TripSummaryResponse(e.bikeId, e.riderId, e.startStationId, e.endStationId, e.startTime, e.endTime,
                        e.durationMinutes, e.distanceKm, e.total, ChargeResponses(e.charges), e.planName)
  }

  const EntryNotFound: string := "Ledger entry not found"
  const NotRidersEntry: string := "Ledger entry does not belong to rider"

  /** `getSummary(ledgerEntryId)`. */
  function GetSummary(l: LedgerRepo, id: int): (r: Result<TripSummaryResponse>)
    ensures r.Err? <==> FindEntry(l.entries, id).None?
    ensures r.Err? ==> r.error == IllegalArgument(EntryNotFound)
    ensures r.Ok? ==> r.value == BuildSummary(l.entries[FindEntry(l.entries, id).value])
  {
    match FindEntry(l.entries, id)
    case None => Err(IllegalArgument(EntryNotFound))
    case Some(i) => Ok(BuildSummary(l.entries[i]))
  }

  /** Meta whose keys avoid '=' and ';' and whose values avoid ';'. */
  predicate PlainMeta(m: Meta) {
    forall i :: 0 <= i < |m| ==> '=' !in m[i].0 && ';' !in m[i].0 && ';' !in m[i].1
  }

  /** The summary of a freshly appended trip shows the bill: every charge
      line's code and amount, and its meta map read back from the stored
      text, whenever the meta keys and values avoid the separators. */
  lemma SummaryShowsBill(l: LedgerRepo, users: Accounts.UserRepo, bill: PricingEngine.FinalizedBill,
                         t: TripFacts, totalText: string)
    requires WellFormed(l)
    requires AppendTripEntry(l, users, bill, t, totalText).Ok?
    requires forall k :: 0 <= k < |bill.charges| ==> PlainMeta(bill.charges[k].meta.GetOr([]))
    ensures var (e, l', _) := AppendTripEntry(l, users, bill, t, totalText).value;
            var s := GetSummary(l', e.id);
            && s.Ok? && s.value.total == bill.total && s.value.planName == bill.planName
            && s.value.durationMinutes == DurationMinutes(t)
            && |s.value.charges| == |bill.charges|
            && forall k :: 0 <= k < |bill.charges| ==>
                 s.value.charges[k].code == bill.charges[k].code
                 && s.value.charges[k].amount == bill.charges[k].amount
                 && s.value.charges[k].meta == MapOf(bill.charges[k].meta.GetOr([]))
  {
    var (e, l', _) := AppendTripEntry(l, users, bill, t, totalText).value;
    assert l'.entries[|l.entries|] == e;
    assert FindEntry(l'.entries, e.id) == Some(|l.entries|) by {
      assert forall j :: 0 <= j < |l.entries| ==> l'.entries[j].id == l.entries[j].id < l.nextId;
    }
    forall k | 0 <= k < |bill.charges|
      ensures MetaAsMap(e.charges[k].meta) == MapOf(bill.charges[k].meta.GetOr([]))
    {
      MetaRoundTrip(bill.charges[k].meta.GetOr([]));
    }
  }
}
