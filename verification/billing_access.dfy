/** The billing endpoints (`BillingController`): who may see or settle
    which ledger entries, the defaults of the settle endpoint, and the date
    filter of the operators' export.

    The signed-in caller is `Option<Principal>`; None is a request with no
    authentication.
 */
module BillingAccess {
  import opened Wrappers
  import opened Clock
  import Text
  import Seqs
  import opened Ledger
  import Accounts
  import Payments
  import BillingCsv

  /** An authenticated caller: their username and granted authority names. */
  datatype Principal = Principal(name: string, authorities: seq<string>)

  /** The caller holds an authority named "OPERATOR", compared ignoring case. */
  predicate IsOperator(p: Principal) {
    exists i :: 0 <= i < |p.authorities| && Text.EqualsIgnoreCase("OPERATOR", p.authorities[i])
  }

  const Unauthenticated: string := "Unauthenticated"
  const UserNotFound: string := "User not found"
  const OtherRider: string := "Cannot access billing history for another rider"

  /** The caller's own user id, when their username is registered. */
  function CallerId(users: Accounts.UserRepo, p: Principal): Option<int> {
    match Accounts.FindByUsername(users.users, p.name)
    case None => None
    case Some(i) => Some(users.users[i].id)
  }

  /** `assertRiderScope(riderId)`: operators may act for any rider, anyone
      else only for themselves. */
  function AssertRiderScope(users: Accounts.UserRepo, auth: Option<Principal>, riderId: int): (r: Result<()>)
    ensures auth.None? ==> r == Err(AccessDenied(Unauthenticated))
    ensures r.Ok? <==> auth.Some? && (IsOperator(auth.value) || CallerId(users, auth.value) == Some(riderId))
    ensures auth.Some? && !IsOperator(auth.value) && CallerId(users, auth.value).None?
            ==> r == Err(AccessDenied(UserNotFound))
    ensures r.Err? ==> r.error.AccessDenied?
  {
    if auth.None? then Err(AccessDenied(Unauthenticated))
    else if IsOperator(auth.value) then Ok(())
    else
      match Accounts.FindByUsername(users.users, auth.value.name)
      case None => Err(AccessDenied(UserNotFound))
      case Some(i) => if users.users[i].id != riderId then Err(AccessDenied(OtherRider)) else Ok(())
  }

  /** `requireLedgerAccess(ledgerEntryId)`: the entry, if it exists and the
      caller may act for its rider. */
  function RequireLedgerAccess(l: LedgerRepo, users: Accounts.UserRepo, auth: Option<Principal>, entryId: int)
    : (r: Result<LedgerEntry>)
    ensures FindEntry(l.entries, entryId).None? ==> r == Err(IllegalArgument(EntryNotFound))
    ensures r.Ok? <==> FindEntry(l.entries, entryId).Some?
                       && AssertRiderScope(users, auth, l.entries[FindEntry(l.entries, entryId).value].riderId).Ok?
    ensures r.Ok? ==> r.value == l.entries[FindEntry(l.entries, entryId).value]
  {
    match FindEntry(l.entries, entryId)
    case None => Err(IllegalArgument(EntryNotFound))
    case Some(i) =>
      match AssertRiderScope(users, auth, l.entries[i].riderId)
      case Err(e) => Err(e)
      case Ok(_) => Ok(l.entries[i])
  }

  /** `SettlePaymentRequest`. */
  datatype SettleBody = SettleBody(paymentMethodToken: Option<string>)

  /** The token the settle endpoint passes on: the body's token, which may
      be null, or "saved-default" when there is no body. */
  function TokenOf(body: Option<SettleBody>): Option<string> {
    if body.Some? then body.value.paymentMethodToken else Some(Payments.DefaultToken)
  }

  /** `settlePayment(ledgerEntryId, riderId, request)`: access to the entry
      is checked, the rider defaults to the entry's rider and is checked
      again, and the settlement runs for that rider. */
  function SettleEndpoint(l: LedgerRepo, users: Accounts.UserRepo, auth: Option<Principal>, entryId: int,
                          riderParam: Option<int>, body: Option<SettleBody>,
                          gateway: Payments.PaymentRequest -> Payments.PaymentResponse, now: Time)
    : (r: Result<(Payments.PaymentResponse, LedgerRepo, Accounts.UserRepo)>)
    ensures RequireLedgerAccess(l, users, auth, entryId).Err? ==> r == Err(RequireLedgerAccess(l, users, auth, entryId).error)
    ensures RequireLedgerAccess(l, users, auth, entryId).Ok? && riderParam.None? ==>
            r == Payments.Settle(l, users, l.entries[FindEntry(l.entries, entryId).value].riderId, entryId,
                                 TokenOf(body), gateway, now)
    ensures r.Ok? ==> RequireLedgerAccess(l, users, auth, entryId).Ok?
                      && var rider := l.entries[FindEntry(l.entries, entryId).value].riderId;
                         r == Payments.Settle(l, users, rider, entryId, TokenOf(body), gateway, now)
  {
    match RequireLedgerAccess(l, users, auth, entryId)
    case Err(e) => Err(e)
    case Ok(entry) =>
      var rider := riderParam.GetOr(entry.riderId);
      match AssertRiderScope(users, auth, rider)
      case Err(e) => Err(e)
      case Ok(_) => Payments.Settle(l, users, rider, entryId, TokenOf(body), gateway, now)
  }

  /** Whoever calls, a settlement that goes through is for the entry's own
      rider; a caller who is not an operator can only settle their own
      entries. */
  lemma SettleOnlyOwnEntries(l: LedgerRepo, users: Accounts.UserRepo, auth: Option<Principal>, entryId: int,
                             riderParam: Option<int>, body: Option<SettleBody>,
                             gateway: Payments.PaymentRequest -> Payments.PaymentResponse, now: Time)
    requires SettleEndpoint(l, users, auth, entryId, riderParam, body, gateway, now).Ok?
    ensures FindEntry(l.entries, entryId).Some?
    ensures var e := l.entries[FindEntry(l.entries, entryId).value];
            && riderParam.GetOr(e.riderId) == e.riderId
            && (auth.Some? && !IsOperator(auth.value) ==> CallerId(users, auth.value) == Some(e.riderId))
  {
  }

  /** With the fake gateway, a missing body and a body without a token both
      pay with the saved default method. */
  lemma MissingBodyMeansDefaultToken(l: LedgerRepo, users: Accounts.UserRepo, auth: Option<Principal>, entryId: int,
                                     riderParam: Option<int>, draw: Payments.Draw, now: Time)
    ensures SettleEndpoint(l, users, auth, entryId, riderParam, None, Payments.FakeGateway(draw, now), now)
            == SettleEndpoint(l, users, auth, entryId, riderParam, Some(SettleBody(None)), Payments.FakeGateway(draw, now), now)
  {
    forall rider: int
      ensures Payments.Settle(l, users, rider, entryId, None, Payments.FakeGateway(draw, now), now)
              == Payments.Settle(l, users, rider, entryId, Some(Payments.DefaultToken), Payments.FakeGateway(draw, now), now)
    {
      Payments.SettleMissingTokenIsDefault(l, users, rider, entryId, draw, now);
    }
  }

  /** `getHistory(riderId, start, end)`: the rider's history, for a caller
      who may act for the rider. */
  function HistoryEndpoint(l: LedgerRepo, users: Accounts.UserRepo, auth: Option<Principal>, riderId: int,
                           start: Option<Time>, end: Option<Time>): (r: Result<seq<BillingEntryResponse>>)
    ensures r.Ok? <==> AssertRiderScope(users, auth, riderId).Ok?
    ensures r.Ok? ==> r.value == GetHistory(l, riderId, start, end)
  {
    match AssertRiderScope(users, auth, riderId)
    case Err(e) => Err(e)
    case Ok(_) => Ok(GetHistory(l, riderId, start, end))
  }

  /** A caller who is not an operator sees only their own entries. */
  lemma RidersSeeOnlyTheirOwnHistory(l: LedgerRepo, users: Accounts.UserRepo, p: Principal, riderId: int,
                                     start: Option<Time>, end: Option<Time>, k: nat)
    requires !IsOperator(p)
    requires HistoryEndpoint(l, users, Some(p), riderId, start, end).Ok?
    requires k < |HistoryEndpoint(l, users, Some(p), riderId, start, end).value|
    ensures exists e :: e in l.entries && Some(e.riderId) == CallerId(users, p)
                        && HistoryEndpoint(l, users, Some(p), riderId, start, end).value[k] == ToResponse(e)
  {
    HistorySound(l, riderId, start, end, k);
  }

  /** `getSummary(ledgerEntryId)`, for a caller who may act for the entry's rider. */
  function SummaryEndpoint(l: LedgerRepo, users: Accounts.UserRepo, auth: Option<Principal>, entryId: int)
    : (r: Result<TripSummaryResponse>)
    ensures r.Ok? <==> RequireLedgerAccess(l, users, auth, entryId).Ok?
    ensures r.Ok? ==> r.value == BuildSummary(l.entries[FindEntry(l.entries, entryId).value])
  {
    match RequireLedgerAccess(l, users, auth, entryId)
    case Err(e) => Err(e)
    case Ok(_) => GetSummary(l, entryId)
  }

  /** An entry the export keeps: it starts no earlier than `start` and ends
      no later than `end`, each bound applying only when given. */
  predicate InExportWindow(e: LedgerEntry, start: Option<Time>, end: Option<Time>) {
    (start.None? || e.startTime >= start.value) && (end.None? || e.endTime <= end.value)
  }

  /** The export filter over `findAll()`, which keeps the stored order. */
  function ExportFilter(entries: seq<LedgerEntry>, start: Option<Time>, end: Option<Time>): (r: seq<LedgerEntry>)
    ensures forall e :: e in r <==> e in entries && InExportWindow(e, start, end)
  {
    Seqs.Filter(entries, (e: LedgerEntry) => InExportWindow(e, start, end))
  }

  /** `exportLedger(start, end)`: the CSV of the filtered entries. It reads
      back as the entries in the window, ordered by start time. */
  function ExportLedger(l: LedgerRepo, start: Option<Time>, end: Option<Time>, formatTime: Time -> string,
                        formatDistance: real -> string): (r: string)
    ensures BillingCsv.ReadCsv(r) == Some(BillingCsv.ExportRows(ExportFilter(l.entries, start, end), formatTime, formatDistance))
  {
    BillingCsv.CsvRoundTrip(ExportFilter(l.entries, start, end), formatTime, formatDistance);
    BillingCsv.BuildCsv(ExportFilter(l.entries, start, end), formatTime, formatDistance)
  }

  /** The export bounds the end time where the history range bounds the
      start time: a trip that starts inside a window but ends after it is
      in the rider's history for that window and not in the export. */
  lemma ExportAndHistoryWindowsDiffer(l: LedgerRepo, e: LedgerEntry, start: Time, end: Time)
    requires e in l.entries && start <= e.startTime <= end < e.endTime
    ensures e !in ExportFilter(l.entries, Some(start), Some(end))
    ensures ToResponse(e) in GetHistory(l, e.riderId, Some(start), Some(end))
  {
    HistoryComplete(l, e.riderId, Some(start), Some(end), e);
  }
}
