/** Payment: the deterministic rules of the fake card gateway, and the
    settlement of a ledger entry through a gateway (`PaymentSettlementService`).

    The gateway's random 5% failure and its random transaction id are a
    `Draw` the caller supplies; its processing delay is not modelled. The
    settlement takes the gateway as a function parameter.
 */
module Payments {
  import opened Wrappers
  import opened Clock
  import Text
  import opened Ledger
  import Accounts
  import PricingRules
  import PricingEngine

  /** `PaymentRequest`. A null amount or token is `None`. */
  datatype PaymentRequest = PaymentRequest(riderId: int, amount: Option<real>, paymentMethodToken: Option<string>,
                                           referenceId: string)

  /** `PaymentResponse`. */
  datatype PaymentResponse = PaymentResponse(success: bool, transactionId: Option<string>, processedAt: Option<Time>,
                                             failureReason: Option<string>)

  /** The card limit. */
  const AmountLimit: real := 10000.0

  const DefaultToken: string := "saved-default"

  /** The `switch` of `simulateFailureScenarios` on a lower-cased token:
      the failure a test token forces, or None for any other token. */
  function ForcedBy(key: string): Option<string> {
    if key == "insufficient-funds" || key == "test-insufficient" then Some("INSUFFICIENT_FUNDS")
    else if key == "expired-card" || key == "test-expired" then Some("CARD_EXPIRED")
    else if key == "invalid-card" || key == "test-invalid" then Some("INVALID_CARD")
    else if key == "declined" || key == "test-declined" then Some("CARD_DECLINED")
    else if key == "fraud-suspected" || key == "test-fraud" then Some("FRAUD_SUSPECTED")
    else if key == "network-error" || key == "test-network" then Some("NETWORK_ERROR")
    else None
  }

  /** The test tokens and the failure each one forces, as a table. */
  const Scenarios: seq<(string, string)> := [
    ("insufficient-funds", "INSUFFICIENT_FUNDS"), ("test-insufficient", "INSUFFICIENT_FUNDS"),
    ("expired-card", "CARD_EXPIRED"), ("test-expired", "CARD_EXPIRED"),
    ("invalid-card", "INVALID_CARD"), ("test-invalid", "INVALID_CARD"),
    ("declined", "CARD_DECLINED"), ("test-declined", "CARD_DECLINED"),
    ("fraud-suspected", "FRAUD_SUSPECTED"), ("test-fraud", "FRAUD_SUSPECTED"),
    ("network-error", "NETWORK_ERROR"), ("test-network", "NETWORK_ERROR")]

  /** `simulateFailureScenarios(token)`: the test tokens are matched
      ignoring case. A token forces a failure exactly when its lower-case
      form is in the table, and then it forces that token's failure. */
  function ScenarioFailure(token: string): (r: Option<string>)
    ensures r.Some? <==> exists k :: 0 <= k < |Scenarios| && Scenarios[k].0 == Text.Lower(token)
    ensures r.Some? ==> exists k :: 0 <= k < |Scenarios| && Scenarios[k] == (Text.Lower(token), r.value)
  {
    ForcedByTable(Text.Lower(token));
    ForcedBy(Text.Lower(token))
  }

  /** The `switch` and the table agree. */
  lemma ForcedByTable(key: string)
    ensures ForcedBy(key).Some? ==> exists k :: 0 <= k < |Scenarios| && Scenarios[k] == (key, ForcedBy(key).value)
    ensures ForcedBy(key).None? ==> forall k :: 0 <= k < |Scenarios| ==> Scenarios[k].0 != key
  {
    if key == "insufficient-funds" {
      assert Scenarios[0] == (key, ForcedBy(key).value);
    } else if key == "test-insufficient" {
      assert Scenarios[1] == (key, ForcedBy(key).value);
    } else if key == "expired-card" {
      assert Scenarios[2] == (key, ForcedBy(key).value);
    } else if key == "test-expired" {
      assert Scenarios[3] == (key, ForcedBy(key).value);
    } else if key == "invalid-card" {
      assert Scenarios[4] == (key, ForcedBy(key).value);
    } else if key == "test-invalid" {
      assert Scenarios[5] == (key, ForcedBy(key).value);
    } else if key == "declined" {
      assert Scenarios[6] == (key, ForcedBy(key).value);
    } else if key == "test-declined" {
      assert Scenarios[7] == (key, ForcedBy(key).value);
    } else if key == "fraud-suspected" {
      assert Scenarios[8] == (key, ForcedBy(key).value);
    } else if key == "test-fraud" {
      assert Scenarios[9] == (key, ForcedBy(key).value);
    } else if key == "network-error" {
      assert Scenarios[10] == (key, ForcedBy(key).value);
    } else if key == "test-network" {
      assert Scenarios[11] == (key, ForcedBy(key).value);
    } else {
      forall k | 0 <= k < |Scenarios|
        ensures Scenarios[k].0 != key
      {
        assert k == 0 || k == 1 || k == 2 || k == 3 || k == 4 || k == 5
               || k == 6 || k == 7 || k == 8 || k == 9 || k == 10 || k == 11;
      }
    }
  }

  /** The failures the gateway may pick at random. */
  datatype RandomFailure = NETWORK_ERROR | GATEWAY_TIMEOUT | TEMPORARY_ERROR

  function RandomFailureName(f: RandomFailure): string {
    match f
    case NETWORK_ERROR => "NETWORK_ERROR"
    case GATEWAY_TIMEOUT => "GATEWAY_TIMEOUT"
    case TEMPORARY_ERROR => "TEMPORARY_ERROR"
  }

  /** The text of a random UUID. */
  type UuidText = s: string | |s| == 36 witness "00000000-0000-0000-0000-000000000000"

  /** The gateway's random outcome for one charge: pass with a fresh UUID,
      or one of the random failures. */
  datatype Draw = Pass(uuid: UuidText) | Fail(failure: RandomFailure)

  function Failure(reason: string, now: Time): PaymentResponse {
    PaymentResponse(false, None, Some(now), Some(reason))
  }

  /** `"TXN-" + uuid.substring(0, 18).toUpperCase()`. */
  function TransactionId(uuid: UuidText): (id: string)
    ensures |id| == 22 && id[..4] == "TXN-"
  {
    "TXN-" + Text.Upper(uuid[..18])
  }

  /** `FakePaymentGateway.charge(request)` at time `now`. A null or
      non-positive amount fails first, then an amount above the limit; a
      null token counts as "saved-default"; a test token forces its
      failure; otherwise the draw decides. */
  function Charge(req: PaymentRequest, draw: Draw, now: Time): (r: PaymentResponse)
    ensures r.processedAt == Some(now)
    ensures r.success ==> r.transactionId.Some? && |r.transactionId.value| == 22
                          && r.transactionId.value[..4] == "TXN-" && r.failureReason.None?
    ensures !r.success ==> r.transactionId.None? && r.failureReason.Some?
    ensures req.amount.None? || req.amount.value <= 0.0 ==> r == Failure("INVALID_AMOUNT", now)
    ensures req.amount.Some? && req.amount.value > AmountLimit ==> r == Failure("AMOUNT_EXCEEDS_LIMIT", now)
    ensures req.amount.Some? && 0.0 < req.amount.value <= AmountLimit ==>
            var forced := ScenarioFailure(req.paymentMethodToken.GetOr(DefaultToken));
            && (forced.Some? ==> r == Failure(forced.value, now))
            && (forced.None? ==> (r.success <==> draw.Pass?))
  {
    if req.amount.None? || req.amount.value <= 0.0 then Failure("INVALID_AMOUNT", now)
    else if req.amount.value > AmountLimit then Failure("AMOUNT_EXCEEDS_LIMIT", now)
    else
      match ScenarioFailure(req.paymentMethodToken.GetOr(DefaultToken))
      case Some(reason) => Failure(reason, now)
      case None =>
        match draw
        case Fail(f) => Failure(RandomFailureName(f), now)
        case Pass(uuid) => PaymentResponse(true, Some(TransactionId(uuid)), Some(now), None)
  }

  /** The test tokens are matched ignoring case. */
  lemma ScenarioIgnoresCase(token: string)
    ensures ScenarioFailure(Text.Upper(token)) == ScenarioFailure(token)
  {
    Text.LowerOfUpper(token);
  }

  /** The default token forces no failure, so a valid amount paid with it
      succeeds exactly when the draw passes. */
  lemma DefaultTokenIsNotATestToken(req: PaymentRequest, draw: Draw, now: Time)
    requires req.amount.Some? && 0.0 < req.amount.value <= AmountLimit
    requires req.paymentMethodToken.None? || req.paymentMethodToken == Some(DefaultToken)
    ensures Charge(req, draw, now).success <==> draw.Pass?
  {
    DefaultTokenForcesNothing();
    assert req.paymentMethodToken.GetOr(DefaultToken) == DefaultToken;
  }

  lemma DefaultTokenForcesNothing()
    ensures ScenarioFailure(DefaultToken).None?
  {
    forall i | 0 <= i < |DefaultToken|
      ensures !Text.IsUpperAscii(DefaultToken[i])
    {
      // case split over the thirteen positions of the literal
      assert i == 0 || i == 1 || i == 2 || i == 3 || i == 4 || i == 5 || i == 6
             || i == 7 || i == 8 || i == 9 || i == 10 || i == 11 || i == 12;
    }
    Text.LowerOfLowerCase(DefaultToken);
    DefaultIsNoTestToken();
  }

  lemma DefaultIsNoTestToken()
    ensures ForcedBy(DefaultToken).None?
  {
  }

  /** Every outcome except the random one is fixed by the request alone. */
  lemma OnlyTheDrawIsRandom(req: PaymentRequest, d1: Draw, d2: Draw, now: Time)
    requires req.amount.None? || req.amount.value <= 0.0 || req.amount.value > AmountLimit
             || ScenarioFailure(req.paymentMethodToken.GetOr(DefaultToken)).Some?
    ensures Charge(req, d1, now) == Charge(req, d2, now)
  {
  }

  /** The gateway's reference for a ledger entry: "LEDGER-" and the id. */
  function LedgerReference(entryId: int): (r: string)
    ensures |r| > 7 && r[..7] == "LEDGER-"
  {
    "LEDGER-" + Text.IntToString(entryId)
  }

  /** What follows "LEDGER-" reads back as the id: its decimal digits,
      after a '-' when the id is negative. */
  lemma LedgerReferenceReadsBack(entryId: int)
    ensures entryId >= 0 ==> Text.ParseNat(LedgerReference(entryId)[7..]) == Some(entryId)
    ensures entryId < 0 ==> LedgerReference(entryId)[7] == '-' && Text.ParseNat(LedgerReference(entryId)[8..]) == Some(-entryId)
  {
    var r := LedgerReference(entryId);
    Text.ParseNatToString(if entryId < 0 then -entryId else entryId);
    assert entryId < 0 ==> r[8..] == Text.NatToString(-entryId);
    assert entryId >= 0 ==> r[7..] == Text.NatToString(entryId);
  }

  /** Two entries never share a gateway reference. */
  lemma DistinctEntriesDistinctReferences(a: int, b: int)
    requires a != b
    ensures LedgerReference(a) != LedgerReference(b)
  {
    assert LedgerReference(a)[7..] == Text.IntToString(a);
    assert LedgerReference(b)[7..] == Text.IntToString(b);
    if LedgerReference(a) == LedgerReference(b) {
      Text.IntToStringInjective(a, b);
    }
  }

  /** `settle(riderId, ledgerEntryId, token)` with gateway `gateway` at
      time `now`: the response, the ledger and the users afterwards. An
      unknown entry or another rider's entry fails; a PAID entry answers
      with its stored reference and changes nothing; any other entry is
      charged its total. */
  function Settle(l: LedgerRepo, users: Accounts.UserRepo, riderId: int, entryId: int, token: Option<string>,
                  gateway: PaymentRequest -> PaymentResponse, now: Time)
    : (r: Result<(PaymentResponse, LedgerRepo, Accounts.UserRepo)>)
    ensures FindEntry(l.entries, entryId).None? ==> r == Err(IllegalArgument(EntryNotFound))
    ensures FindEntry(l.entries, entryId).Some? && l.entries[FindEntry(l.entries, entryId).value].riderId != riderId
            ==> r == Err(IllegalArgument(NotRidersEntry))
    ensures FindEntry(l.entries, entryId).Some? ==>
            var i := FindEntry(l.entries, entryId).value;
            var e := l.entries[i];
            var req := PaymentRequest(riderId, Some(e.total), token, LedgerReference(entryId));
            var resp := gateway(req);
            && (e.riderId == riderId && e.paymentStatus == PAID ==>
                  r == Ok((PaymentResponse(true, e.paymentReference, e.paymentProcessedAt, None), l, users)))
            && (e.riderId == riderId && e.paymentStatus != PAID && resp.success ==>
                  var e' := e.(paymentStatus := PAID, paymentReference := resp.transactionId,
                               paymentProcessedAt := resp.processedAt);
                  r == if OverlongColumn(e').Some? then Err(ConstraintViolation(OverlongColumn(e').value))
                       else Ok((resp, l.(entries := l.entries[i := e']), AdjustRiderBalance(users, riderId, -e.total))))
            && (e.riderId == riderId && e.paymentStatus != PAID && !resp.success ==>
                  var e' := e.(paymentStatus := FAILED, paymentReference := resp.failureReason,
                               paymentProcessedAt := Some(now));
                  r == if OverlongColumn(e').Some? then Err(ConstraintViolation(OverlongColumn(e').value))
                       else Ok((resp, l.(entries := l.entries[i := e']), users)))
  {
    match FindEntry(l.entries, entryId)
    case None => Err(IllegalArgument(EntryNotFound))
    case Some(i) =>
      var e := l.entries[i];
      if e.riderId != riderId then Err(IllegalArgument(NotRidersEntry))
      else if e.paymentStatus == PAID then
        Ok((PaymentResponse(true, e.paymentReference, e.paymentProcessedAt, None), l, users))
      else Record(l, users, riderId, i, gateway(PaymentRequest(riderId, Some(e.total), token, LedgerReference(entryId))), now)
  }

  /** What `settle` stores once the gateway has answered `resp` for entry
      `i`: only that entry changes, and only in its payment columns; it is
      PAID after a success and FAILED otherwise; a failure leaves the users
      as they were; the table stays well formed. */
  function Record(l: LedgerRepo, users: Accounts.UserRepo, riderId: int, i: nat, resp: PaymentResponse, now: Time)
    : (r: Result<(PaymentResponse, LedgerRepo, Accounts.UserRepo)>)
    requires i < |l.entries|
    ensures r.Ok? ==> r.value.0 == resp && r.value.1.nextId == l.nextId && |r.value.1.entries| == |l.entries|
    ensures r.Ok? ==> forall j :: 0 <= j < |l.entries| && j != i ==> r.value.1.entries[j] == l.entries[j]
    ensures r.Ok? ==> var e' := r.value.1.entries[i];
                      && e'.paymentStatus == (if resp.success then PAID else FAILED)
                      && e'.paymentReference == (if resp.success then resp.transactionId else resp.failureReason)
                      && e'.(paymentStatus := l.entries[i].paymentStatus, paymentReference := l.entries[i].paymentReference,
                             paymentProcessedAt := l.entries[i].paymentProcessedAt) == l.entries[i]
    ensures r.Ok? && !resp.success ==> r.value.2 == users
    ensures r.Ok? && WellFormed(l) ==> WellFormed(r.value.1)
    ensures r.Err? ==> r.error.ConstraintViolation?
  {
    var e := l.entries[i];
    var e' := if resp.success
              then e.(paymentStatus := PAID, paymentReference := resp.transactionId, paymentProcessedAt := resp.processedAt)
              else e.(paymentStatus := FAILED, paymentReference := resp.failureReason, paymentProcessedAt := Some(now));
    match OverlongColumn(e')
    case Some(column) => Err(ConstraintViolation(column))
    case None =>
      var users' := if resp.success then AdjustRiderBalance(users, riderId, -e.total) else users;
      Ok((resp, Replace(l, i, e'), users'))
  }

  /** The fake gateway as a function of the request, for one draw at one time. */
  function FakeGateway(draw: Draw, now: Time): PaymentRequest -> PaymentResponse {
    (req: PaymentRequest) => Charge(req, draw, now)
  }

  /** A request without a token is charged exactly like one carrying the default token. */
  lemma MissingTokenIsDefault(req: PaymentRequest, draw: Draw, now: Time)
    requires req.paymentMethodToken.None?
    ensures Charge(req, draw, now) == Charge(req.(paymentMethodToken := Some(DefaultToken)), draw, now)
  {
  }

  /** So settling without a token is settling with the default token. */
  lemma SettleMissingTokenIsDefault(l: LedgerRepo, users: Accounts.UserRepo, riderId: int, entryId: int,
                                    draw: Draw, now: Time)
    ensures Settle(l, users, riderId, entryId, None, FakeGateway(draw, now), now)
            == Settle(l, users, riderId, entryId, Some(DefaultToken), FakeGateway(draw, now), now)
  {
    match FindEntry(l.entries, entryId)
    case None =>
    case Some(i) =>
      var e := l.entries[i];
      if e.riderId == riderId && e.paymentStatus != PAID {
        var req := PaymentRequest(riderId, Some(e.total), None, LedgerReference(entryId));
        MissingTokenIsDefault(req, draw, now);
        var resp := FakeGateway(draw, now)(req);
        assert resp == FakeGateway(draw, now)(req.(paymentMethodToken := Some(DefaultToken)));
        assert Settle(l, users, riderId, entryId, None, FakeGateway(draw, now), now) == Record(l, users, riderId, i, resp, now);
      }
  }

  /** Settling a second time after a successful settlement is a no-op that
      reports success with the same transaction id and time. */
  lemma SettleIsIdempotent(l: LedgerRepo, users: Accounts.UserRepo, riderId: int, entryId: int, token: Option<string>,
                           gateway: PaymentRequest -> PaymentResponse, again: PaymentRequest -> PaymentResponse,
                           now: Time, later: Time)
    requires Settle(l, users, riderId, entryId, token, gateway, now).Ok?
    requires Settle(l, users, riderId, entryId, token, gateway, now).value.0.success
    ensures var (resp, l', users') := Settle(l, users, riderId, entryId, token, gateway, now).value;
            Settle(l', users', riderId, entryId, token, again, later)
            == Ok((PaymentResponse(true, resp.transactionId, resp.processedAt, None), l', users'))
  {
    var (resp, l', users') := Settle(l, users, riderId, entryId, token, gateway, now).value;
    var i := FindEntry(l.entries, entryId).value;
    assert l'.entries[i].id == entryId;
    assert forall j :: 0 <= j < i ==> l'.entries[j] == l.entries[j];
    assert FindEntry(l'.entries, entryId) == Some(i);
  }

  /** A successful settlement takes the entry's total off the rider's pending balance. */
  lemma PaymentClearsBalance(l: LedgerRepo, users: Accounts.UserRepo, riderId: int, entryId: int, token: Option<string>,
                             gateway: PaymentRequest -> PaymentResponse, now: Time)
    requires Settle(l, users, riderId, entryId, token, gateway, now).Ok?
    requires Accounts.FindById(users.users, riderId).Some?
    ensures var (resp, l', users') := Settle(l, users, riderId, entryId, token, gateway, now).value;
            var e := l.entries[FindEntry(l.entries, entryId).value];
            PendingBalance(users', riderId)
            == PendingBalance(users, riderId) - (if e.paymentStatus != PAID && resp.success then e.total else 0.0)
  {
    var i := FindEntry(l.entries, entryId).value;
    var e := l.entries[i];
    if e.paymentStatus != PAID {
      RecordBalance(l, users, riderId, i, gateway(PaymentRequest(riderId, Some(e.total), token, LedgerReference(entryId))), now);
    }
  }

  /** Storing a gateway answer lowers the rider's balance by the entry's
      total exactly when the answer is a success. */
  lemma RecordBalance(l: LedgerRepo, users: Accounts.UserRepo, riderId: int, i: nat, resp: PaymentResponse, now: Time)
    requires i < |l.entries|
    requires Record(l, users, riderId, i, resp, now).Ok?
    requires Accounts.FindById(users.users, riderId).Some?
    ensures PendingBalance(Record(l, users, riderId, i, resp, now).value.2, riderId)
            == PendingBalance(users, riderId) - (if resp.success then l.entries[i].total else 0.0)
  {
    AdjustmentMovesBalance(users, riderId, -l.entries[i].total);
  }

  /** A trip that is billed and then paid leaves the rider's pending balance where it was. */
  lemma TripThenPaymentNetsZero(l: LedgerRepo, users: Accounts.UserRepo, bill: PricingEngine.FinalizedBill,
                                t: PricingRules.TripFacts, totalText: string, token: Option<string>,
                                gateway: PaymentRequest -> PaymentResponse, now: Time)
    requires WellFormed(l)
    requires AppendTripEntry(l, users, bill, t, totalText).Ok?
    requires Accounts.FindById(users.users, t.riderId).Some?
    ensures var (e, l1, users1) := AppendTripEntry(l, users, bill, t, totalText).value;
            var s := Settle(l1, users1, t.riderId, e.id, token, gateway, now);
            s.Ok? && s.value.0.success ==> PendingBalance(s.value.2, t.riderId) == PendingBalance(users, t.riderId)
  {
    var (e, l1, users1) := AppendTripEntry(l, users, bill, t, totalText).value;
    TripEntryChargesRider(l, users, bill, t, totalText);
    NewEntryIsFound(l, e);
    Accounts.FindByIdSameIds(users.users, users1.users, t.riderId);
    var s := Settle(l1, users1, t.riderId, e.id, token, gateway, now);
    if s.Ok? && s.value.0.success {
      PaymentClearsBalance(l1, users1, t.riderId, e.id, token, gateway, now);
    }
  }

  /** A row appended with the next id is found at the end of the table. */
  lemma NewEntryIsFound(l: LedgerRepo, e: LedgerEntry)
    requires WellFormed(l) && e.id == l.nextId
    ensures FindEntry(l.entries + [e], e.id) == Some(|l.entries|)
  {
    var es := l.entries + [e];
    assert es[|l.entries|] == e;
    assert forall j :: 0 <= j < |l.entries| ==> es[j].id == l.entries[j].id < l.nextId;
  }

  /** An entry whose total is not positive, such as a dispute adjustment,
      can never be paid through the fake gateway: it ends FAILED with
      INVALID_AMOUNT, whatever the token and the draw. */
  lemma NonPositiveTotalIsRejected(l: LedgerRepo, users: Accounts.UserRepo, riderId: int, entryId: int,
                                   token: Option<string>, draw: Draw, now: Time)
    requires FindEntry(l.entries, entryId).Some?
    requires var e := l.entries[FindEntry(l.entries, entryId).value];
             e.riderId == riderId && e.paymentStatus != PAID && e.total <= 0.0 && OverlongColumn(e).None?
    ensures var r := Settle(l, users, riderId, entryId, token, FakeGateway(draw, now), now);
            var i := FindEntry(l.entries, entryId).value;
            r.Ok? && r.value.0 == Failure("INVALID_AMOUNT", now)
            && r.value.1.entries[i].paymentStatus == FAILED
            && r.value.1.entries[i].paymentReference == Some("INVALID_AMOUNT")
            && r.value.2 == users
  {
  }
}
