/** The pure helpers and guards of the pricing page (`Pricing.jsx`): status
    labels, the rider's pending balance, the history selection, which
    billing actions are offered, the date inputs of the plan form, and the
    checks made before a dispute decision or a plan is sent.

    Amounts arrive as JSON numbers; the page's balance is modelled in whole
    cents. JavaScript's `Number(text)` is the parameter `toNumber`, with
    `None` for NaN.
 */
module PricingPage {
  import opened Wrappers
  import Text
  import Seqs
  import Ledger
  import Disputes
  import Accounts
  import opened Clock

  /** What a handler does after its checks: show a message and send
      nothing, or send a request with this body. */
  datatype Submission<T> = Blocked(message: string) | Send(body: T)

  /** JavaScript truthiness of a text value: present and not empty. */
  predicate TruthyText(v: Option<string>) {
    v.Some? && v.value != ""
  }

  // ---- Status labels ----

  /** The payment status codes the page has a label for. */
  const PaymentCodes: seq<string> := ["PENDING", "PAID", "FAILED", "ADJUSTED"]

  /** `formatPaymentStatus(status)`. */
  function PaymentStatusLabel(status: Option<string>): (r: string)
    ensures status.None? ==> r == "Unknown"
    ensures status.Some? && status.value !in PaymentCodes ==> r == status.value
    ensures status.Some? && status.value in PaymentCodes ==> r != status.value && r != "Unknown"
  {
    match status
    case None => "Unknown"
    case Some(s) =>
      if s == "PENDING" then "Pending"
      else if s == "PAID" then "Paid"
      else if s == "FAILED" then "Failed"
      else if s == "ADJUSTED" then "Adjusted"
      else s
  }

  /** The dispute status codes the page has a label for. */
  const DisputeCodes: seq<string> := ["OPEN", "UNDER_REVIEW", "RESOLVED", "REJECTED"]

  /** `formatDisputeStatus(status)`. */
  function DisputeStatusLabel(status: Option<string>): (r: string)
    ensures status.None? ==> r == "Unknown"
    ensures status.Some? && status.value !in DisputeCodes ==> r == status.value
    ensures status.Some? && status.value in DisputeCodes ==> r != status.value && r != "Unknown"
  {
    match status
    case None => "Unknown"
    case Some(s) =>
      if s == "OPEN" then "Open"
      else if s == "UNDER_REVIEW" then "Under Review"
      else if s == "RESOLVED" then "Resolved"
      else if s == "REJECTED" then "Rejected"
      else s
  }

  /** Every status the backend sends gets its own label, and a label is
      "Unknown" only for a missing status (or the literal code "Unknown"). */
  lemma BackendStatusesAreLabelled(p: Ledger.PaymentStatus, q: Ledger.PaymentStatus,
                                   d: Disputes.DisputeStatus, e: Disputes.DisputeStatus, s: Option<string>)
    ensures PaymentStatusLabel(Some(Ledger.StatusName(p))) != Ledger.StatusName(p)
    ensures p != q ==> PaymentStatusLabel(Some(Ledger.StatusName(p))) != PaymentStatusLabel(Some(Ledger.StatusName(q)))
    ensures DisputeStatusLabel(Some(Disputes.DisputeStatusName(d))) != Disputes.DisputeStatusName(d)
    ensures d != e ==> DisputeStatusLabel(Some(Disputes.DisputeStatusName(d)))
                       != DisputeStatusLabel(Some(Disputes.DisputeStatusName(e)))
    ensures PaymentStatusLabel(s) == "Unknown" <==> s == None || s == Some("Unknown")
    ensures DisputeStatusLabel(s) == "Unknown" <==> s == None || s == Some("Unknown")
  {
    PaymentStatusesAreLabelled(p, q, s);
    DisputeStatusesAreLabelled(d, e, s);
  }

  lemma PaymentStatusesAreLabelled(p: Ledger.PaymentStatus, q: Ledger.PaymentStatus, s: Option<string>)
    ensures PaymentStatusLabel(Some(Ledger.StatusName(p))) != Ledger.StatusName(p)
    ensures p != q ==> PaymentStatusLabel(Some(Ledger.StatusName(p))) != PaymentStatusLabel(Some(Ledger.StatusName(q)))
    ensures PaymentStatusLabel(s) == "Unknown" <==> s == None || s == Some("Unknown")
  {
    assert "Unknown" !in PaymentCodes;
  }

  lemma DisputeStatusesAreLabelled(d: Disputes.DisputeStatus, e: Disputes.DisputeStatus, s: Option<string>)
    ensures DisputeStatusLabel(Some(Disputes.DisputeStatusName(d))) != Disputes.DisputeStatusName(d)
    ensures d != e ==> DisputeStatusLabel(Some(Disputes.DisputeStatusName(d)))
                       != DisputeStatusLabel(Some(Disputes.DisputeStatusName(e)))
    ensures DisputeStatusLabel(s) == "Unknown" <==> s == None || s == Some("Unknown")
  {
    assert "Unknown" !in DisputeCodes;
  }

  // ---- Pending balance ----

  /** A billing history entry as the page reads it from the JSON response. */
  datatype EntryView = EntryView(ledgerEntryId: Option<int>, paymentStatus: Option<string>, totalCents: Option<int>)

  predicate IsPending(e: EntryView) {
    e.paymentStatus == Some("PENDING")
  }

  /** `Number(entry.total ?? 0)`: a missing total counts as zero. */
  function EntryCents(e: EntryView): int {
    e.totalCents.GetOr(0)
  }

  /** The `reduce` over the filtered entries, from zero. */
  function SumCents(es: seq<EntryView>): int {
    if |es| == 0 then 0 else EntryCents(es[0]) + SumCents(es[1..])
  }

  /** `computePendingBalance(entries)`, in cents: 0 for an empty history,
      otherwise the totals of the PENDING entries. */
  function PendingCents(entries: seq<EntryView>): (r: int)
    ensures |entries| == 0 ==> r == 0
  {
    if |entries| == 0 then 0 else SumCents(Seqs.Filter(entries, IsPending))
  }

  /** The balance entry by entry: each PENDING entry adds its total and
      every other entry adds nothing. */
  function PendingFold(entries: seq<EntryView>): int {
    if |entries| == 0 then 0
    else (if IsPending(entries[0]) then EntryCents(entries[0]) else 0) + PendingFold(entries[1..])
  }

  /** Filtering then summing is the entry-by-entry balance. */
  lemma {:induction false} PendingMatchesFold(entries: seq<EntryView>)
    ensures PendingCents(entries) == PendingFold(entries)
  {
    if |entries| > 0 {
      PendingMatchesFold(entries[1..]);
      if |entries[1..]| == 0 {
        assert Seqs.Filter(entries[1..], IsPending) == [];
      }
      var rest := Seqs.Filter(entries[1..], IsPending);
      if IsPending(entries[0]) {
        assert Seqs.Filter(entries, IsPending) == [entries[0]] + rest;
        assert ([entries[0]] + rest)[1..] == rest;
        assert SumCents([entries[0]] + rest) == EntryCents(entries[0]) + SumCents(rest);
      } else {
        assert Seqs.Filter(entries, IsPending) == rest;
      }
    }
  }

  /** An entry that is not PENDING adds nothing; with no PENDING entry the balance is 0. */
  lemma {:induction false} NoPendingMeansZero(entries: seq<EntryView>)
    requires forall k :: 0 <= k < |entries| ==> !IsPending(entries[k])
    ensures PendingCents(entries) == 0
  {
    PendingMatchesFold(entries);
    FoldZero(entries);
  }

  lemma {:induction false} FoldZero(entries: seq<EntryView>)
    requires forall k :: 0 <= k < |entries| ==> !IsPending(entries[k])
    ensures PendingFold(entries) == 0
  {
    if |entries| > 0 {
      assert forall k :: 0 <= k < |entries[1..]| ==> entries[1..][k] == entries[k + 1];
      FoldZero(entries[1..]);
    }
  }

  /** Once one PENDING entry is paid, the balance drops by exactly its total. */
  lemma {:induction false} PayingRemovesItsTotal(entries: seq<EntryView>, i: nat)
    requires i < |entries| && IsPending(entries[i])
    ensures PendingCents(entries[i := entries[i].(paymentStatus := Some("PAID"))])
            == PendingCents(entries) - EntryCents(entries[i])
  {
    var paid := entries[i := entries[i].(paymentStatus := Some("PAID"))];
    PendingMatchesFold(entries);
    PendingMatchesFold(paid);
    FoldUpdate(entries, i, entries[i].(paymentStatus := Some("PAID")));
  }

  lemma {:induction false} FoldUpdate(entries: seq<EntryView>, i: nat, x: EntryView)
    requires i < |entries|
    ensures PendingFold(entries[i := x])
            == PendingFold(entries) - (if IsPending(entries[i]) then EntryCents(entries[i]) else 0)
                                    + (if IsPending(x) then EntryCents(x) else 0)
  {
    if i > 0 {
      assert entries[i := x][1..] == entries[1..][i - 1 := x];
      FoldUpdate(entries[1..], i - 1, x);
    } else {
      assert entries[i := x][1..] == entries[1..];
    }
  }

  // ---- Selection and offered actions ----

  /** A truthy entry id: present and not 0. */
  predicate TruthyId(id: Option<int>) {
    id.Some? && id.value != 0
  }

  /** Some entry of the list carries this id. */
  predicate Listed(id: Option<int>, entries: seq<EntryView>) {
    exists k :: 0 <= k < |entries| && entries[k].ledgerEntryId == id
  }

  /** The selected entry after the history is fetched again: null for an
      empty history, the previous selection if it is still listed, otherwise
      the first entry. */
  function NextSelection(current: Option<int>, entries: seq<EntryView>): (r: Option<int>)
    ensures |entries| == 0 ==> r.None?
    ensures |entries| > 0 ==> Listed(r, entries)
    ensures |entries| > 0 && TruthyId(current) && Listed(current, entries) ==> r == current
    ensures |entries| > 0 && r != current ==> r == entries[0].ledgerEntryId
  {
    if |entries| == 0 then None
    else if TruthyId(current) && Listed(current, entries) then current
    else entries[0].ledgerEntryId
  }

  /** Fetching the same history again keeps the selection. */
  lemma SelectionIsStable(current: Option<int>, entries: seq<EntryView>)
    ensures NextSelection(NextSelection(current, entries), entries) == NextSelection(current, entries)
  {
  }

  /** `activeEntry`: the first entry with the selected id, when the selection is truthy. */
  function ActiveEntry(selected: Option<int>, history: seq<EntryView>): (r: Option<EntryView>)
    ensures r.Some? <==> TruthyId(selected) && Listed(selected, history)
    ensures r.Some? ==> r.value in history && r.value.ledgerEntryId == selected
  {
    if !TruthyId(selected) then None
    else
      match Seqs.IndexOf(history, (e: EntryView) => e.ledgerEntryId == selected)
      case None => None
      case Some(i) => Some(history[i])
  }

  /** After a fetch of a non-empty history whose ids are all truthy, an entry is active. */
  lemma RefetchLeavesAnActiveEntry(current: Option<int>, entries: seq<EntryView>)
    requires |entries| > 0
    requires forall k :: 0 <= k < |entries| ==> TruthyId(entries[k].ledgerEntryId)
    ensures ActiveEntry(NextSelection(current, entries), entries).Some?
  {
    assert TruthyId(entries[0].ledgerEntryId);
  }

  /** `canSettlePayment`: the active entry is PENDING. */
  predicate CanSettle(active: Option<EntryView>) {
    active.Some? && active.value.paymentStatus == Some("PENDING")
  }

  /** `canDownloadReceipt`: the active entry is PAID or ADJUSTED. */
  predicate CanDownloadReceipt(active: Option<EntryView>) {
    active.Some? && active.value.paymentStatus in [Some("PAID"), Some("ADJUSTED")]
  }

  /** The two actions are never offered together, and paying the active
      entry swaps one for the other. */
  lemma SettleAndReceiptExclude(e: EntryView)
    ensures !(CanSettle(Some(e)) && CanDownloadReceipt(Some(e)))
    ensures CanSettle(Some(e)) ==> CanDownloadReceipt(Some(e.(paymentStatus := Some("PAID"))))
                                   && !CanSettle(Some(e.(paymentStatus := Some("PAID"))))
    ensures !CanSettle(None) && !CanDownloadReceipt(None)
  {
  }

  // ---- Date inputs of the plan form ----

  /** `normalizeDateTimeInput(value)`: an empty input is null, a 16-character
      `yyyy-MM-ddTHH:mm` value gains ":00" seconds, anything else is sent as is. */
  function NormalizeDateTimeInput(value: Option<string>): (r: Option<string>)
    ensures r.None? <==> !TruthyText(value)
    ensures r.Some? ==> value.value <= r.value
  {
    if !TruthyText(value) then None
    else if |value.value| == 16 then Some(value.value + ":00")
    else value
  }

  /** `toDateTimeLocalInput(value)`: the first 16 characters, or "" for none. */
  function ToDateTimeLocalInput(value: Option<string>): (r: string)
    ensures |r| <= 16
    ensures value.Some? ==> r <= value.value
    ensures value.Some? && |value.value| <= 16 ==> r == value.value
  {
    if !TruthyText(value) then ""
    else if |value.value| <= 16 then value.value
    else value.value[..16]
  }

  /** A `datetime-local` value survives being normalised and put back into the input. */
  lemma DateInputRoundTrip(s: string)
    requires |s| == 16
    ensures ToDateTimeLocalInput(NormalizeDateTimeInput(Some(s))) == s
  {
    assert (s + ":00")[..16] == s;
  }

  /** The other way round, a stored time of at least 16 characters comes
      back with its seconds set to ":00"; it is unchanged exactly when it was
      19 characters ending in ":00". */
  lemma StoredTimeLosesSeconds(x: string)
    requires |x| >= 16
    ensures NormalizeDateTimeInput(Some(ToDateTimeLocalInput(Some(x)))) == Some(x[..16] + ":00")
    ensures NormalizeDateTimeInput(Some(ToDateTimeLocalInput(Some(x)))) == Some(x)
            <==> |x| == 19 && x[16..] == ":00"
  {
    if |x| == 16 {
      assert x[..16] == x;
    }
    if |x| == 19 && x[16..] == ":00" {
      assert x == x[..16] + x[16..];
    }
  }

  // ---- Dispute decision ----

  /** An operator's unsaved edits for one ticket. */
  datatype ResolutionDraft = ResolutionDraft(adjustmentAmount: Option<string>, resolutionNote: Option<string>)

  /** The request body sent to resolve a dispute. */
  datatype ResolveBody = ResolveBody(approved: bool, adjustmentAmount: Option<string>, resolutionNote: Option<string>)

  const PositiveAmountNeeded: string := "Enter a positive adjustment amount before approving."

  /** The draft for a ticket, or an empty one (`drafts[ticketId] ?? {}`). */
  function DraftFor(drafts: map<int, ResolutionDraft>, ticketId: int): ResolutionDraft {
    if ticketId in drafts then drafts[ticketId] else ResolutionDraft(None, None)
  }

  /** The amount text is non-empty and reads as a number above zero. */
  predicate PositiveAmount(amount: Option<string>, toNumber: string -> Option<real>) {
    TruthyText(amount) && toNumber(amount.value).Some? && toNumber(amount.value).value > 0.0
  }

  /** `handleResolveDispute(ticketId, approved)`: an approval needs a
      non-empty amount that reads as a number above zero; the body carries
      the amount only for an approval, and an empty note as null. */
  function ResolveDispute(drafts: map<int, ResolutionDraft>, ticketId: int, approved: bool,
                          toNumber: string -> Option<real>): (r: Submission<ResolveBody>)
    ensures r.Send? <==> !approved || PositiveAmount(DraftFor(drafts, ticketId).adjustmentAmount, toNumber)
    ensures r.Blocked? ==> r.message == PositiveAmountNeeded
    ensures r.Send? ==> r.body.approved == approved
    ensures r.Send? && !approved ==> r.body.adjustmentAmount.None?
    ensures r.Send? && approved ==> r.body.adjustmentAmount == DraftFor(drafts, ticketId).adjustmentAmount
    ensures r.Send? ==> TruthyText(r.body.resolutionNote) || r.body.resolutionNote.None?
  {
    var draft := DraftFor(drafts, ticketId);
    if approved && !PositiveAmount(draft.adjustmentAmount, toNumber) then Blocked(PositiveAmountNeeded)
    else
      var note := if TruthyText(draft.resolutionNote) then draft.resolutionNote else None;
      Send(ResolveBody(approved, if approved then draft.adjustmentAmount else None, note))
  }

  /** An approval the page lets through, read by the server as the same
      number, never meets the server's non-positive-amount rejection. */
  lemma PageApprovalsPassTheAmountCheck(drafts: map<int, ResolutionDraft>, ticketId: int,
                                        toNumber: string -> Option<real>, tickets: Disputes.TicketRepo,
                                        l: Ledger.LedgerRepo, users: Accounts.UserRepo, now: Time)
    requires ResolveDispute(drafts, ticketId, true, toNumber).Send?
    ensures var body := ResolveDispute(drafts, ticketId, true, toNumber).body;
            var req := Disputes.ResolutionRequest(true, toNumber(body.adjustmentAmount.value), body.resolutionNote);
            Disputes.Resolve(tickets, l, users, ticketId, req, now) != Err(IllegalArgument(Disputes.NonPositiveAdjustment))
  {
  }

  // ---- Plan form ----

  /** The plan form: every input is text except the publish checkbox. */
  datatype PlanForm = PlanForm(planName: string, baseFee: string, perMinuteRate: string, ebikeSurcharge: string,
                               membershipTier: string, cityId: string, effectiveFrom: string, effectiveTo: string,
                               description: string, publish: bool)

  /** The body sent to create or update a plan. */
  datatype PlanPayload = PlanPayload(planName: string, baseFee: string, perMinuteRate: string,
                                     ebikeSurcharge: Option<string>, membershipTier: string, cityId: Option<string>,
                                     effectiveFrom: Option<string>, effectiveTo: Option<string>,
                                     description: Option<string>, publish: bool)

  const NameRequired: string := "Plan name is required."
  const BaseFeeNotNumeric: string := "Base fee must be a numeric value."
  const RateNotNumeric: string := "Per-minute rate must be a numeric value."

  /** A fee input the form accepts: not empty and not NaN. */
  predicate NumericInput(v: string, toNumber: string -> Option<real>) {
    v != "" && toNumber(v).Some?
  }

  /** `value ? value.trim() : null`. */
  function TrimmedOrNull(v: string): (r: Option<string>)
    ensures r.None? <==> v == ""
    ensures v != "" ==> r == Some(Text.Trim(v))
    ensures r.Some? && r.value != "" ==> !Text.IsJsWhitespace(r.value[0]) && !Text.IsJsWhitespace(r.value[|r.value| - 1])
  {
    if v == "" then None else Some(Text.Trim(v))
  }

  /** `handlePlanFormSubmit`: the name, the base fee and the per-minute rate
      are checked in that order and the first failure is shown; otherwise the
      payload is built from the form. */
  function SubmitPlan(form: PlanForm, toNumber: string -> Option<real>): (r: Submission<PlanPayload>)
    ensures Text.Trim(form.planName) == "" ==> r == Blocked(NameRequired)
    ensures Text.Trim(form.planName) != "" && !NumericInput(form.baseFee, toNumber) ==> r == Blocked(BaseFeeNotNumeric)
    ensures (Text.Trim(form.planName) != "" && NumericInput(form.baseFee, toNumber)
             && !NumericInput(form.perMinuteRate, toNumber)) ==> r == Blocked(RateNotNumeric)
    ensures r.Send? <==> Text.Trim(form.planName) != "" && NumericInput(form.baseFee, toNumber)
                         && NumericInput(form.perMinuteRate, toNumber)
    ensures r.Send? ==> var p := r.body;
            && p.planName == Text.Trim(form.planName)
            && p.baseFee == form.baseFee && p.perMinuteRate == form.perMinuteRate
            && p.ebikeSurcharge == (if form.ebikeSurcharge == "" then None else Some(form.ebikeSurcharge))
            && p.membershipTier == form.membershipTier
            && p.cityId == TrimmedOrNull(form.cityId)
            && p.description == TrimmedOrNull(form.description)
            && p.effectiveFrom == NormalizeDateTimeInput(Some(form.effectiveFrom))
            && p.effectiveTo == NormalizeDateTimeInput(Some(form.effectiveTo))
            && p.publish == form.publish
  {
    if Text.Trim(form.planName) == "" then Blocked(NameRequired)
    else if !NumericInput(form.baseFee, toNumber) then Blocked(BaseFeeNotNumeric)
    else if !NumericInput(form.perMinuteRate, toNumber) then Blocked(RateNotNumeric)
    else
      Send(PlanPayload(Text.Trim(form.planName), form.baseFee, form.perMinuteRate,
                       if form.ebikeSurcharge == "" then None else Some(form.ebikeSurcharge),
                       form.membershipTier, TrimmedOrNull(form.cityId),
                       NormalizeDateTimeInput(Some(form.effectiveFrom)), NormalizeDateTimeInput(Some(form.effectiveTo)),
                       TrimmedOrNull(form.description), form.publish))
  }

  /** The text fields a sent payload trims come out trimmed, and a city of
      only spaces is sent as the empty string rather than null. */
  lemma PayloadIsTrimmed(form: PlanForm, toNumber: string -> Option<real>)
    requires SubmitPlan(form, toNumber).Send?
    ensures var p := SubmitPlan(form, toNumber).body;
            && p.planName != "" && Text.Trim(p.planName) == p.planName
            && (p.cityId.Some? ==> Text.Trim(p.cityId.value) == p.cityId.value)
            && (p.description.Some? ==> Text.Trim(p.description.value) == p.description.value)
            && (form.cityId != "" && Text.Trim(form.cityId) == "" ==> p.cityId == Some(""))
  {
    Text.TrimIdempotent(form.planName);
    Text.TrimIdempotent(form.cityId);
    Text.TrimIdempotent(form.description);
  }

  /** The effective dates a plan is edited with come back with their seconds
      set to ":00" when the form is sent unchanged. */
  lemma EditedDatesKeepTheirMinute(form: PlanForm, toNumber: string -> Option<real>, from: string)
    requires |from| >= 16 && form.effectiveFrom == ToDateTimeLocalInput(Some(from))
    requires SubmitPlan(form, toNumber).Send?
    ensures SubmitPlan(form, toNumber).body.effectiveFrom == Some(from[..16] + ":00")
  {
    StoredTimeLosesSeconds(from);
  }
}
