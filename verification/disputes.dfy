/** Billing disputes (`DisputeService`): a rider opens a ticket against one
    of their ledger entries; an operator resolves it once, and an approval
    books a negative ADJUSTED entry against the original trip.

    A ticket response (`DisputeTicketResponse`) copies every field of the
    ticket, so the operations here return the ticket itself.
 */
module Disputes {
  import opened Wrappers
  import opened Clock
  import Seqs
  import ChargeMeta
  import PricingRules
  import PricingEngine
  import opened Ledger
  import Accounts

  /** `DisputeStatus`. */
  datatype DisputeStatus = OPEN | UNDER_REVIEW | RESOLVED | REJECTED

  /** `status.name()`, as the ticket responses carry it. */
  function DisputeStatusName(s: DisputeStatus): string {
    match s
    case OPEN => "OPEN"
    case UNDER_REVIEW => "UNDER_REVIEW"
    case RESOLVED => "RESOLVED"
    case REJECTED => "REJECTED"
  }

  /** `DisputeTicket`. Null text columns are `None`. */
  datatype DisputeTicket = DisputeTicket(
    id: int,
    riderId: int,
    ledgerEntryId: int,
    reason: Option<string>,
    evidenceUrl: Option<string>,
    status: DisputeStatus,
    createdAt: Time,
    resolvedAt: Option<Time>,
    resolutionNote: Option<string>,
    adjustmentEntryId: Option<int>)

  /** The `billing_disputes` table in storage order, and the next IDENTITY value. */
  datatype TicketRepo = TicketRepo(tickets: seq<DisputeTicket>, nextId: int)

  /** Ticket ids are unique and every one was issued before `nextId`. */
  predicate WellFormedTickets(r: TicketRepo) {
    && (forall i, j :: 0 <= i < j < |r.tickets| ==> r.tickets[i].id != r.tickets[j].id)
    && (forall i :: 0 <= i < |r.tickets| ==> r.tickets[i].id < r.nextId)
  }

  /** The declared column lengths. */
  const ReasonLength: nat := 512
  const EvidenceLength: nat := 1024
  const NoteLength: nat := 512

  /** The column whose constraint a stored ticket would violate: `reason`
      is NOT NULL and at most 512 characters, `evidence_url` at most 1024,
      `resolution_note` at most 512. */
  function OverlongTicketColumn(t: DisputeTicket): (r: Option<string>)
    ensures r.None? <==> t.reason.Some? && |t.reason.value| <= ReasonLength
                         && (t.evidenceUrl.None? || |t.evidenceUrl.value| <= EvidenceLength)
                         && (t.resolutionNote.None? || |t.resolutionNote.value| <= NoteLength)
  {
    if t.reason.None? || |t.reason.value| > ReasonLength then Some("reason")
    else if t.evidenceUrl.Some? && |t.evidenceUrl.value| > EvidenceLength then Some("evidence_url")
    else if t.resolutionNote.Some? && |t.resolutionNote.value| > NoteLength then Some("resolution_note")
    else None
  }

  /** `findById` on the tickets: the position of the ticket with that id. */
  function FindTicket(tickets: seq<DisputeTicket>, id: int): (r: Option<nat>)
    ensures r.Some? ==> r.value < |tickets| && tickets[r.value].id == id
    ensures r.None? <==> forall i :: 0 <= i < |tickets| ==> tickets[i].id != id
  {
    Seqs.IndexOf(tickets, (t: DisputeTicket) => t.id == id)
  }

  /** `DisputeTicketRequest`. */
  datatype TicketRequest = TicketRequest(ledgerEntryId: int, reason: Option<string>, evidenceUrl: Option<string>)

  /** `submit(riderId, request)` at time `now`: the entry must exist and
      belong to the rider; the stored ticket is OPEN. */
  function Submit(tickets: TicketRepo, l: LedgerRepo, riderId: int, req: TicketRequest, now: Time)
    : (r: Result<(DisputeTicket, TicketRepo)>)
    ensures FindEntry(l.entries, req.ledgerEntryId).None? ==> r == Err(IllegalArgument(EntryNotFound))
    ensures FindEntry(l.entries, req.ledgerEntryId).Some?
            && l.entries[FindEntry(l.entries, req.ledgerEntryId).value].riderId != riderId
            ==> r == Err(IllegalArgument(NotRidersEntry))
    ensures r.Ok? <==> FindEntry(l.entries, req.ledgerEntryId).Some?
                       && l.entries[FindEntry(l.entries, req.ledgerEntryId).value].riderId == riderId
                       && req.reason.Some? && |req.reason.value| <= ReasonLength
                       && (req.evidenceUrl.None? || |req.evidenceUrl.value| <= EvidenceLength)
    ensures r.Ok? ==>
            var t := r.value.0;
            && t == DisputeTicket(tickets.nextId, riderId, req.ledgerEntryId, req.reason, req.evidenceUrl, OPEN, now,
                                  None, None, None)
            && r.value.1 == TicketRepo(tickets.tickets + [t], tickets.nextId + 1)
  {
    match FindEntry(l.entries, req.ledgerEntryId)
    case None => Err(IllegalArgument(EntryNotFound))
    case Some(i) =>
      var e := l.entries[i];
      if e.riderId != riderId then Err(IllegalArgument(NotRidersEntry))
      else
        var t := DisputeTicket(tickets.nextId, riderId, e.id, req.reason, req.evidenceUrl, OPEN, now, None, None, None);
        match OverlongTicketColumn(t)
        case Some(column) => Err(ConstraintViolation(column))
        case None => Ok((t, TicketRepo(tickets.tickets + [t], tickets.nextId + 1)))
  }

  /** `DisputeResolutionRequest`. A null amount or note is `None`. */
  datatype ResolutionRequest = ResolutionRequest(approved: bool, adjustmentAmount: Option<real>,
                                                 resolutionNote: Option<string>)

  const TicketNotFound: string := "Dispute ticket not found"
  const OriginalNotFound: string := "Original ledger entry not found"
  const NonPositiveAdjustment: string := "Adjustment amount must be positive when approving disputes"
  const DefaultNote: string := "Dispute adjustment"

  /** A ticket in RESOLVED or REJECTED is closed for good. */
  predicate IsTerminal(s: DisputeStatus) {
    s == RESOLVED || s == REJECTED
  }

  /** The single ADJUSTMENT line of an approval, which refunds `amount`. */
  function AdjustmentLine(amount: real): PricingRules.ChargeLine {
    PricingRules.ChargeLine("ADJUSTMENT", -amount, Some([("source", "dispute")]))
  }

  /** The bill an approval books against `original`. */
  function AdjustmentBill(original: LedgerEntry, amount: real): (b: PricingEngine.FinalizedBill)
    ensures b.total == -amount && b.charges == [AdjustmentLine(amount)]
    ensures b.planVersionId == original.planVersionId && b.planName == original.planName + " Adjustment"
  {
    PricingEngine.FinalizedBill(original.planVersionId, original.planName + " Adjustment", [AdjustmentLine(amount)],
                                -amount)
  }

  /** The ticket after a decision: status, note and time are recorded. */
  function Decided(t: DisputeTicket, req: ResolutionRequest, now: Time): DisputeTicket {
    t.(status := if req.approved then RESOLVED else REJECTED, resolutionNote := req.resolutionNote,
       resolvedAt := Some(now))
  }

  /** `disputeTicketRepository.save(ticket)` of the ticket at position `i`. */
  function SaveTicket(tickets: TicketRepo, i: nat, t: DisputeTicket): (r: Result<TicketRepo>)
    requires i < |tickets.tickets|
    ensures r.Ok? <==> OverlongTicketColumn(t).None?
    ensures r.Ok? ==> r.value == tickets.(tickets := tickets.tickets[i := t])
  {
    match OverlongTicketColumn(t)
    case Some(column) => Err(ConstraintViolation(column))
    case None => Ok(tickets.(tickets := tickets.tickets[i := t]))
  }

  /** `resolve(ticketId, request)` at time `now`: the ticket, and the
      tickets, ledger and users afterwards. A closed ticket is returned as
      it is. A rejection only records the decision; an approval also books
      an adjustment of minus the requested amount for the ticket's rider
      and records the new entry's id on the ticket. */
  function Resolve(tickets: TicketRepo, l: LedgerRepo, users: Accounts.UserRepo, ticketId: int,
                   req: ResolutionRequest, now: Time)
    : (r: Result<(DisputeTicket, TicketRepo, LedgerRepo, Accounts.UserRepo)>)
    ensures FindTicket(tickets.tickets, ticketId).None? ==> r == Err(IllegalArgument(TicketNotFound))
    ensures FindTicket(tickets.tickets, ticketId).Some? ==>
            var t := tickets.tickets[FindTicket(tickets.tickets, ticketId).value];
            IsTerminal(t.status) ==> r == Ok((t, tickets, l, users))
  {
    match FindTicket(tickets.tickets, ticketId)
    case None => Err(IllegalArgument(TicketNotFound))
    case Some(i) =>
      var t := tickets.tickets[i];
      if IsTerminal(t.status) then Ok((t, tickets, l, users))
      else if !req.approved then
        var t' := Decided(t, req, now);
        match SaveTicket(tickets, i, t')
        case Err(e) => Err(e)
        case Ok(tickets') => Ok((t', tickets', l, users))
      else
        match FindEntry(l.entries, t.ledgerEntryId)
        case None => Err(IllegalArgument(OriginalNotFound))
        case Some(j) =>
          var amount := req.adjustmentAmount.GetOr(0.0);
          if amount <= 0.0 then Err(IllegalArgument(NonPositiveAdjustment))
          else
            var original := l.entries[j];
            match AppendAdjustment(l, users, t.riderId, original, AdjustmentBill(original, amount),
                                   req.resolutionNote.GetOr(DefaultNote), now)
            case Err(e) => Err(e)
            case Ok((adjustment, l', users')) =>
              var t' := Decided(t, req, now).(adjustmentEntryId := Some(adjustment.id));
              match SaveTicket(tickets, i, t')
              case Err(e) => Err(e)
              case Ok(tickets') => Ok((t', tickets', l', users'))
  }

  /** A rejection records the decision and leaves the ledger and the
      balances alone. */
  lemma RejectionBooksNothing(tickets: TicketRepo, l: LedgerRepo, users: Accounts.UserRepo, ticketId: int,
                              req: ResolutionRequest, now: Time)
    requires !req.approved
    requires FindTicket(tickets.tickets, ticketId).Some?
    requires !IsTerminal(tickets.tickets[FindTicket(tickets.tickets, ticketId).value].status)
    ensures var i := FindTicket(tickets.tickets, ticketId).value;
            var t := tickets.tickets[i];
            var r := Resolve(tickets, l, users, ticketId, req, now);
            && (r.Ok? <==> OverlongTicketColumn(Decided(t, req, now)).None?)
            && (r.Ok? ==> r.value.0.status == REJECTED && r.value.0.resolutionNote == req.resolutionNote
                          && r.value.0.resolvedAt == Some(now) && r.value.0.adjustmentEntryId == t.adjustmentEntryId
                          && r.value.1.tickets == tickets.tickets[i := r.value.0]
                          && r.value.2 == l && r.value.3 == users)
  {
  }

  /** An approval needs a positive amount; a missing one counts as zero. */
  lemma ApprovalNeedsPositiveAmount(tickets: TicketRepo, l: LedgerRepo, users: Accounts.UserRepo, ticketId: int,
                                    req: ResolutionRequest, now: Time)
    requires req.approved && (req.adjustmentAmount.None? || req.adjustmentAmount.value <= 0.0)
    requires FindTicket(tickets.tickets, ticketId).Some?
    requires var t := tickets.tickets[FindTicket(tickets.tickets, ticketId).value];
             !IsTerminal(t.status) && FindEntry(l.entries, t.ledgerEntryId).Some?
    ensures Resolve(tickets, l, users, ticketId, req, now) == Err(IllegalArgument(NonPositiveAdjustment))
  {
  }

  /** The stored meta of the adjustment line. */
  lemma AdjustmentMetaText()
    ensures ChargeMeta.SerializeMeta([("source", "dispute")]) == Some("source=dispute")
  {
    var m: ChargeMeta.Meta := [("source", "dispute")];
    var parts := Seqs.MapSeq(m, ChargeMeta.PairText);
    assert |parts| == 1;
    assert parts[0] == ChargeMeta.PairText(("source", "dispute")) == "source=dispute";
    assert parts == ["source=dispute"];
  }

  /** An approval of a positive amount books exactly one ADJUSTED entry:
      it refunds the amount with a single ADJUSTMENT line marked as coming
      from a dispute, is named after the original plan, carries the note
      (or "Dispute adjustment") as its summary, points back at the disputed
      entry, and is recorded on the ticket. */
  lemma ApprovalBooksRefund(tickets: TicketRepo, l: LedgerRepo, users: Accounts.UserRepo, ticketId: int,
                            req: ResolutionRequest, now: Time)
    requires req.approved
    requires Resolve(tickets, l, users, ticketId, req, now).Ok?
    requires !IsTerminal(tickets.tickets[FindTicket(tickets.tickets, ticketId).value].status)
    ensures var i := FindTicket(tickets.tickets, ticketId).value;
            var t := tickets.tickets[i];
            var (t', tickets', l', users') := Resolve(tickets, l, users, ticketId, req, now).value;
            var original := l.entries[FindEntry(l.entries, t.ledgerEntryId).value];
            var amount := req.adjustmentAmount.value;
            && req.adjustmentAmount.Some? && amount > 0.0
            && |l'.entries| == |l.entries| + 1 && l'.entries[..|l.entries|] == l.entries
            && var a := l'.entries[|l.entries|];
            && a.id == l.nextId && a.riderId == t.riderId && a.paymentStatus == ADJUSTED
            && a.total == -amount && a.planName == original.planName + " Adjustment"
            && a.charges == [ChargeMeta.LedgerCharge("ADJUSTMENT", -amount, Some("source=dispute"))]
            && a.summary == Some(req.resolutionNote.GetOr(DefaultNote))
            && a.adjustmentOfEntryId == Some(t.ledgerEntryId)
            && t' == Decided(t, req, now).(adjustmentEntryId := Some(a.id)) && t'.status == RESOLVED
            && tickets'.tickets == tickets.tickets[i := t']
            && users' == AdjustRiderBalance(users, t.riderId, -amount)
  {
    var i := FindTicket(tickets.tickets, ticketId).value;
    var t := tickets.tickets[i];
    var original := l.entries[FindEntry(l.entries, t.ledgerEntryId).value];
    var amount := req.adjustmentAmount.GetOr(0.0);
    var bill := AdjustmentBill(original, amount);
    AdjustmentMetaText();
    assert StoredCharges(bill.charges) == [ChargeMeta.LedgerCharge("ADJUSTMENT", -amount, Some("source=dispute"))];
    var (a, l', users') := AppendAdjustment(l, users, t.riderId, original, bill, req.resolutionNote.GetOr(DefaultNote),
                                            now).value;
    assert l'.entries[|l.entries|] == a;
    assert l'.entries[..|l.entries|] == l.entries;
  }

  /** An approved dispute moves the rider's pending balance down by the refunded amount. */
  lemma ApprovalRefundsBalance(tickets: TicketRepo, l: LedgerRepo, users: Accounts.UserRepo, ticketId: int,
                               req: ResolutionRequest, now: Time)
    requires req.approved
    requires Resolve(tickets, l, users, ticketId, req, now).Ok?
    requires var t := tickets.tickets[FindTicket(tickets.tickets, ticketId).value];
             !IsTerminal(t.status) && Accounts.FindById(users.users, t.riderId).Some?
    ensures var t := tickets.tickets[FindTicket(tickets.tickets, ticketId).value];
            PendingBalance(Resolve(tickets, l, users, ticketId, req, now).value.3, t.riderId)
            == PendingBalance(users, t.riderId) - req.adjustmentAmount.value
  {
    var t := tickets.tickets[FindTicket(tickets.tickets, ticketId).value];
    ApprovalAdjustsRider(tickets, l, users, ticketId, req, now);
    RefundMovesBalance(users, Resolve(tickets, l, users, ticketId, req, now).value.3, t.riderId,
                       req.adjustmentAmount.value);
  }

  lemma RefundMovesBalance(users: Accounts.UserRepo, users': Accounts.UserRepo, riderId: int, amount: real)
    requires Accounts.FindById(users.users, riderId).Some?
    requires users' == AdjustRiderBalance(users, riderId, -amount)
    ensures PendingBalance(users', riderId) == PendingBalance(users, riderId) - amount
  {
    AdjustmentMovesBalance(users, riderId, -amount);
  }

  /** The balances after an approval: the ticket's rider moved by the refund. */
  lemma ApprovalAdjustsRider(tickets: TicketRepo, l: LedgerRepo, users: Accounts.UserRepo, ticketId: int,
                             req: ResolutionRequest, now: Time)
    requires req.approved
    requires Resolve(tickets, l, users, ticketId, req, now).Ok?
    requires !IsTerminal(tickets.tickets[FindTicket(tickets.tickets, ticketId).value].status)
    ensures req.adjustmentAmount.Some?
    ensures Resolve(tickets, l, users, ticketId, req, now).value.3
            == AdjustRiderBalance(users, tickets.tickets[FindTicket(tickets.tickets, ticketId).value].riderId,
                                  -req.adjustmentAmount.value)
  {
    ApprovalBooksRefund(tickets, l, users, ticketId, req, now);
  }

  /** A note the ticket can store but the ledger's summary column cannot
      (129 to 512 characters) makes every approval fail, although the same
      note is accepted on a rejection. */
  lemma LongNoteBlocksApproval(tickets: TicketRepo, l: LedgerRepo, users: Accounts.UserRepo, ticketId: int,
                               req: ResolutionRequest, now: Time)
    requires req.approved && req.adjustmentAmount.Some? && req.adjustmentAmount.value > 0.0
    requires req.resolutionNote.Some? && SummaryLength < |req.resolutionNote.value|
    requires FindTicket(tickets.tickets, ticketId).Some?
    requires var t := tickets.tickets[FindTicket(tickets.tickets, ticketId).value];
             !IsTerminal(t.status) && FindEntry(l.entries, t.ledgerEntryId).Some?
    ensures Resolve(tickets, l, users, ticketId, req, now) == Err(ConstraintViolation("summary"))
  {
  }

  /** A successful resolution writes the returned ticket, which is closed
      and keeps its id, at the ticket's own position and nowhere else. */
  lemma ResolveWritesOneTicket(tickets: TicketRepo, l: LedgerRepo, users: Accounts.UserRepo, ticketId: int,
                               req: ResolutionRequest, now: Time)
    requires Resolve(tickets, l, users, ticketId, req, now).Ok?
    ensures var (t', tickets', l', users') := Resolve(tickets, l, users, ticketId, req, now).value;
            var i := FindTicket(tickets.tickets, ticketId).value;
            && IsTerminal(t'.status) && t'.id == ticketId
            && tickets'.tickets == tickets.tickets[i := t'] && tickets'.nextId == tickets.nextId
  {
  }

  /** Resolving is final: once a resolution has gone through, resolving the
      same ticket again, with any decision at any time, changes nothing. */
  lemma ResolveIsFinal(tickets: TicketRepo, l: LedgerRepo, users: Accounts.UserRepo, ticketId: int,
                       req: ResolutionRequest, now: Time, again: ResolutionRequest, later: Time)
    requires Resolve(tickets, l, users, ticketId, req, now).Ok?
    ensures var (t', tickets', l', users') := Resolve(tickets, l, users, ticketId, req, now).value;
            IsTerminal(t'.status)
            && Resolve(tickets', l', users', ticketId, again, later) == Ok((t', tickets', l', users'))
  {
    var (t', tickets', l', users') := Resolve(tickets, l, users, ticketId, req, now).value;
    var i := FindTicket(tickets.tickets, ticketId).value;
    ResolveWritesOneTicket(tickets, l, users, ticketId, req, now);
    assert tickets'.tickets[i] == t';
    assert forall j :: 0 <= j < i ==> tickets'.tickets[j] == tickets.tickets[j];
    assert FindTicket(tickets'.tickets, ticketId) == Some(i);
  }

  /** Closing one ticket of a table with distinct ids takes that id out of the queue. */
  lemma ClosedTicketLeavesQueue(ts: seq<DisputeTicket>, i: nat, closed: DisputeTicket)
    requires i < |ts| && closed.id == ts[i].id && IsTerminal(closed.status)
    requires forall a, b :: 0 <= a < b < |ts| ==> ts[a].id != ts[b].id
    ensures forall t :: t in OpenTickets(ts[i := closed]) ==> t.id != closed.id
  {
    var after := ts[i := closed];
    forall t | t in OpenTickets(after)
      ensures t.id != closed.id
    {
      var k :| 0 <= k < |after| && after[k] == t;
      if k != i {
        assert t == ts[k];
      }
    }
  }

  function CreatedAtOf(t: DisputeTicket): int {
    t.createdAt
  }

  /** `listForRider(riderId)`: the rider's tickets, newest first. */
  function ForRider(tickets: seq<DisputeTicket>, riderId: int): (r: seq<DisputeTicket>)
    ensures forall t :: t in r <==> t in tickets && t.riderId == riderId
    ensures Seqs.SortedDesc(r, CreatedAtOf)
    ensures |r| == Seqs.Count(tickets, (t: DisputeTicket) => t.riderId == riderId)
  {
    Seqs.SelectDesc(tickets, (t: DisputeTicket) => t.riderId == riderId, CreatedAtOf)
  }

  /** `listOpenTickets()`: the OPEN tickets, oldest first. */
  function OpenTickets(tickets: seq<DisputeTicket>): (r: seq<DisputeTicket>)
    ensures forall t :: t in r <==> t in tickets && t.status == OPEN
    ensures Seqs.SortedAsc(r, CreatedAtOf)
    ensures |r| == Seqs.Count(tickets, (t: DisputeTicket) => t.status == OPEN)
  {
    Seqs.SelectAsc(tickets, (t: DisputeTicket) => t.status == OPEN, CreatedAtOf)
  }

  /** A submitted ticket waits in the operators' queue and shows in the rider's list. */
  lemma SubmittedTicketIsListed(tickets: TicketRepo, l: LedgerRepo, riderId: int, req: TicketRequest, now: Time)
    requires Submit(tickets, l, riderId, req, now).Ok?
    ensures var (t, tickets') := Submit(tickets, l, riderId, req, now).value;
            t in OpenTickets(tickets'.tickets) && t in ForRider(tickets'.tickets, riderId)
  {
    var (t, tickets') := Submit(tickets, l, riderId, req, now).value;
    assert tickets'.tickets[|tickets.tickets|] == t;
  }

  /** A resolved ticket leaves the operators' queue. */
  lemma ResolvedLeavesQueue(tickets: TicketRepo, l: LedgerRepo, users: Accounts.UserRepo, ticketId: int,
                            req: ResolutionRequest, now: Time)
    requires WellFormedTickets(tickets)
    requires Resolve(tickets, l, users, ticketId, req, now).Ok?
    ensures forall t :: t in OpenTickets(Resolve(tickets, l, users, ticketId, req, now).value.1.tickets)
                        ==> t.id != ticketId
  {
    ResolveWritesOneTicket(tickets, l, users, ticketId, req, now);
    ClosedTicketLeavesQueue(tickets.tickets, FindTicket(tickets.tickets, ticketId).value,
                            Resolve(tickets, l, users, ticketId, req, now).value.0);
  }
}
