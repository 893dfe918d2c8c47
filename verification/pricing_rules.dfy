/** The pricing rules: trip facts, the bill under construction, the rule
    handlers and the chain they form.

    Money is `BigDecimal` in the source; here it is `real`, which holds
    every decimal value exactly. The scale a `BigDecimal` carries is not
    modelled, only its value. A plan version's UUID is represented by its
    canonical text, so `toString()` on it is the identity.
 */
module PricingRules {
  import opened Wrappers
  import opened Clock
  import Text
  import Seqs
  import ChargeMeta

  /** `MembershipStatus`. */
  datatype MembershipStatus = NONE | STANDARD | PREMIUM

  /** A plan version id: the canonical text of its UUID. */
  type PlanId = string

  /** `TripFacts`. Bike ids, rider ids and station ids are integers. */
  datatype TripFacts = TripFacts(
    bikeId: int,
    riderId: int,
    startStationId: Option<int>,
    endStationId: Option<int>,
    startTime: Option<Time>,
    endTime: Option<Time>,
    ebike: bool,
    distanceKm: real,
    membershipStatus: Option<MembershipStatus>,
    cityId: Option<string>)

  /** `durationMinutes()`: the whole minutes from start to end (the
      `Duration.toMinutes` truncation), never negative, and 0 when either
      end is missing. */
  function DurationMinutes(t: TripFacts): (m: nat)
    ensures t.startTime.None? || t.endTime.None? ==> m == 0
    ensures t.startTime.Some? && t.endTime.Some? && t.startTime.value <= t.endTime.value ==>
            m * SecondsPerMinute <= t.endTime.value - t.startTime.value < (m + 1) * SecondsPerMinute
    ensures t.startTime.Some? && t.endTime.Some? && t.endTime.value - t.startTime.value < SecondsPerMinute ==> m == 0
  {
    if t.startTime.None? || t.endTime.None? then 0
    else
      var m := WholeMinutesBetween(t.startTime.value, t.endTime.value);
      if m < 0 then 0 else m
  }

  /** `ChargeLine`: a code, an amount, and the meta map (null when absent). */
  datatype ChargeLine = ChargeLine(code: string, amount: real, meta: Option<ChargeMeta.Meta>)

  /** `MutableBill`: its charge lines in insertion order. */
  type Bill = seq<ChargeLine>

  /** `add(line)`: the line goes at the end, the earlier lines stay. */
  function Add(bill: Bill, line: ChargeLine): (r: Bill)
    ensures |r| == |bill| + 1 && r[..|bill|] == bill && r[|bill|] == line
    ensures Total(r) == Total(bill) + line.amount
  {
    TotalAppend(bill, line);
    bill + [line]
  }

  function AmountOf(line: ChargeLine): real { line.amount }

  /** `total()`: the sum of the line amounts, from zero. */
  function Total(bill: Bill): real
  {
    Seqs.Sum(bill, AmountOf)
  }

  lemma TotalAppend(bill: Bill, line: ChargeLine)
    ensures Total(bill + [line]) == Total(bill) + line.amount
  {
    Seqs.SumAppend(bill, line, AmountOf);
  }

  /** `RateSheet`: each rate may be null. */
  datatype RateSheet = RateSheet(baseFee: Option<real>, perMinute: Option<real>, ebikeSurcharge: Option<real>)

  /** `PricingContext`: the selected plan version and its rates. */
  datatype PricingContext = PricingContext(
    planVersionId: PlanId, rateSheet: RateSheet, membershipStatus: Option<MembershipStatus>, planName: string)

  /** The rule handler beans. Discount, cap and tax are placeholders whose
      rule does nothing. */
  datatype Rule = BaseFee | PerMinute | EbikeSurcharge | Discount | Cap | Tax

  /** A rate that is set and strictly positive. */
  predicate Charged(rate: Option<real>) {
    rate.Some? && rate.value > 0.0
  }

  /** Minutes the per-minute rule bills: at least one. */
  function BilledMinutes(t: TripFacts): (m: nat)
    ensures m >= 1 && m >= DurationMinutes(t)
    ensures DurationMinutes(t) >= 1 ==> m == DurationMinutes(t)
  {
    if DurationMinutes(t) < 1 then 1 else DurationMinutes(t)
  }

  /** A per-minute rate charged for a number of minutes. */
  function MinuteCharge(rate: real, minutes: int): real
  {
    rate * minutes as real
  }

  /** `doApply(context, trip, bill)` of each handler. */
  function DoApply(rule: Rule, ctx: PricingContext, t: TripFacts, bill: Bill): (r: Bill)
    ensures |r| == |bill| || (|r| == |bill| + 1 && r[..|bill|] == bill)
    ensures rule == BaseFee ==>
            if Charged(ctx.rateSheet.baseFee)
            then r == bill + [ChargeLine("BASE_FEE", ctx.rateSheet.baseFee.value, Some([("planVersionId", ctx.planVersionId)]))]
            else r == bill
    ensures rule == PerMinute ==>
            if Charged(ctx.rateSheet.perMinute)
            then r == bill + [ChargeLine("PER_MINUTE", MinuteCharge(ctx.rateSheet.perMinute.value, BilledMinutes(t)),
                                         Some([("minutes", Text.NatToString(BilledMinutes(t)))]))]
            else r == bill
    ensures rule == EbikeSurcharge ==>
            if t.ebike && Charged(ctx.rateSheet.ebikeSurcharge)
            then r == bill + [ChargeLine("E_BIKE_SURCHARGE", ctx.rateSheet.ebikeSurcharge.value, Some([("ebike", "true")]))]
            else r == bill
    ensures rule in {Discount, Cap, Tax} ==> r == bill
  {
    match rule
    case BaseFee =>
      if Charged(ctx.rateSheet.baseFee)
      then Add(bill, ChargeLine("BASE_FEE", ctx.rateSheet.baseFee.value, Some([("planVersionId", ctx.planVersionId)])))
      else bill
    case PerMinute =>
      if Charged(ctx.rateSheet.perMinute)
      then
        var minutes := BilledMinutes(t);
        Add(bill, ChargeLine("PER_MINUTE", MinuteCharge(ctx.rateSheet.perMinute.value, minutes),
                             Some([("minutes", Text.NatToString(minutes))])))
      else bill
    case EbikeSurcharge =>
      if t.ebike && Charged(ctx.rateSheet.ebikeSurcharge)
      then Add(bill, ChargeLine("E_BIKE_SURCHARGE", ctx.rateSheet.ebikeSurcharge.value, Some([("ebike", "true")])))
      else bill
    case Discount => bill
    case Cap => bill
    case Tax => bill
  }

  /** `apply(context, trip, bill)` on a chain linked by `setNext`: each
      handler runs its own rule, then hands the bill to its successor; the
      last handler ends the chain. A chain only ever appends lines: the bill
      it started from is a prefix of the bill it returns, and it adds at most
      one line per handler. */
  function Apply(chain: seq<Rule>, ctx: PricingContext, t: TripFacts, bill: Bill): (r: Bill)
    ensures |bill| <= |r| <= |bill| + |chain|
    ensures r[..|bill|] == bill
  {
    if |chain| == 0 then bill
    else
      var next := DoApply(chain[0], ctx, t, bill);
      var r := Apply(chain[1..], ctx, t, next);
      assert r[..|bill|] == r[..|next|][..|bill|];
      r
  }

  /** Running two chains back to back is running their concatenation: the
      rules run once each, in chain order. */
  lemma {:induction false} ApplyAppend(a: seq<Rule>, b: seq<Rule>, ctx: PricingContext, t: TripFacts, bill: Bill)
    ensures Apply(a + b, ctx, t, bill) == Apply(b, ctx, t, Apply(a, ctx, t, bill))
  {
    if |a| > 0 {
      assert (a + b)[1..] == a[1..] + b;
      ApplyAppend(a[1..], b, ctx, t, DoApply(a[0], ctx, t, bill));
    } else {
      assert a + b == b;
    }
  }

  /** What one rule adds to the total: its rate when the rate is charged,
      the per-minute rate times the billed minutes, the surcharge on an
      e-bike only, and nothing for the placeholders. */
  function RuleAmount(rule: Rule, ctx: PricingContext, t: TripFacts): real
  {
    var rates := ctx.rateSheet;
    match rule
    case BaseFee => if Charged(rates.baseFee) then rates.baseFee.value else 0.0
    case PerMinute => if Charged(rates.perMinute) then MinuteCharge(rates.perMinute.value, BilledMinutes(t)) else 0.0
    case EbikeSurcharge => if t.ebike && Charged(rates.ebikeSurcharge) then rates.ebikeSurcharge.value else 0.0
    case Discount => 0.0
    case Cap => 0.0
    case Tax => 0.0
  }

  /** The amounts of a chain's rules, added up in chain order. */
  function ChainAmount(chain: seq<Rule>, ctx: PricingContext, t: TripFacts): real
  {
    if |chain| == 0 then 0.0 else RuleAmount(chain[0], ctx, t) + ChainAmount(chain[1..], ctx, t)
  }

  /** A chain raises the bill's total by exactly the amounts of its rules. */
  lemma {:induction false} ApplyTotal(chain: seq<Rule>, ctx: PricingContext, t: TripFacts, bill: Bill)
    ensures Total(Apply(chain, ctx, t, bill)) == Total(bill) + ChainAmount(chain, ctx, t)
  {
    if |chain| > 0 {
      var next := DoApply(chain[0], ctx, t, bill);
      if |next| == |bill| + 1 {
        assert next == bill + [next[|bill|]];
        TotalAppend(bill, next[|bill|]);
      }
      ApplyTotal(chain[1..], ctx, t, next);
    }
  }

  /** `pricingRuleChain(...)`: base fee, per-minute and e-bike surcharge,
      then discount, cap and tax, each only when its bean is available. */
  function PricingRuleChain(discountAvailable: bool, capAvailable: bool, taxAvailable: bool): (chain: seq<Rule>)
    ensures |chain| == 3 + (if discountAvailable then 1 else 0) + (if capAvailable then 1 else 0)
                         + (if taxAvailable then 1 else 0)
    ensures chain[..3] == [BaseFee, PerMinute, EbikeSurcharge]
    ensures forall i :: 3 <= i < |chain| ==> chain[i] in {Discount, Cap, Tax}
    ensures Discount in chain <==> discountAvailable
    ensures Cap in chain <==> capAvailable
    ensures Tax in chain <==> taxAvailable
  {
    [BaseFee, PerMinute, EbikeSurcharge]
    + (if discountAvailable then [Discount] else [])
    + (if capAvailable then [Cap] else [])
    + (if taxAvailable then [Tax] else [])
  }

  /** Handlers whose rule does nothing leave the bill of the chain before them unchanged. */
  lemma {:induction false} PlaceholdersAddNothing(chain: seq<Rule>, ctx: PricingContext, t: TripFacts, bill: Bill)
    requires forall i :: 0 <= i < |chain| ==> chain[i] in {Discount, Cap, Tax}
    ensures Apply(chain, ctx, t, bill) == bill
  {
    if |chain| > 0 {
      PlaceholdersAddNothing(chain[1..], ctx, t, bill);
    }
  }

  /** Whichever optional beans are present, the chain bills exactly what the
      three-handler chain bills. */
  lemma ChainEqualsCoreChain(discount: bool, cap: bool, tax: bool, ctx: PricingContext, t: TripFacts, bill: Bill)
    ensures Apply(PricingRuleChain(discount, cap, tax), ctx, t, bill) == Apply([BaseFee, PerMinute, EbikeSurcharge], ctx, t, bill)
  {
    var chain := PricingRuleChain(discount, cap, tax);
    assert chain == [BaseFee, PerMinute, EbikeSurcharge] + chain[3..];
    ApplyAppend([BaseFee, PerMinute, EbikeSurcharge], chain[3..], ctx, t, bill);
    PlaceholdersAddNothing(chain[3..], ctx, t, Apply([BaseFee, PerMinute, EbikeSurcharge], ctx, t, bill));
  }

  /** An e-bike trip with all three rates positive is billed in three
      lines, base fee, per-minute and surcharge, and its total is
      base + rate * minutes + surcharge. */
  lemma EBikeTripBill(ctx: PricingContext, t: TripFacts)
    requires t.ebike
    requires Charged(ctx.rateSheet.baseFee) && Charged(ctx.rateSheet.perMinute) && Charged(ctx.rateSheet.ebikeSurcharge)
    ensures var bill := Apply([BaseFee, PerMinute, EbikeSurcharge], ctx, t, []);
            && |bill| == 3
            && bill[0].code == "BASE_FEE" && bill[1].code == "PER_MINUTE" && bill[2].code == "E_BIKE_SURCHARGE"
            && Total(bill) == ctx.rateSheet.baseFee.value
                              + MinuteCharge(ctx.rateSheet.perMinute.value, BilledMinutes(t))
                              + ctx.rateSheet.ebikeSurcharge.value
  {
    var b1 := DoApply(BaseFee, ctx, t, []);
    var b2 := DoApply(PerMinute, ctx, t, b1);
    var b3 := DoApply(EbikeSurcharge, ctx, t, b2);
    assert [BaseFee, PerMinute, EbikeSurcharge][1..] == [PerMinute, EbikeSurcharge];
    assert [PerMinute, EbikeSurcharge][1..] == [EbikeSurcharge];
    assert Apply([EbikeSurcharge], ctx, t, b2) == Apply([], ctx, t, b3) == b3;
    assert Apply([PerMinute, EbikeSurcharge], ctx, t, b1) == Apply([EbikeSurcharge], ctx, t, b2);
    assert Apply([BaseFee, PerMinute, EbikeSurcharge], ctx, t, []) == Apply([PerMinute, EbikeSurcharge], ctx, t, b1);
    TotalAppend([], b1[0]);
    TotalAppend(b1, b2[1]);
    TotalAppend(b2, b3[2]);
    assert b2 == b1 + [b2[1]] && b3 == b2 + [b3[2]];
  }
}
