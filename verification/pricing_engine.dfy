/** The pricing engine and the trip facts it prices: `TripFactsFactory`
    builds the facts of a finished trip from the ride history, the bike
    table and the station table; `PricingEngine.price` selects a plan and
    runs the rule chain over an empty bill.
 */
module PricingEngine {
  import opened Wrappers
  import opened Clock
  import Text
  import Bikes
  import opened Stations
  import BikeService
  import opened RideFilters
  import opened RideHistory
  import opened PricingRules
  import opened PricingPlans

  /** `FinalizedBill`. */
  datatype FinalizedBill = FinalizedBill(planVersionId: PlanId, planName: string, charges: Bill, total: real)

  /** `price(tripFacts, input)` with `chain` the configured handler chain:
      the selector's failure propagates and no bill exists; otherwise the
      charges are what the chain adds to an empty bill under the selected
      context, and the total is their sum. */
  function Price(plans: seq<PlanVersion>, chain: seq<Rule>, facts: TripFacts, input: SelectionInput)
    : (r: Result<FinalizedBill>)
    ensures r.Err? <==> Select(SelectorStrategies, plans, input).Err?
    ensures r.Err? ==> r.error == IllegalState(NoPlanMessage)
    ensures r.Ok? ==> var ctx := Select(SelectorStrategies, plans, input).value;
            && r.value.planVersionId == ctx.planVersionId && r.value.planName == ctx.planName
            && r.value.charges == Apply(chain, ctx, facts, [])
            && r.value.total == ChainAmount(chain, ctx, facts)
  {
    var ctx :- Select(SelectorStrategies, plans, input);
    var charges := Apply(chain, ctx, facts, []);
    ApplyTotal(chain, ctx, facts, []);
    Ok(FinalizedBill(ctx.planVersionId, ctx.planName, charges, Total(charges)))
  }

  /** A plan whose rates are all non-negative: what the admin screens
      accept in practice, though the columns themselves do not demand it. */
  predicate NonNegativeRates(p: PlanVersion) {
    p.baseFee >= 0.0 && p.perMinuteRate >= 0.0 && (p.ebikeSurcharge.None? || p.ebikeSurcharge.value >= 0.0)
  }

  /** The catalogue estimate agrees with the engine: for non-negative rates
      and a trip of at least one minute, the configured chain bills exactly
      `estimate(version, minutes, ebike)`, whichever optional handlers are
      present. A zero rate adds no line to the bill and nothing to the
      estimate's total. */
  lemma EstimateMatchesChain(p: PlanVersion, t: TripFacts, discount: bool, cap: bool, tax: bool)
    requires NonNegativeRates(p) && DurationMinutes(t) >= 1
    ensures Total(Apply(PricingRuleChain(discount, cap, tax), ToContext(p), t, []))
            == Estimate(p, DurationMinutes(t), t.ebike)
  {
    ChainEqualsCoreChain(discount, cap, tax, ToContext(p), t, []);
    CoreChainTotal(p, t);
  }

  lemma CoreChainTotal(p: PlanVersion, t: TripFacts)
    requires NonNegativeRates(p) && DurationMinutes(t) >= 1
    ensures Total(Apply([BaseFee, PerMinute, EbikeSurcharge], ToContext(p), t, [])) == Estimate(p, DurationMinutes(t), t.ebike)
  {
    CoreChainAmount(ToContext(p), t);
    PlanRuleAmounts(p, t);
  }

  /** How the catalogue estimate grows: a trip of no minutes on a classic
      bike costs the base fee, each further minute adds the per-minute rate,
      and an e-bike adds the surcharge, or nothing when none is set. */
  lemma EstimateSteps(p: PlanVersion, m: int, ebike: bool)
    ensures Estimate(p, 0, false) == p.baseFee
    ensures Estimate(p, m + 1, ebike) == Estimate(p, m, ebike) + p.perMinuteRate
    ensures Estimate(p, m, true) == Estimate(p, m, false) + (if p.ebikeSurcharge.Some? then p.ebikeSurcharge.value else 0.0)
  {
    assert MinuteCharge(p.perMinuteRate, m + 1) == MinuteCharge(p.perMinuteRate, m) + p.perMinuteRate;
  }

  lemma CoreChainAmount(ctx: PricingContext, t: TripFacts)
    ensures Total(Apply([BaseFee, PerMinute, EbikeSurcharge], ctx, t, []))
            == RuleAmount(BaseFee, ctx, t) + RuleAmount(PerMinute, ctx, t) + RuleAmount(EbikeSurcharge, ctx, t)
  {
    var core := [BaseFee, PerMinute, EbikeSurcharge];
    ApplyTotal(core, ctx, t, []);
    assert Total([]) == 0.0;
    assert [EbikeSurcharge][1..] == [];
    assert ChainAmount([EbikeSurcharge], ctx, t) == RuleAmount(EbikeSurcharge, ctx, t) + ChainAmount([], ctx, t);
    assert [PerMinute, EbikeSurcharge][1..] == [EbikeSurcharge];
    assert ChainAmount([PerMinute, EbikeSurcharge], ctx, t)
           == RuleAmount(PerMinute, ctx, t) + ChainAmount([EbikeSurcharge], ctx, t);
    assert core[1..] == [PerMinute, EbikeSurcharge];
    assert ChainAmount(core, ctx, t) == RuleAmount(BaseFee, ctx, t) + ChainAmount([PerMinute, EbikeSurcharge], ctx, t);
  }

  lemma PlanRuleAmounts(p: PlanVersion, t: TripFacts)
    requires NonNegativeRates(p) && DurationMinutes(t) >= 1
    ensures RuleAmount(BaseFee, ToContext(p), t) == p.baseFee
    ensures RuleAmount(PerMinute, ToContext(p), t) == MinuteCharge(p.perMinuteRate, DurationMinutes(t))
    ensures RuleAmount(EbikeSurcharge, ToContext(p), t)
            == if t.ebike && p.ebikeSurcharge.Some? then p.ebikeSurcharge.value else 0.0
  {
  }

  /** A priced trip with the configured chain costs what the catalogue
      estimates for the selected plan, when that plan's rates are
      non-negative and the trip lasts at least a minute. */
  lemma PriceIsSelectedPlanEstimate(plans: seq<PlanVersion>, discount: bool, cap: bool, tax: bool,
                                    facts: TripFacts, input: SelectionInput)
    requires Select(SelectorStrategies, plans, input).Ok?
    requires forall p :: p in plans ==> NonNegativeRates(p)
    requires DurationMinutes(facts) >= 1
    ensures var r := Price(plans, PricingRuleChain(discount, cap, tax), facts, input);
            && r.Ok?
            && exists p :: p in plans && IsActive(p, input.tripEndTime) && r.value.planVersionId == p.id
                           && r.value.total == Estimate(p, DurationMinutes(facts), facts.ebike)
  {
    SelectedPlanIsActive(plans, input);
    var p :| p in plans && IsActive(p, input.tripEndTime) && Select(SelectorStrategies, plans, input).value == ToContext(p);
    EstimateMatchesChain(p, facts, discount, cap, tax);
    ApplyTotal(PricingRuleChain(discount, cap, tax), ToContext(p), facts, []);
  }

  const MontrealCity: string := "MTL"
  const DefaultCity: string := "DEFAULT"

  /** The address mentions Montreal, in any letter case. */
  predicate MentionsMontreal(address: Option<string>) {
    address.Some? && Text.Contains(Text.Lower(address.value), "montreal")
  }

  /** `resolveCityId(stationId)`: no city for a missing or unknown station;
      "MTL" when the station's address mentions Montreal in any letter
      case; "DEFAULT" for every other known station, one without an address
      included. */
  function ResolveCityId(stations: StationRepo, stationId: Option<Bikes.StationId>): (r: Option<string>)
    ensures r.None? <==> stationId.None? || stationId.value !in stations
    ensures r == Some(MontrealCity) <==> stationId.Some? && stationId.value in stations
                                         && MentionsMontreal(stations[stationId.value].address)
    ensures r.Some? ==> r.value in {MontrealCity, DefaultCity}
  {
    match stationId
    case None => None
    case Some(id) =>
      if id !in stations then None
      else if MentionsMontreal(stations[id].address) then Some(MontrealCity)
      else Some(DefaultCity)
  }

  /** Upper-casing an address does not change whether it mentions Montreal. */
  lemma MontrealIgnoresCase(address: string)
    ensures MentionsMontreal(Some(Text.Upper(address))) == MentionsMontreal(Some(address))
  {
    Text.LowerOfUpper(address);
  }

  /** An address shorter than "montreal" cannot mention it. */
  lemma ShortAddressIsNotMontreal(address: string)
    requires |address| < 8
    ensures !MentionsMontreal(Some(address))
  {
    Text.ContainsFits(Text.Lower(address), "montreal");
  }

  /** `(long) Math.ceil(duration)`, at least one: the minutes a trip is
      billed for. */
  function RoundedMinutes(durationMinutes: real): (m: int)
    ensures m >= 1 && m as real >= durationMinutes
    ensures durationMinutes > 0.0 ==> (m - 1) as real < durationMinutes
  {
    var c := Ceil(durationMinutes);
    if c < 1 then 1 else c
  }

  /** `buildTripFacts(bikeId, riderId, endStationId, duration, distance)`
      at time `now`, with `membership` the rider's membership as the
      membership service resolves it. */
  function BuildTripFacts(rides: seq<Ride>, f: BikeService.Fleet, bikeId: Bikes.BikeId, riderId: Bikes.UserId,
                          endStationId: Option<Bikes.StationId>, durationMinutes: real, distanceKm: real,
                          membership: MembershipStatus, now: Time): (t: TripFacts)
    ensures var ride := FindInProgressRide(rides, riderId);
            && (ride.Some? ==> t.startTime == Some(ride.value.startTime) && t.startStationId == ride.value.startStationId)
            && (ride.None? ==> t.startTime == Some(PlusMinutes(now, -Ceil(durationMinutes))) && t.startStationId.None?)
    ensures t.startTime.Some? && t.endTime == Some(PlusMinutes(t.startTime.value, RoundedMinutes(durationMinutes)))
    ensures DurationMinutes(t) == RoundedMinutes(durationMinutes) >= 1
    ensures t.ebike <==> var i := BikeService.FindBike(f.bikes, bikeId);
                         i.Some? && f.bikes[i.value].btype == Some(Bikes.E_BIKE)
    ensures t.cityId == ResolveCityId(f.stations, t.startStationId)
    ensures t.bikeId == bikeId && t.riderId == riderId && t.endStationId == endStationId
    ensures t.distanceKm == distanceKm && t.membershipStatus == Some(membership)
  {
    var ride := FindInProgressRide(rides, riderId);
    var startTime := if ride.Some? then ride.value.startTime else PlusMinutes(now, -Ceil(durationMinutes));
    var startStationId := if ride.Some? then ride.value.startStationId else None;
    var rounded := RoundedMinutes(durationMinutes);
    var endTime := PlusMinutes(startTime, rounded);
    var bike := BikeService.FindBike(f.bikes, bikeId);
    var ebike := bike.Some? && f.bikes[bike.value].btype == Some(Bikes.E_BIKE);
    MinutesRoundTrip(startTime, rounded);
    TripFacts(bikeId, riderId, startStationId, endStationId, Some(startTime), Some(endTime), ebike, distanceKm,
              Some(membership), ResolveCityId(f.stations, startStationId))
  }

  /** `buildSelectionInput(tripEndTime, membership, cityId)` for the facts
      of a trip: the trip's end, membership and city. */
  function SelectionInputFor(t: TripFacts): (input: SelectionInput)
    requires t.endTime.Some?
    ensures input.tripEndTime == t.endTime.value && input.membershipStatus == t.membershipStatus
    ensures input.cityId == t.cityId
  {
    SelectionInput(t.endTime.value, t.membershipStatus, t.cityId)
  }

  /** End to end: a finished trip is billed for at least one whole minute,
      the duration rounded up, and costs the estimate of the selected plan
      for those minutes. */
  lemma TripBilledAtRoundedMinutes(rides: seq<Ride>, f: BikeService.Fleet, plans: seq<PlanVersion>,
                                   bikeId: Bikes.BikeId, riderId: Bikes.UserId, endStationId: Option<Bikes.StationId>,
                                   durationMinutes: real, distanceKm: real, membership: MembershipStatus, now: Time,
                                   discount: bool)
    requires forall p :: p in plans ==> NonNegativeRates(p)
    ensures var t := BuildTripFacts(rides, f, bikeId, riderId, endStationId, durationMinutes, distanceKm, membership, now);
            var r := Price(plans, PricingRuleChain(discount, true, true), t, SelectionInputFor(t));
            r.Ok? ==> exists p :: p in plans && r.value.planVersionId == p.id
                                 && r.value.total == Estimate(p, RoundedMinutes(durationMinutes), t.ebike)
  {
    var t := BuildTripFacts(rides, f, bikeId, riderId, endStationId, durationMinutes, distanceKm, membership, now);
    if Select(SelectorStrategies, plans, SelectionInputFor(t)).Ok? {
      PriceIsSelectedPlanEstimate(plans, discount, true, true, t, SelectionInputFor(t));
    }
  }
}
