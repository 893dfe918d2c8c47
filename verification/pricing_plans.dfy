/** Pricing plan versions: the stored table, the "active at a point in
    time" queries, the three plan-selection strategies and the selector that
    tries them in order, the public plan listing with its example costs, and
    the admin create / update / list operations.
 */
module PricingPlans {
  import opened Wrappers
  import opened Clock
  import opened PricingRules
  import Seqs

  /** A `PricingPlanVersion` row. Plan name, base fee, per-minute rate and
      effective-from are NOT NULL columns; the rest may be null. */
  datatype PlanVersion = PlanVersion(
    id: PlanId,
    planName: string,
    baseFee: real,
    perMinuteRate: real,
    ebikeSurcharge: Option<real>,
    membershipTier: Option<MembershipStatus>,
    cityId: Option<string>,
    effectiveFrom: Time,
    effectiveTo: Option<Time>,
    published: bool,
    description: Option<string>)

  function EffectiveFromOf(p: PlanVersion): Time { p.effectiveFrom }

  /** The stored plan versions, one row per id. */
  predicate UniqueIds(plans: seq<PlanVersion>) {
    forall i, j :: 0 <= i < j < |plans| ==> plans[i].id != plans[j].id
  }

  /** The shared condition of the three active-plan queries: published,
      already in effect, and not yet superseded (the end is exclusive). */
  predicate IsActive(p: PlanVersion, t: Time) {
    p.published && p.effectiveFrom <= t && (p.effectiveTo.None? || p.effectiveTo.value > t)
  }

  /** `findActivePlans(t)`: the active rows, latest effective-from first. */
  function FindActivePlans(plans: seq<PlanVersion>, t: Time): (r: seq<PlanVersion>)
    ensures forall x :: x in r <==> x in plans && IsActive(x, t)
    ensures Seqs.SortedDesc(r, EffectiveFromOf)
    ensures multiset(r) <= multiset(plans)
  {
    var active := Seqs.Filter(plans, (p: PlanVersion) => IsActive(p, t));
    SortKeepsMembers(active, EffectiveFromOf);
    forall x | x in plans && IsActive(x, t) ensures x in active {
      var k :| 0 <= k < |plans| && plans[k] == x;
    }
    Seqs.SortDesc(active, EffectiveFromOf)
  }

  lemma SortKeepsMembers<T>(s: seq<T>, key: T -> int)
    ensures forall x :: x in Seqs.SortDesc(s, key) <==> x in s
  {
    var r := Seqs.SortDesc(s, key);
    assert forall x :: x in r <==> x in multiset(r);
    assert forall x :: x in s <==> x in multiset(s);
  }

  /** `toRateSheet()`: a null e-bike surcharge becomes zero. */
  function ToRateSheet(p: PlanVersion): (r: RateSheet)
    ensures r.baseFee == Some(p.baseFee) && r.perMinute == Some(p.perMinuteRate)
    ensures r.ebikeSurcharge == Some(if p.ebikeSurcharge.Some? then p.ebikeSurcharge.value else 0.0)
  {
    RateSheet(Some(p.baseFee), Some(p.perMinuteRate), Some(p.ebikeSurcharge.GetOr(0.0)))
  }

  /** `toContext(version)`, the same in all three strategies. */
  function ToContext(p: PlanVersion): (c: PricingContext)
    ensures c.planVersionId == p.id && c.rateSheet == ToRateSheet(p)
    ensures c.membershipStatus == p.membershipTier && c.planName == p.planName
  {
    PricingContext(p.id, ToRateSheet(p), p.membershipTier, p.planName)
  }

  /** `SelectionInput`. */
  datatype SelectionInput = SelectionInput(tripEndTime: Time, membershipStatus: Option<MembershipStatus>,
                                           cityId: Option<string>)

  /** The strategy beans, declared in their `@Order` order (10, 20, 30). */
  datatype Strategy = MembershipStrategy | CityStrategy | EffectiveDateStrategy

  /** The rows a strategy's repository query returns, before `findFirst()`. */
  predicate StrategyMatches(s: Strategy, input: SelectionInput, p: PlanVersion) {
    IsActive(p, input.tripEndTime) &&
    match s
    case MembershipStrategy =>
      input.membershipStatus.Some? && input.membershipStatus != Some(NONE) && p.membershipTier == input.membershipStatus
    case CityStrategy => input.cityId.Some? && p.cityId == input.cityId
    case EffectiveDateStrategy => true
  }

  /** `select(input)` of one strategy: nothing for a missing or NONE
      membership, nothing for a missing city, otherwise the context of the
      matching active plan with the latest effective-from, if any. */
  function StrategySelect(s: Strategy, plans: seq<PlanVersion>, input: SelectionInput): (r: Option<PricingContext>)
    ensures s == MembershipStrategy && (input.membershipStatus.None? || input.membershipStatus == Some(NONE)) ==> r.None?
    ensures s == CityStrategy && input.cityId.None? ==> r.None?
  {
    match Seqs.FirstByKeyDesc(plans, (p: PlanVersion) => StrategyMatches(s, input, p), EffectiveFromOf)
    case None => None
    case Some(p) => Some(ToContext(p))
  }

  /** A strategy yields nothing exactly when none of its rows match, and
      otherwise the context of a matching row that no other matching row
      postdates. */
  lemma StrategyPicksLatest(s: Strategy, plans: seq<PlanVersion>, input: SelectionInput)
    ensures var r := StrategySelect(s, plans, input);
            && (r.None? <==> forall j :: 0 <= j < |plans| ==> !StrategyMatches(s, input, plans[j]))
            && (r.Some? ==> exists p :: p in plans && StrategyMatches(s, input, p) && r.value == ToContext(p)
                                        && forall j :: 0 <= j < |plans| && StrategyMatches(s, input, plans[j])
                                                       ==> plans[j].effectiveFrom <= p.effectiveFrom)
  {
    var found := Seqs.FirstByKeyDesc(plans, (p: PlanVersion) => StrategyMatches(s, input, p), EffectiveFromOf);
    if found.Some? {
      assert StrategySelect(s, plans, input) == Some(ToContext(found.value));
    }
  }

  /** The selector's strategy list, ordered by `@Order`. */
  const SelectorStrategies: seq<Strategy> := [MembershipStrategy, CityStrategy, EffectiveDateStrategy]

  const NoPlanMessage: string := "No pricing plan available for provided input"

  /** What each strategy yields, in list order. */
  function StrategyResults(strategies: seq<Strategy>, plans: seq<PlanVersion>, input: SelectionInput)
    : (r: seq<Option<PricingContext>>)
    ensures |r| == |strategies|
    ensures forall k :: 0 <= k < |r| ==> r[k] == StrategySelect(strategies[k], plans, input)
  {
    seq(|strategies|, k requires 0 <= k < |strategies| => StrategySelect(strategies[k], plans, input))
  }

  /** `PricingPlanSelector.select(input)`: the first strategy that yields a
      context wins; when none does, an IllegalStateException. */
  function Select(strategies: seq<Strategy>, plans: seq<PlanVersion>, input: SelectionInput): (r: Result<PricingContext>)
    ensures r.Err? ==> r.error == IllegalState(NoPlanMessage)
  {
    match Seqs.FirstPresent(StrategyResults(strategies, plans, input))
    case None => Err(IllegalState(NoPlanMessage))
    case Some(ctx) => Ok(ctx)
  }

  /** The selector fails exactly when no strategy yields a context. */
  lemma SelectFailsIffAllEmpty(strategies: seq<Strategy>, plans: seq<PlanVersion>, input: SelectionInput)
    ensures Select(strategies, plans, input).Err?
            <==> forall k :: 0 <= k < |strategies| ==> StrategySelect(strategies[k], plans, input).None?
  {
    var results := StrategyResults(strategies, plans, input);
    assert Select(strategies, plans, input).Err? <==> Seqs.FirstPresent(results).None?;
  }

  /** Otherwise it returns the context of the first strategy that yields one. */
  lemma SelectIsFirstHit(strategies: seq<Strategy>, plans: seq<PlanVersion>, input: SelectionInput)
    requires Select(strategies, plans, input).Ok?
    ensures exists k :: 0 <= k < |strategies|
                        && StrategySelect(strategies[k], plans, input) == Some(Select(strategies, plans, input).value)
                        && forall m :: 0 <= m < k ==> StrategySelect(strategies[m], plans, input).None?
  {
    var results := StrategyResults(strategies, plans, input);
    var r := Select(strategies, plans, input);
    assert Seqs.FirstPresent(results) == Some(r.value);
    var k :| 0 <= k < |results| && results[k] == Some(r.value) && forall m :: 0 <= m < k ==> results[m].None?;
    assert StrategySelect(strategies[k], plans, input) == Some(r.value);
  }

  /** The selector tries membership, then city, then effective date. */
  lemma SelectorOrder(plans: seq<PlanVersion>, input: SelectionInput)
    ensures var m := StrategySelect(MembershipStrategy, plans, input);
            var c := StrategySelect(CityStrategy, plans, input);
            var e := StrategySelect(EffectiveDateStrategy, plans, input);
            Select(SelectorStrategies, plans, input)
            == if m.Some? then Ok(m.value)
               else if c.Some? then Ok(c.value)
               else if e.Some? then Ok(e.value)
               else Err(IllegalState(NoPlanMessage))
  {
    var results := StrategyResults(SelectorStrategies, plans, input);
    var m := StrategySelect(MembershipStrategy, plans, input);
    var c := StrategySelect(CityStrategy, plans, input);
    var e := StrategySelect(EffectiveDateStrategy, plans, input);
    assert results == [m, c, e];
    assert Seqs.FirstPresent([e]) == e by {
      assert [e][1..] == [];
    }
    assert Seqs.FirstPresent([c, e]) == if c.Some? then c else e by {
      assert [c, e][1..] == [e];
    }
    assert Seqs.FirstPresent([m, c, e]) == if m.Some? then m else if c.Some? then c else e by {
      assert [m, c, e][1..] == [c, e];
    }
  }

  /** With the three strategies in order, pricing fails exactly when no
      plan is active at the trip's end: the effective-date strategy is the
      catch-all. */
  lemma SelectFailsIffNoActivePlan(plans: seq<PlanVersion>, input: SelectionInput)
    ensures Select(SelectorStrategies, plans, input).Err?
            <==> forall j :: 0 <= j < |plans| ==> !IsActive(plans[j], input.tripEndTime)
  {
    SelectFailsIffAllEmpty(SelectorStrategies, plans, input);
    if forall j :: 0 <= j < |plans| ==> !IsActive(plans[j], input.tripEndTime) {
      forall k | 0 <= k < 3 ensures StrategySelect(SelectorStrategies[k], plans, input).None? {
      }
    }
    if Select(SelectorStrategies, plans, input).Err? {
      assert StrategySelect(SelectorStrategies[2], plans, input).None?;
    }
  }

  /** Whatever the selector picks is the context of a plan active at the
      trip's end. */
  lemma SelectedPlanIsActive(plans: seq<PlanVersion>, input: SelectionInput)
    requires Select(SelectorStrategies, plans, input).Ok?
    ensures exists p :: p in plans && IsActive(p, input.tripEndTime)
                        && Select(SelectorStrategies, plans, input).value == ToContext(p)
  {
    SelectIsFirstHit(SelectorStrategies, plans, input);
    var k :| 0 <= k < |SelectorStrategies|
             && StrategySelect(SelectorStrategies[k], plans, input) == Some(Select(SelectorStrategies, plans, input).value);
  }

  /** A member with a membership plan in effect is priced by that plan: the
      membership strategy runs first, so the selected plan carries the
      rider's tier and is the latest such plan. */
  lemma MembershipPlanWins(plans: seq<PlanVersion>, input: SelectionInput, q: PlanVersion)
    requires q in plans && StrategyMatches(MembershipStrategy, input, q)
    ensures var r := Select(SelectorStrategies, plans, input);
            && r.Ok? && r.value.membershipStatus == input.membershipStatus
            && exists p :: p in plans && StrategyMatches(MembershipStrategy, input, p) && r.value == ToContext(p)
                           && q.effectiveFrom <= p.effectiveFrom
  {
    SelectorOrder(plans, input);
    StrategyPicksLatest(MembershipStrategy, plans, input);
    var i :| 0 <= i < |plans| && plans[i] == q;
  }

  /** Without a usable membership plan, a city plan in effect prices the
      trip before the generic latest plan does. */
  lemma CityPlanBeforeLatest(plans: seq<PlanVersion>, input: SelectionInput, q: PlanVersion)
    requires forall j :: 0 <= j < |plans| ==> !StrategyMatches(MembershipStrategy, input, plans[j])
    requires q in plans && StrategyMatches(CityStrategy, input, q)
    ensures var r := Select(SelectorStrategies, plans, input);
            r.Ok? && exists p :: p in plans && IsActive(p, input.tripEndTime) && p.cityId == input.cityId
                                 && r.value == ToContext(p)
  {
    SelectorOrder(plans, input);
    StrategyPicksLatest(MembershipStrategy, plans, input);
    StrategyPicksLatest(CityStrategy, plans, input);
    var i :| 0 <= i < |plans| && plans[i] == q;
  }

  /** `findFirstByPublishedTrueOrderByEffectiveFromDesc()`: the published
      row with the latest effective-from, active or not. */
  function LatestPublished(plans: seq<PlanVersion>): (r: Option<PlanVersion>)
    ensures r.None? <==> forall j :: 0 <= j < |plans| ==> !plans[j].published
    ensures r.Some? ==> r.value in plans && r.value.published
    ensures r.Some? ==> forall j :: 0 <= j < |plans| && plans[j].published ==> plans[j].effectiveFrom <= r.value.effectiveFrom
  {
    Seqs.FirstByKeyDesc(plans, (p: PlanVersion) => p.published, EffectiveFromOf)
  }

  /** `estimate(version, minutes, ebike)`. */
  function Estimate(p: PlanVersion, minutes: int, ebike: bool): real
  {
    p.baseFee + MinuteCharge(p.perMinuteRate, minutes)
    + (if ebike && p.ebikeSurcharge.Some? then p.ebikeSurcharge.value else 0.0)
  }

  /** `ExampleCostResponse`. */
  datatype ExampleCost = ExampleCost(durationMinutes: int, ebike: bool, estimatedTotal: real)

  /** `buildExamples(version)`: a 15-minute and a 30-minute classic ride and
      a 30-minute e-bike ride. The two 30-minute examples differ by the
      surcharge alone (zero when there is none), and the two classic ones by
      fifteen minutes at the per-minute rate. */
  function BuildExamples(p: PlanVersion): (r: seq<ExampleCost>)
    ensures |r| == 3
    ensures r[0].durationMinutes == 15 && !r[0].ebike
    ensures r[1].durationMinutes == 30 && !r[1].ebike
    ensures r[2].durationMinutes == 30 && r[2].ebike
    ensures r[0].estimatedTotal == p.baseFee + 15.0 * p.perMinuteRate
    ensures r[1].estimatedTotal - r[0].estimatedTotal == 15.0 * p.perMinuteRate
    ensures r[2].estimatedTotal - r[1].estimatedTotal == p.ebikeSurcharge.GetOr(0.0)
  {
    [ExampleCost(15, false, Estimate(p, 15, false)),
     ExampleCost(30, false, Estimate(p, 30, false)),
     ExampleCost(30, true, Estimate(p, 30, true))]
  }

  /** `PricingPlanResponse`. */
  datatype PlanResponse = PlanResponse(
    planVersionId: PlanId,
    planName: string,
    baseFee: real,
    perMinuteRate: real,
    ebikeSurcharge: Option<real>,
    effectiveFrom: Time,
    effectiveTo: Option<Time>,
    description: Option<string>,
    exampleCosts: seq<ExampleCost>)

  /** `toResponse(version)`. */
  function ToResponse(p: PlanVersion): (r: PlanResponse)
    ensures r.planVersionId == p.id && r.planName == p.planName && r.baseFee == p.baseFee
    ensures r.perMinuteRate == p.perMinuteRate && r.ebikeSurcharge == p.ebikeSurcharge
    ensures r.effectiveFrom == p.effectiveFrom && r.effectiveTo == p.effectiveTo && r.description == p.description
    ensures r.exampleCosts == BuildExamples(p)
  {
    PlanResponse(p.id, p.planName, p.baseFee, p.perMinuteRate, p.ebikeSurcharge, p.effectiveFrom, p.effectiveTo,
                 p.description, BuildExamples(p))
  }

  function ResponseEffectiveFrom(r: PlanResponse): Time { r.effectiveFrom }

  /** Every row, latest effective-from first, as responses. */
  function ResponsesNewestFirst(plans: seq<PlanVersion>): (r: seq<PlanResponse>)
    ensures |r| == |plans|
    ensures Seqs.SortedDesc(r, ResponseEffectiveFrom)
    ensures forall i :: 0 <= i < |r| ==> exists p :: p in plans && r[i] == ToResponse(p)
    ensures forall p :: p in plans ==> ToResponse(p) in r
  {
    var sorted := Seqs.SortDesc(plans, EffectiveFromOf);
    SortKeepsMembers(plans, EffectiveFromOf);
    ResponsesKeepOrder(sorted);
    ResponsesKeepMembers(plans, sorted);
    Seqs.MapSeq(sorted, ToResponse)
  }

  lemma ResponsesKeepOrder(sorted: seq<PlanVersion>)
    requires Seqs.SortedDesc(sorted, EffectiveFromOf)
    ensures Seqs.SortedDesc(Seqs.MapSeq(sorted, ToResponse), ResponseEffectiveFrom)
  {
    var r := Seqs.MapSeq(sorted, ToResponse);
    assert forall i :: 0 <= i < |r| ==> r[i].effectiveFrom == sorted[i].effectiveFrom;
  }

  lemma ResponsesKeepMembers(plans: seq<PlanVersion>, sorted: seq<PlanVersion>)
    requires forall x :: x in sorted <==> x in plans
    ensures var r := Seqs.MapSeq(sorted, ToResponse);
            && (forall i :: 0 <= i < |r| ==> exists p :: p in plans && r[i] == ToResponse(p))
            && (forall p :: p in plans ==> ToResponse(p) in r)
  {
    var r := Seqs.MapSeq(sorted, ToResponse);
    forall i | 0 <= i < |r| ensures exists p :: p in plans && r[i] == ToResponse(p) {
      assert sorted[i] in plans;
    }
    forall p | p in plans ensures ToResponse(p) in r {
      var k :| 0 <= k < |sorted| && sorted[k] == p;
      assert r[k] == ToResponse(p);
    }
  }

  /** `listPublishedPlans()`: the published rows, latest effective-from
      first, each with its example costs; unpublished rows never appear. */
  function ListPublishedPlans(plans: seq<PlanVersion>): (r: seq<PlanResponse>)
    ensures |r| == Seqs.Count(plans, IsPublished)
    ensures Seqs.SortedDesc(r, ResponseEffectiveFrom)
    ensures forall i :: 0 <= i < |r| ==> OfPublishedPlan(r[i], plans)
    ensures forall p :: p in plans && p.published ==> ToResponse(p) in r
  {
    var published := Seqs.Filter(plans, IsPublished);
    var r := ResponsesNewestFirst(published);
    PublishedResponses(plans, published, r);
    r
  }

  predicate IsPublished(p: PlanVersion) {
    p.published
  }

  /** The response is that of one of the published plans. */
  predicate OfPublishedPlan(x: PlanResponse, plans: seq<PlanVersion>) {
    exists p :: p in plans && p.published && x == ToResponse(p)
  }

  /** Responses drawn from the published plans are responses of published
      plans, and every published plan has one. */
  lemma PublishedResponses(plans: seq<PlanVersion>, published: seq<PlanVersion>, r: seq<PlanResponse>)
    requires forall i :: 0 <= i < |published| ==> IsPublished(published[i]) && published[i] in plans
    requires forall i :: 0 <= i < |plans| && IsPublished(plans[i]) ==> plans[i] in published
    requires forall i :: 0 <= i < |r| ==> exists p :: p in published && r[i] == ToResponse(p)
    requires forall p :: p in published ==> ToResponse(p) in r
    ensures forall i :: 0 <= i < |r| ==> OfPublishedPlan(r[i], plans)
    ensures forall p :: p in plans && p.published ==> ToResponse(p) in r
  {
    forall i | 0 <= i < |r|
      ensures OfPublishedPlan(r[i], plans)
    {
      assert exists p :: p in published && r[i] == ToResponse(p);
      var q :| q in published && r[i] == ToResponse(q);
      var k :| 0 <= k < |published| && published[k] == q;
      assert q in plans && q.published && r[i] == ToResponse(q);
    }
    forall p | p in plans && p.published
      ensures ToResponse(p) in r
    {
      var k :| 0 <= k < |plans| && plans[k] == p;
    }
  }

  /** `listAll()`: every row, latest effective-from first. */
  function ListAll(plans: seq<PlanVersion>): (r: seq<PlanResponse>)
    ensures |r| == |plans|
    ensures Seqs.SortedDesc(r, ResponseEffectiveFrom)
    ensures forall i :: 0 <= i < |r| ==> exists p :: p in plans && r[i] == ToResponse(p)
    ensures forall p :: p in plans ==> ToResponse(p) in r
  {
    ResponsesNewestFirst(plans)
  }

  function FindPlan(plans: seq<PlanVersion>, id: PlanId): (r: Option<nat>)
    ensures r.Some? ==> r.value < |plans| && plans[r.value].id == id
    ensures r.None? <==> forall j :: 0 <= j < |plans| ==> plans[j].id != id
  {
    Seqs.IndexOf(plans, (p: PlanVersion) => p.id == id)
  }

  const PlanNotFound: string := "Pricing plan not found"

  /** `getPlan(id)`. */
  function GetPlan(plans: seq<PlanVersion>, id: PlanId): (r: Result<PlanVersion>)
    ensures r.Err? <==> forall j :: 0 <= j < |plans| ==> plans[j].id != id
    ensures r.Err? ==> r.error == IllegalArgument(PlanNotFound)
    ensures r.Ok? ==> r.value in plans && r.value.id == id
  {
    match FindPlan(plans, id)
    case None => Err(IllegalArgument(PlanNotFound))
    case Some(i) => Ok(plans[i])
  }

  /** `repository.save(version)` for an entity whose id is assigned by the
      caller: the row with that id is replaced, or the entity is added when
      there is none. */
  function Save(plans: seq<PlanVersion>, v: PlanVersion): (r: seq<PlanVersion>)
    ensures v in r
    ensures forall p :: p in plans && p.id != v.id ==> p in r
    ensures forall p :: p in r ==> p == v || p in plans
    ensures FindPlan(plans, v.id).None? ==> r == plans + [v]
    ensures FindPlan(plans, v.id).Some? ==> |r| == |plans|
    ensures UniqueIds(plans) ==> UniqueIds(r)
  {
    match FindPlan(plans, v.id)
    case None => plans + [v]
    case Some(i) =>
      var r := plans[i := v];
      assert r[i] == v;
      assert forall p :: p in plans && p.id != v.id ==> p in r by {
        forall p | p in plans && p.id != v.id ensures p in r {
          var k :| 0 <= k < |plans| && plans[k] == p;
          assert r[k] == p;
        }
      }
      r
  }

  /** After a save, looking the id up gives back the saved version. */
  lemma GetAfterSave(plans: seq<PlanVersion>, v: PlanVersion)
    requires UniqueIds(plans)
    ensures GetPlan(Save(plans, v), v.id) == Ok(v)
  {
    var r := Save(plans, v);
    var k := FindPlan(r, v.id).value;
    var b :| 0 <= b < |r| && r[b] == v;
    assert !(k < b) && !(b < k);
  }

  /** `PricingPlanUpsertRequest`; every reference field may be null. */
  datatype UpsertRequest = UpsertRequest(
    planName: Option<string>,
    baseFee: Option<real>,
    perMinuteRate: Option<real>,
    ebikeSurcharge: Option<real>,
    membershipTier: Option<MembershipStatus>,
    cityId: Option<string>,
    effectiveFrom: Option<Time>,
    effectiveTo: Option<Time>,
    description: Option<string>,
    publish: bool)

  const DescriptionLength: nat := 512

  /** `applyRequest(version, request)` followed by the flush of `save`:
      every field is copied, a missing effective-from becomes `now`, and
      the row is rejected when a NOT NULL column would be null or the
      description exceeds its column length. */
  function ApplyRequest(id: PlanId, req: UpsertRequest, now: Time): (r: Result<PlanVersion>)
    ensures r.Ok? <==> (req.planName.Some? && req.baseFee.Some? && req.perMinuteRate.Some?
                        && (req.description.None? || |req.description.value| <= DescriptionLength))
    ensures r.Err? ==> r.error.ConstraintViolation?
    ensures r.Ok? ==> var v := r.value;
            && v.id == id && v.planName == req.planName.value && v.baseFee == req.baseFee.value
            && v.perMinuteRate == req.perMinuteRate.value && v.ebikeSurcharge == req.ebikeSurcharge
            && v.membershipTier == req.membershipTier && v.cityId == req.cityId
            && v.effectiveFrom == (if req.effectiveFrom.Some? then req.effectiveFrom.value else now)
            && v.effectiveTo == req.effectiveTo && v.description == req.description && v.published == req.publish
  {
    if req.planName.None? then Err(ConstraintViolation("plan_name"))
    else if req.baseFee.None? then Err(ConstraintViolation("base_fee"))
    else if req.perMinuteRate.None? then Err(ConstraintViolation("per_minute_rate"))
    else if req.description.Some? && |req.description.value| > DescriptionLength then Err(ConstraintViolation("description"))
    else Ok(PlanVersion(id, req.planName.value, req.baseFee.value, req.perMinuteRate.value, req.ebikeSurcharge,
                        req.membershipTier, req.cityId, req.effectiveFrom.GetOr(now), req.effectiveTo,
                        req.publish, req.description))
  }

  /** `create(request)` with `newId` standing for the random UUID it draws. */
  function Create(plans: seq<PlanVersion>, newId: PlanId, req: UpsertRequest, now: Time)
    : (r: Result<(seq<PlanVersion>, PlanResponse)>)
    ensures r.Ok? <==> ApplyRequest(newId, req, now).Ok?
    ensures r.Ok? ==> var v := ApplyRequest(newId, req, now).value;
            && r.value.0 == Save(plans, v) && r.value.1 == ToResponse(v)
            && (UniqueIds(plans) ==> GetPlan(r.value.0, newId) == Ok(v))
  {
    var v :- ApplyRequest(newId, req, now);
    GetAfterSaveWhenUnique(plans, v);
    Ok((Save(plans, v), ToResponse(v)))
  }

  lemma GetAfterSaveWhenUnique(plans: seq<PlanVersion>, v: PlanVersion)
    ensures UniqueIds(plans) ==> GetPlan(Save(plans, v), v.id) == Ok(v)
  {
    if UniqueIds(plans) {
      GetAfterSave(plans, v);
    }
  }

  /** `update(planVersionId, request)`: an unknown id is rejected;
      otherwise the row is rewritten from the request under the same id. */
  function Update(plans: seq<PlanVersion>, id: PlanId, req: UpsertRequest, now: Time)
    : (r: Result<(seq<PlanVersion>, PlanResponse)>)
    ensures (forall j :: 0 <= j < |plans| ==> plans[j].id != id) ==> r == Err(IllegalArgument(PlanNotFound))
    ensures (exists j :: 0 <= j < |plans| && plans[j].id == id) ==> (r.Ok? <==> ApplyRequest(id, req, now).Ok?)
    ensures r.Ok? ==> var v := ApplyRequest(id, req, now).value;
            && r.value.0 == Save(plans, v) && r.value.1 == ToResponse(v)
            && |r.value.0| == |plans|
            && (UniqueIds(plans) ==> GetPlan(r.value.0, id) == Ok(v))
  {
    var _ :- GetPlan(plans, id);
    var v :- ApplyRequest(id, req, now);
    GetAfterSaveWhenUnique(plans, v);
    Ok((Save(plans, v), ToResponse(v)))
  }
}
