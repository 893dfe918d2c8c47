# QwikRide core in Dafny

QwikRide is a bike-sharing system. The backend is a Spring application. Stations hold bikes of two kinds, standard bikes and e-bikes. Riders reserve, check out and return bikes. Operators move bikes between stations and take stations out of service.

Every finished trip goes through a chain of pricing rules that applies the rider's plan. The result is written as an append-only ledger entry. The entry is then settled through a (fake) card gateway, or adjusted when a dispute is approved. The React frontend shows the map of stations, a station's details, the rider's ride history and the pricing/billing page, and it keeps the login session in local storage.

This project models that core as pure Dafny functions over immutable data and proves what the code promises about it.

## Layout

One module per source component, each in its own file:

| file | module | models |
|---|---|---|
| `wrappers.dfy` | `Wrappers` | `Option`, `Result`, and the exception kinds the services throw |
| `seqs.dfy` | `Seqs` | filter, search, count, sum and sort over sequences, with their lemmas |
| `text.dfy` | `Text` | digits, ASCII case, trimming, splitting and joining of strings |
| `clock.dfy` | `Clock` | instants as whole seconds, minutes between two instants |
| `bikes.dfy` | `Bikes` | `Bike`, `StandardBike`, `EBike` and their state changes |
| `bike_factory.dfy` | `BikeFactories` | the bike factories and their registry |
| `stations.dfy` | `Stations` | `BikeStation` and `BikeStationService` |
| `events.dfy` | `Events` | the event bus: subscription and delivery order |
| `bike_service.dfy` | `BikeService` | reserve, checkout, return, move, create, expiry processing |
| `history_listener.dfy` | `HistoryListener` | the ride-history subscriber to the event bus |
| `ride_filters.dfy` | `RideFilters` | the four filter strategies (date range, station, status, bike type), the filter criteria builder, the combined specification and `createPageable` |
| `ride_order.dfy` | `RideOrder` | the sort of a page request: property lookup and the database's column order |
| `ride_history.dfy` | `RideHistory` | `RideHistoryService`: records, queries, paging, statistics |
| `pricing_rules.dfy` | `PricingRules` | `TripFacts`, `MutableBill` and the rule handlers |
| `pricing_plans.dfy` | `PricingPlans` | plan versions, plan selection strategies, plan administration |
| `pricing_engine.dfy` | `PricingEngine` | `PricingEngine` and `PricingPlanService` quoting a trip |
| `charge_meta.dfy` | `ChargeMeta` | the `key=value;…` metadata text of a charge line |
| `accounts.dfy` | `Accounts` | users, authentication and registration |
| `ledger.dfy` | `Ledger` | `LedgerEntry`, `BillingLedgerService`, rider balances |
| `payments.dfy` | `Payments` | `FakePaymentGateway` and `PaymentSettlementService` |
| `disputes.dfy` | `Disputes` | `DisputeTicket` and `DisputeService` |
| `billing_access.dfy` | `BillingAccess` | `BillingController`: access scope and its endpoints |
| `billing_csv.dfy` | `BillingCsv` | the CSV export of `BillingDocumentService` |
| `session.dfy` | `Session` | `AuthContext.jsx`: the session and its local storage |
| `pricing_page.dfy` | `PricingPage` | the helpers and guards of `Pricing.jsx` |
| `map_dashboard.dfy` | `MapDashboard` | station colours, the console and the action prechecks of `MapDashboard.jsx` |
| `station_panel.dfy` | `StationPanel` | `StationDetailsPanel.jsx`: status lists, dock grid, buttons, move dialog |
| `ride_history_page.dfy` | `RideHistoryPage` | `RideHistory.jsx`: duration text, fetch guard, error messages, filters |

## Modelling conventions

- Money in the backend is `real`. This is the exact value of a `BigDecimal`; the scale is not carried. Money in the frontend is whole cents (`int`).
- An instant is an `int` number of seconds. `Duration.toMinutes()` is the quotient truncated toward zero.
- A JPA repository is a sequence in storage order plus the next `IDENTITY` id. Stations are a `map` from id to station.
- An operation that throws returns `Err(…)` with the exception's kind and message. The state is then the one before the call, as a `@Transactional` method rolls back on a runtime exception. A `NullPointerException` the code would raise is `Err(NullReference)`.
- Functions the model cannot see into are parameters. These are:
  - JSON `stringify`/`parse`;
  - JavaScript's `Number(text)`, which gives `None` for NaN;
  - the password encoder and the JWT token maker;
  - the membership lookup;
  - the gateway's random draw;
  - the text of a `BigDecimal` total.
- Sorting follows PostgreSQL: numbers and times by value, text by character code, NULL last ascending and first descending. An unknown sort property is `Err(UnknownProperty(name))`, Spring Data's `PropertyReferenceException`.
- JavaScript truthiness is written out: a text is truthy when present and non-empty, an id when present and not 0.

Two behaviours of the code that a reader might not expect:

- In `AuthContext.jsx` (lines 30-38), `updateUser` with a null result removes only the stored user and keeps the stored token, so a token can outlive its user in storage. `Session.UpdateAcrossReload` states this.
- `Pricing.jsx` (lines 493-506) checks an approved adjustment only with `isNaN` and `<= 0`, so the text "Infinity" passes the amount check.

## Model

| member | source | states |
|---|---|---|
| Bikes.NewStandardBike | qwikride-backend/src/main/java/com/qwikride/model/StandardBike.java:19-23 | a new standard bike is of type STANDARD, AVAILABLE at the given station, with no rider, no reservation and no maintenance date |
| Bikes.NewEBike | qwikride-backend/src/main/java/com/qwikride/model/EBike.java:23-28 | a new e-bike is of type E_BIKE, AVAILABLE at the given station, with a full (100) battery and no rider or reservation |
| Bikes.Reserve | qwikride-backend/src/main/java/com/qwikride/model/Bike.java:49-58 | succeeds iff the bike is AVAILABLE; it then becomes RESERVED for the user, reserved now and expiring the given minutes later, with every other field kept; otherwise it fails with "Bike is not available for reservation." |
| Bikes.CancelReservation | qwikride-backend/src/main/java/com/qwikride/model/Bike.java:60-67 | a RESERVED bike becomes AVAILABLE with all three reservation fields cleared; a bike in any other status is returned unchanged; no other field ever changes |
| Bikes.Checkout | qwikride-backend/src/main/java/com/qwikride/model/Bike.java:69-79 | succeeds iff canCheckout holds; the bike is then IN_USE for the user with the reservation holder, time and expiry cleared, and every other field (id, kind, station, ...) as it was; otherwise "Bike cannot be checked out." |
| Bikes.ReturnTo | qwikride-backend/src/main/java/com/qwikride/model/Bike.java:81-89 | succeeds iff the bike is IN_USE; it becomes AVAILABLE at the given station with no current rider and nothing else changed; otherwise "Bike is not currently in use." |
| Bikes.MoveToStation | qwikride-backend/src/main/java/com/qwikride/model/Bike.java:91-97 | succeeds iff the bike is AVAILABLE or in MAINTENANCE, and then only the station changes; otherwise "Bike cannot be moved while in use or reserved." |
| Bikes.PerformMaintenance | qwikride-backend/src/main/java/com/qwikride/model/EBike.java:43-48 | the bike is serviced now and AVAILABLE; an e-bike's battery is back to 100, a standard bike keeps its kind; nothing else changes |
| Bikes.ChargeBattery | qwikride-backend/src/main/java/com/qwikride/model/EBike.java:50-52 | the e-bike's battery is full and every other field, status included, is unchanged |
| Bikes.ReserveThenCancel | qwikride-backend/src/main/java/com/qwikride/model/Bike.java:49-67 | cancelling a fresh reservation gives back the available bike it was made on, with the reservation fields cleared |
| Bikes.ReservationExpiry | qwikride-backend/src/main/java/com/qwikride/model/Bike.java:99-103 | a fresh reservation counts as expired at a later time exactly when that time is strictly after the reservation time plus the allowed minutes |
| Bikes.RideLifecycle | qwikride-backend/src/main/java/com/qwikride/model/Bike.java:49-89 | reserve, checkout by the same rider and return all succeed on an available bike (an e-bike with at least 20% battery), ending AVAILABLE at the return station with no rider or reservation and the same id and kind |
| Bikes.MaintenanceRestoresService | qwikride-backend/src/main/java/com/qwikride/model/EBike.java:30-48 | right after maintenance a bike of either kind can be checked out and does not need maintenance, whenever the calendar's month subtraction goes back in time |
| Bikes.ChargedEBikeCheckout | qwikride-backend/src/main/java/com/qwikride/model/EBike.java:30-34 | after charging, an e-bike can be checked out exactly when it is AVAILABLE or RESERVED: the battery gate of 20 no longer matters |
| BikeFactories.InitRegistry | qwikride-backend/src/main/java/com/qwikride/factory/BikeFactoryRegistry.java:19-27 | a bike type is registered iff some bean of its factory class was supplied, and then it maps to the LAST such bean; every registered factory has the class that serves its type |
| BikeFactories.GetFactory | qwikride-backend/src/main/java/com/qwikride/factory/BikeFactoryRegistry.java:29-35 | returns the registered factory iff the type is registered, and an IllegalArgument error otherwise |
| BikeFactories.Build | qwikride-backend/src/main/java/com/qwikride/factory/EBikeFactory.java:11-13 | the standard factory builds a new standard bike and the e-bike factory a new e-bike, at the configured station |
| BikeFactories.RegistryBuildsRequestedType | qwikride-backend/src/main/java/com/qwikride/factory/BikeFactoryRegistry.java:19-35 | whatever beans are supplied, a factory the lookup returns builds an AVAILABLE bike of exactly the requested type at the requested station, an e-bike exactly for E_BIKE |
| BikeFactories.OtherBeansIgnored | qwikride-backend/src/main/java/com/qwikride/factory/BikeFactoryRegistry.java:20-26 | a bean of any other factory class leaves the registry exactly as it was |
| Stations.NewStation | qwikride-backend/src/main/java/com/qwikride/model/BikeStation.java:25-31 | a new station has no bikes counted, is ACTIVE and has the given capacity |
| Stations.GetStation | qwikride-backend/src/main/java/com/qwikride/service/BikeStationService.java:28-30 | returns the stored station iff the id exists, else "Station not found" |
| Stations.SetStatus | qwikride-backend/src/main/java/com/qwikride/service/BikeStationService.java:32-41 | succeeds iff the station exists; only that station's status changes, the saved station is returned, and the event carries the id, the old and the new status |
| Stations.EnsureActive | qwikride-backend/src/main/java/com/qwikride/service/BikeStationService.java:47-53 | passes iff the station exists and is ACTIVE; a missing station gives "Station not found", an OUT_OF_SERVICE one a StationOutOfService error |
| Stations.SetStatusThenEnsureActive | qwikride-backend/src/main/java/com/qwikride/service/BikeStationService.java:32-53 | after a status change the in-service guard passes exactly when the new status is ACTIVE |
| Stations.SetSameStatusKeepsTable | qwikride-backend/src/main/java/com/qwikride/service/BikeStationService.java:33-39 | setting a station's current status leaves the table unchanged while the event still reports that status as the old one |
| Events.Subscribe | qwikride-backend/src/main/java/com/qwikride/event/EventBus.java:12-14 | the new subscriber is added after all earlier ones, which keep their order |
| Events.Deliveries | qwikride-backend/src/main/java/com/qwikride/event/EventBus.java:16-20 | publishing makes exactly one onEvent call per subscription, in subscription order, each with the same event |
| Events.Publish | qwikride-backend/src/main/java/com/qwikride/event/EventBus.java:16-20 | publishing is running the bus's deliveries front to back, each onEvent call on the state the previous call left |
| Events.RunLast | qwikride-backend/src/main/java/com/qwikride/event/EventBus.java:17-19 | one more delivery at the end of the list is applied to the state all earlier deliveries left |
| Events.PublishToNobody | qwikride-backend/src/main/java/com/qwikride/event/EventBus.java:16-20 | publishing on a bus without subscribers leaves the state unchanged |
| Events.PublishAfterSubscribe | qwikride-backend/src/main/java/com/qwikride/event/EventBus.java:12-20 | a newly subscribed listener handles each event after all earlier subscribers have handled it |
| Events.PublishSplit | qwikride-backend/src/main/java/com/qwikride/event/EventBus.java:17-19 | delivery is sequential: publishing to a + b is publishing to a, then to b from the state a left |
| Events.IgnoringSubscribersAreTransparent | qwikride-backend/src/main/java/com/qwikride/event/EventBus.java:17-19 | adding a subscriber that ignores an event does not change the result of publishing it |
| BikeService.FindBike | qwikride-backend/src/main/java/com/qwikride/service/BikeService.java:84-85 | a found position holds a bike with that id, and nothing is found exactly when no bike has the id |
| BikeService.AdjustCount | qwikride-backend/src/main/java/com/qwikride/service/BikeService.java:74-76 | when the station exists only its docked count moves by the delta; the set of stations and every other station are unchanged |
| BikeService.CreateBike | qwikride-backend/src/main/java/com/qwikride/service/BikeService.java:28-42 | succeeds iff a factory bean serves the type (else an IllegalArgument error); the new bike is appended with the assigned id, the requested type, AVAILABLE at the station, and that station, if it exists, counts one more bike |
| BikeService.ReserveBike | qwikride-backend/src/main/java/com/qwikride/service/BikeService.java:44-80 | the checks run in the source's order with its messages (station missing, out of service, count not positive, rider already holding a reservation, no AVAILABLE bike there); on success the FIRST available bike at the station is reserved for the rider, only that bike and only that station's count (minus one) change, and one BikeReservedEvent is published |
| BikeService.ReserveGivesSingleReservation | qwikride-backend/src/main/java/com/qwikride/service/BikeService.java:58-76 | after a successful reservation the rider holds exactly one, and if no rider held two before, none does after |
| BikeService.ReservedBikeFound | qwikride-backend/src/main/java/com/qwikride/service/BikeService.java:70-72 | with distinct ids, the reserved bike is found again by id at the slot it was taken from, and it is the rider's only reservation |
| BikeService.CheckoutBike | qwikride-backend/src/main/java/com/qwikride/service/BikeService.java:82-107 | succeeds iff the bike exists, is not reserved by someone else, has no expired reservation and can be checked out; each failure has the source's message (an expired reservation always ends in "Reservation has expired", rolled back); on success only that bike changes, to IN_USE for the rider, no station count changes and a TripStartedEvent from the bike's station is published |
| BikeService.CheckoutConsumesReservation | qwikride-backend/src/main/java/com/qwikride/service/BikeService.java:98-103 | checking out a bike one holds the only live reservation on succeeds, leaves it IN_USE with no reservation, and the rider then holds none |
| BikeService.ReservedRiderCanCheckOut | qwikride-backend/src/main/java/com/qwikride/service/BikeService.java:44-107 | a rider who reserved a bike can check that same bike out at any time up to the deadline, and afterwards holds no reservation |
| BikeService.ReturnBike | qwikride-backend/src/main/java/com/qwikride/service/BikeService.java:109-142 | succeeds iff the bike is IN_USE by this rider and the return station exists, is ACTIVE and below capacity, each failure with the source's message in the source's order; on success the bike is AVAILABLE there, only that station's count rises by one and a TripEndedEvent carrying the trip's figures is published |
| BikeService.ReturnRespectsCapacity | qwikride-backend/src/main/java/com/qwikride/service/BikeService.java:126-136 | after a successful return the station's count is still within its capacity |
| BikeService.MoveBike | qwikride-backend/src/main/java/com/qwikride/service/BikeService.java:144-184 | succeeds iff the destination exists, is ACTIVE and below capacity, and the bike sits at another station and is AVAILABLE or in MAINTENANCE; the destination counts one more, the source (when it exists) max(0, count - 1), no other station changes, and a BikeMovedEvent is published |
| BikeService.MoveConservesDockedBikes | qwikride-backend/src/main/java/com/qwikride/service/BikeService.java:170-180 | a move from a station with a positive count keeps the sum of the two stations' counts |
| BikeService.Relocated | qwikride-backend/src/main/java/com/qwikride/service/BikeService.java:170-180 | after a move the source station, when it exists, counts max(0, count - 1), the destination one more, no other field of those stations changes and no other station changes |
| BikeService.ExpiryEventAsWritten | qwikride-backend/src/main/java/com/qwikride/service/BikeService.java:190-203 | as written, the expiry event of a reserved bike never names a rider, because the id is read after cancelReservation cleared it |
| BikeService.ExpiryEventAsWrittenLosesRider | qwikride-backend/src/main/java/com/qwikride/service/BikeService.java:190-203 | a concrete bike reserved by rider 7 and expired at time 601 yields, as written, an expiry event naming no rider |
| BikeService.ExpiryEvent | qwikride-backend/src/main/java/com/qwikride/event/ReservationExpiredEvent.java:1-19 | the corrected event names the bike and the rider whose reservation lapsed |
| BikeService.ReleaseCountsSpec | qwikride-backend/src/main/java/com/qwikride/service/BikeService.java:194-201 | releasing the expired reservations one by one leaves every station counting its old count plus the number of expired reservations held at it, with the same set of stations |
| BikeService.ProcessExpiredReservations | qwikride-backend/src/main/java/com/qwikride/service/BikeService.java:186-206 | exactly the expired reservations are cancelled and every other bike is untouched, no expired reservation remains, each station counts one more per expired bike it held, and one expiry event per expired bike is published in storage order; the events are built with the corrected BikeService.ExpiryEvent, which names the rider, while BikeService.ExpiryEventAsWritten is what the source publishes (no rider, see Findings) |
| HistoryListener.RecordedBikeType | qwikride-backend/src/main/java/com/qwikride/service/HistoryService.java:38-40 | the recorded type is "UNKNOWN" exactly when the bike is missing or has no type, and otherwise the type's name |
| HistoryListener.Completed | qwikride-backend/src/main/java/com/qwikride/service/RideHistoryService.java:170-175 | a completed row is COMPLETED, ends now at the return station with the trip's duration, distance and cost, and keeps its id, rider, bike, start and type |
| HistoryListener.OnEvent | qwikride-backend/src/main/java/com/qwikride/service/HistoryService.java:27-75 | a trip start appends one IN_PROGRESS row for that bike, rider and station with the recorded type; a trip end completes the row findInProgressRide returns, or changes nothing when there is none; every other event leaves the log unchanged |
| HistoryListener.LogOnlySubscribersChangeNothing | qwikride-backend/src/main/java/com/qwikride/event/EventBus.java:16-20 | subscribers that only log may follow the history listener in any number without changing the ride log an event produces |
| HistoryListener.PublishOneEvent | qwikride-backend/src/main/java/com/qwikride/event/EventBus.java:16-20 | one event on a bus holding only the history listener is one onEvent call |
| HistoryListener.NewestInProgressFound | qwikride-backend/src/main/java/com/qwikride/service/RideHistoryService.java:183-186 | a row appended after all the rider's earlier in-progress rows, and starting later than them, is the one findInProgressRide returns |
| HistoryListener.CheckoutKeepsPosition | qwikride-backend/src/main/java/com/qwikride/service/BikeService.java:102-103 | after a checkout the bike is found at the same position as before |
| HistoryListener.CheckoutStartsRide | qwikride-backend/src/main/java/com/qwikride/service/HistoryService.java:37-51 | after a successful checkout and its event, the rider's in-progress ride is the new row for that bike, starting now at the bike's station with the bike's type |
| HistoryListener.ReturnCompletesRide | qwikride-backend/src/main/java/com/qwikride/service/HistoryService.java:53-69 | after a successful return and its event, the rider's in-progress row, and only that row, is completed with the return station and the trip's figures |
| RideFilters.BuildFilterCriteria | qwikride-backend/src/main/java/com/qwikride/service/RideHistoryService.java:192-221 | without a DTO only the caller's user id is set; with one, every filter field is copied and the DTO's own user id, when present, wins over the caller's |
| RideFilters.SpecAdmitsAll | qwikride-backend/src/main/java/com/qwikride/service/RideHistoryService.java:227-244 | a row matches the combined specification exactly when it passes the user test and every strategy |
| RideFilters.SpecIgnoresStrategyOrder | qwikride-backend/src/main/java/com/qwikride/service/RideHistoryService.java:236-241 | the order in which the strategy beans are injected does not change which rows match |
| RideFilters.NoFilterAdmitsEverything | qwikride-backend/src/main/java/com/qwikride/service/filter/DateRangeFilterStrategy.java:17-19 | with no filter and no user every strategy admits every row |
| RideFilters.EndDateBoundsStartTime | qwikride-backend/src/main/java/com/qwikride/service/filter/DateRangeFilterStrategy.java:28-31 | the end date bounds the START time: for every criteria, strategy list and ride, changing when the ride ends never changes whether the date-range strategy or the combined specification admits it |
| RideFilters.StartOnlyNarrowsStationFilter | qwikride-backend/src/main/java/com/qwikride/service/filter/StationFilterStrategy.java:23-30 | a row that the start-station-only filter admits is also admitted by the start-or-end station filter |
| RideFilters.CreatePageable | qwikride-backend/src/main/java/com/qwikride/service/RideHistoryService.java:249-258 | page 0, size 20 and sort property startTime unless the DTO gives them; descending unless the direction equals "ASC" ignoring case; a sort property without a non-whitespace character, a negative page or a size below one is rejected with Spring's message |
| RideFilters.AscendingIffLowerAsc | qwikride-backend/src/main/java/com/qwikride/service/RideHistoryService.java:253-255 | for every filter that yields a page request, the direction is ascending exactly when the DTO's direction lower-cases to "asc", whatever else it says |
| RideOrder.PropertyNamed | qwikride-backend/src/main/java/com/qwikride/service/RideHistoryService.java:252-257 | the sort property names the entity field equal to its decapitalised text, and nothing is found exactly when no field has that name |
| RideOrder.PropertyNameRoundTrip | qwikride-backend/src/main/java/com/qwikride/service/RideHistoryService.java:252-257 | every sortable field is found under its own name and under that name with a capital first letter |
| RideOrder.KeyLeTotal | qwikride-backend/src/main/java/com/qwikride/service/RideHistoryService.java:257 | any two column values are comparable, NULL above every value |
| RideOrder.KeyLeTrans | qwikride-backend/src/main/java/com/qwikride/service/RideHistoryService.java:257 | the column order is transitive, text compared character by character |
| RideOrder.InOrderTotal | qwikride-backend/src/main/java/com/qwikride/service/RideHistoryService.java:257 | in either direction, of any two rows one may precede the other |
| RideOrder.InOrderTrans | qwikride-backend/src/main/java/com/qwikride/service/RideHistoryService.java:257 | in either direction the row order is transitive |
| RideOrder.SortRides | qwikride-backend/src/main/java/com/qwikride/service/RideHistoryService.java:257 | the rows are permuted (same multiset) into the order of the property in the requested direction |
| RideOrder.StartTimeDescending | qwikride-backend/src/main/java/com/qwikride/service/RideHistoryService.java:252-254 | the default order, startTime descending, puts a row before another exactly when it starts no earlier |
| RideHistory.CreateRideHistory | qwikride-backend/src/main/java/com/qwikride/service/RideHistoryService.java:147-159 | one row is appended with the next id: IN_PROGRESS, starting now, with the given bike, rider, station and type and no end fields; ids stay distinct |
| RideHistory.FindRide | qwikride-backend/src/main/java/com/qwikride/service/RideHistoryService.java:167-168 | a found position holds the row with that id, and nothing is found exactly when no row has it |
| RideHistory.UpdateRideHistory | qwikride-backend/src/main/java/com/qwikride/service/RideHistoryService.java:164-178 | succeeds iff a row has the id (else "Ride history not found"); only that row changes, to COMPLETED with the end station, end time now and the trip's figures |
| RideHistory.FindInProgressRide | qwikride-backend/src/main/java/com/qwikride/service/RideHistoryService.java:183-186 | returns one of the rider's IN_PROGRESS rows with the latest start time, and nothing exactly when the rider has none |
| RideHistory.Matching | qwikride-backend/src/main/java/com/qwikride/service/RideHistoryService.java:40 | a row is selected iff the combined specification admits it, no row is invented or duplicated, and when every row is admitted the table comes back whole |
| RideHistory.SortedPage | qwikride-backend/src/main/java/com/qwikride/service/RideHistoryService.java:42-43 | the page holds PageLength matching rows ordered by the property in the requested direction, and is the page-th slice of the sorted rows |
| RideHistory.FirstPageHoldsEarliest | qwikride-backend/src/main/java/com/qwikride/service/RideHistoryService.java:42-43 | a matching row left off the first page means the page is full and its last row comes before that row in the requested order |
| RideHistory.QueryRides | qwikride-backend/src/main/java/com/qwikride/service/RideHistoryService.java:38-48 | an invalid page request fails with its message; an unknown sort property fails naming the decapitalised property; otherwise the result is the page-th slice of at most size rows of the admitted rows sorted by the property in the requested direction, every row from the table and admitted by the specification |
| RideHistory.GetUserRideHistory | qwikride-backend/src/main/java/com/qwikride/service/RideHistoryService.java:38-48 | the rider's query: the page QueryRides gives with the rider's id, every returned row belonging to the requested rider, or to the DTO's user id when it names one |
| RideHistory.GetAllRideHistories | qwikride-backend/src/main/java/com/qwikride/service/RideHistoryService.java:53-63 | the operator's query: the page QueryRides gives without a caller id, so no row is excluded for its rider unless the DTO names a user id |
| RideHistory.AllHistoriesUnfiltered | qwikride-backend/src/main/java/com/qwikride/service/RideHistoryService.java:53-63 | without a filter the operator gets min(20, rows) rows, newest start first; with at most 20 rows every row is there, and a row left out starts no later than the twentieth |
| RideHistory.PageOf | qwikride-backend/src/main/java/com/qwikride/service/RideHistoryService.java:42-43 | a page is the contiguous run of PageLength rows starting at page * size |
| RideHistory.PageLength | qwikride-backend/src/main/java/com/qwikride/service/RideHistoryService.java:42-43 | a page has at most size rows and never runs past the end: none past the end, size when enough rows follow, the rest otherwise |
| RideHistory.GetRideStatistics | qwikride-backend/src/main/java/com/qwikride/service/RideHistoryService.java:77-142 | a rider without rides gets zero totals and no most-used values; otherwise the average distance is the mean over the rides, the average duration is AverageDuration of the rides, and each most-used field (start station, end station, bike type) is a value of maximal count among the rides that have one |
| RideHistory.AverageDuration | qwikride-backend/src/main/java/com/qwikride/service/RideHistoryService.java:99-104 | the mean duration over the rides that have one, and zero when none has |
| RideHistory.MostUsed | qwikride-backend/src/main/java/com/qwikride/service/RideHistoryService.java:106-130 | nothing exactly when no ride has a value; otherwise a value that occurs at least as often as any other |
| RideHistory.StatisticsTotals | qwikride-backend/src/main/java/com/qwikride/service/RideHistoryService.java:90-98 | the ride count, total distance and total cost equal the count of the rider's rows and the sums over the whole table of the rider's distances and costs (missing values as zero) |
| Clock.WholeMinutesBetween | qwikride-backend/src/main/java/com/qwikride/prc/pricing/domain/TripFacts.java:29 | the whole minutes between two instants, truncated toward zero: never more than the elapsed time and less than one minute short of it |
| Clock.MinutesRoundTrip | qwikride-backend/src/main/java/com/qwikride/prc/pricing/TripFactsFactory.java:38-39 | measuring the minutes between a time and that time plus m minutes gives back m |
| Clock.Ceil | qwikride-backend/src/main/java/com/qwikride/prc/pricing/TripFactsFactory.java:36 | Math.ceil: the least whole number not below x |
| PricingRules.DurationMinutes | qwikride-backend/src/main/java/com/qwikride/prc/pricing/domain/TripFacts.java:25-30 | 0 when either end is missing or the trip is under a minute; otherwise the whole minutes from start to end, never negative |
| PricingRules.Add | qwikride-backend/src/main/java/com/qwikride/prc/pricing/domain/MutableBill.java:11-13 | the line goes after every earlier line, which stay as they were, and the total grows by exactly its amount |
| PricingRules.TotalAppend | qwikride-backend/src/main/java/com/qwikride/prc/pricing/domain/MutableBill.java:19-23 | the total of a bill with one more line is the old total plus that line's amount |
| PricingRules.BilledMinutes | qwikride-backend/src/main/java/com/qwikride/prc/pricing/rule/PerMinuteHandler.java:21 | at least one minute, never fewer than the trip's minutes, and exactly the trip's minutes when it lasted one or more |
| PricingRules.DoApply | qwikride-backend/src/main/java/com/qwikride/prc/pricing/rule/BaseFeeHandler.java:15-27 | each handler adds at most one line at the end: BASE_FEE with the plan id when the base fee is positive, PER_MINUTE at the rate times the billed minutes when the rate is positive, E_BIKE_SURCHARGE only for an e-bike with a positive surcharge; the discount, cap and tax placeholders add nothing |
| PricingRules.Apply | qwikride-backend/src/main/java/com/qwikride/prc/pricing/rule/AbstractRuleHandler.java:17-22 | a chain only appends: the starting bill is a prefix of the result, which has at most one more line per handler |
| PricingRules.ApplyAppend | qwikride-backend/src/main/java/com/qwikride/prc/pricing/rule/AbstractRuleHandler.java:11-22 | linking a second chain after a first is the same as running the first and then the second on its result |
| PricingRules.ApplyTotal | qwikride-backend/src/main/java/com/qwikride/prc/pricing/rule/AbstractRuleHandler.java:17-22 | a chain raises the bill's total by exactly the sum of the amounts its rules charge |
| PricingRules.PricingRuleChain | qwikride-backend/src/main/java/com/qwikride/prc/PrcConfiguration.java:17-46 | the chain starts base fee, per-minute, e-bike surcharge, then holds only the optional handlers, each exactly when its bean is available |
| PricingRules.PlaceholdersAddNothing | qwikride-backend/src/main/java/com/qwikride/prc/PrcConfiguration.java:30-43 | a run of discount, cap and tax handlers leaves the bill unchanged |
| PricingRules.ChainEqualsCoreChain | qwikride-backend/src/main/java/com/qwikride/prc/PrcConfiguration.java:24-45 | whichever optional beans exist, the configured chain bills exactly what base fee, per-minute and surcharge alone bill |
| PricingRules.EBikeTripBill | qwikride-backend/src/main/java/com/qwikride/prc/pricing/rule/EbikeSurchargeHandler.java:15-31 | an e-bike trip with three positive rates gets exactly three lines in the order BASE_FEE, PER_MINUTE, E_BIKE_SURCHARGE, totalling base + rate * minutes + surcharge |
| PricingPlans.FindActivePlans | qwikride-backend/src/main/java/com/qwikride/prc/repository/PricingPlanVersionRepository.java:15-16 | exactly the published rows with effectiveFrom at or before the time and no effectiveTo or one after it, latest effectiveFrom first, and no row invented |
| PricingPlans.SortKeepsMembers | qwikride-backend/src/main/java/com/qwikride/prc/repository/PricingPlanVersionRepository.java:15 | ordering the rows by effectiveFrom neither adds nor drops any row |
| PricingPlans.ToRateSheet | qwikride-backend/src/main/java/com/qwikride/prc/model/PricingPlanVersion.java:62-68 | the rate sheet carries the base fee and per-minute rate, and the e-bike surcharge with a missing one read as zero |
| PricingPlans.ToContext | qwikride-backend/src/main/java/com/qwikride/prc/pricing/selector/strategy/MembershipStrategy.java:33-40 | the context carries the plan's id, its rate sheet, its tier and its name |
| PricingPlans.StrategySelect | qwikride-backend/src/main/java/com/qwikride/prc/pricing/selector/strategy/MembershipStrategy.java:22-31 | the membership strategy yields nothing for a missing or NONE membership, and the city strategy nothing for a missing city |
| PricingPlans.StrategyPicksLatest | qwikride-backend/src/main/java/com/qwikride/prc/pricing/selector/strategy/CityStrategy.java:21-29 | a strategy yields nothing exactly when no row matches its query, and otherwise the context of a matching row that no other matching row postdates |
| PricingPlans.StrategyResults | qwikride-backend/src/main/java/com/qwikride/prc/pricing/selector/PricingPlanSelector.java:16-17 | one result per strategy, in list order, each that strategy's own selection |
| PricingPlans.Select | qwikride-backend/src/main/java/com/qwikride/prc/pricing/selector/PricingPlanSelector.java:15-22 | a failure is always the IllegalState "No pricing plan available for provided input" |
| PricingPlans.SelectFailsIffAllEmpty | qwikride-backend/src/main/java/com/qwikride/prc/pricing/selector/PricingPlanSelector.java:16-21 | the selector fails exactly when every strategy yields nothing |
| PricingPlans.SelectIsFirstHit | qwikride-backend/src/main/java/com/qwikride/prc/pricing/selector/PricingPlanSelector.java:16-20 | a successful selection is the result of some strategy, and every strategy before it yielded nothing |
| PricingPlans.SelectorOrder | qwikride-backend/src/main/java/com/qwikride/prc/pricing/selector/strategy/EffectiveDateStrategy.java:15 | with the @Order list, membership is tried first, then city, then effective date, and only when all three yield nothing does it fail |
| PricingPlans.SelectFailsIffNoActivePlan | qwikride-backend/src/main/java/com/qwikride/prc/pricing/selector/strategy/EffectiveDateStrategy.java:21-25 | pricing fails exactly when no plan is active at the trip's end, since the effective-date strategy catches every active plan |
| PricingPlans.SelectedPlanIsActive | qwikride-backend/src/main/java/com/qwikride/prc/repository/PricingPlanVersionRepository.java:15-24 | whatever the selector picks is the context of a plan active at the trip's end |
| PricingPlans.MembershipPlanWins | qwikride-backend/src/main/java/com/qwikride/prc/pricing/selector/strategy/MembershipStrategy.java:16-31 | when an active plan exists for the rider's tier, the selected plan is such a plan, carries that tier, and is at least as recent as any of them |
| PricingPlans.CityPlanBeforeLatest | qwikride-backend/src/main/java/com/qwikride/prc/pricing/selector/strategy/CityStrategy.java:15-29 | without a membership match, an active plan for the trip's city wins over the generic latest plan |
| PricingPlans.LatestPublished | qwikride-backend/src/main/java/com/qwikride/prc/repository/PricingPlanVersionRepository.java:26 | nothing iff no row is published; otherwise a published row with no published row effective later |
| PricingPlans.BuildExamples | qwikride-backend/src/main/java/com/qwikride/prc/service/PricingPlanService.java:49-62 | three examples, 15 and 30 minutes classic and 30 minutes e-bike; the first costs base + 15 * rate, the second 15 * rate more, the third the surcharge (zero when absent) more |
| PricingPlans.ToResponse | qwikride-backend/src/main/java/com/qwikride/prc/service/PricingPlanService.java:36-47 | the response copies the plan's id, name, rates, window and description and carries its examples |
| PricingPlans.ResponsesNewestFirst | qwikride-backend/src/main/java/com/qwikride/prc/service/PricingPlanAdminService.java:42-45 | one response per row, latest effectiveFrom first, each the response of some row and every row's response present |
| PricingPlans.ResponsesKeepOrder | qwikride-backend/src/main/java/com/qwikride/prc/service/PricingPlanService.java:25-26 | mapping rows sorted by effectiveFrom to responses keeps the order |
| PricingPlans.ResponsesKeepMembers | qwikride-backend/src/main/java/com/qwikride/prc/service/PricingPlanService.java:25-26 | mapping rows to responses keeps exactly the rows' responses |
| PricingPlans.ListPublishedPlans | qwikride-backend/src/main/java/com/qwikride/prc/service/PricingPlanService.java:21-28 | one response per published row and none other, latest effectiveFrom first |
| PricingPlans.ListAll | qwikride-backend/src/main/java/com/qwikride/prc/service/PricingPlanAdminService.java:40-46 | one response per row, published or not, latest effectiveFrom first |
| PricingPlans.FindPlan | qwikride-backend/src/main/java/com/qwikride/prc/service/PricingPlanService.java:32 | a found position holds the row with that id, and nothing is found exactly when no row has it |
| PricingPlans.GetPlan | qwikride-backend/src/main/java/com/qwikride/prc/service/PricingPlanService.java:30-34 | "Pricing plan not found" exactly when no row has the id; otherwise a stored row with that id |
| PricingPlans.Save | qwikride-backend/src/main/java/com/qwikride/prc/service/PricingPlanAdminService.java:27 | the saved version is stored, replacing the row with its id or appended when the id is new; other rows stay and ids stay unique |
| PricingPlans.GetAfterSave | qwikride-backend/src/main/java/com/qwikride/prc/service/PricingPlanAdminService.java:27-36 | looking up a just-saved id gives back exactly the saved version |
| PricingPlans.ApplyRequest | qwikride-backend/src/main/java/com/qwikride/prc/service/PricingPlanAdminService.java:48-59 | every request field is copied, a missing effectiveFrom becomes now; the save fails with a constraint violation exactly when a NOT NULL column is missing or the description is longer than 512 |
| PricingPlans.Create | qwikride-backend/src/main/java/com/qwikride/prc/service/PricingPlanAdminService.java:22-29 | succeeds exactly when the request is storable; the new version is saved under the drawn id, its response returned, and reading that id back gives it |
| PricingPlans.GetAfterSaveWhenUnique | qwikride-backend/src/main/java/com/qwikride/prc/service/PricingPlanAdminService.java:27 | with unique ids, the saved version is what a lookup of its id returns |
| PricingPlans.Update | qwikride-backend/src/main/java/com/qwikride/prc/service/PricingPlanAdminService.java:31-38 | an unknown id gives "Pricing plan not found"; otherwise succeeds exactly when the request is storable, rewriting that row in place under the same id |
| PricingEngine.Price | qwikride-backend/src/main/java/com/qwikride/prc/pricing/PricingEngine.java:26-38 | fails exactly when selection fails, with its error; otherwise the bill carries the selected plan's id and name, the lines the chain adds to an empty bill, and the sum the rules charge as total |
| PricingEngine.EstimateMatchesChain | qwikride-backend/src/main/java/com/qwikride/prc/service/PricingPlanService.java:56-62 | for non-negative rates and a trip of at least a minute, the configured chain bills exactly the catalogue estimate for those minutes, whichever optional handlers exist |
| PricingEngine.CoreChainTotal | qwikride-backend/src/main/java/com/qwikride/prc/pricing/rule/PerMinuteHandler.java:15-30 | the base, per-minute and surcharge chain totals the catalogue estimate for non-negative rates and at least one minute |
| PricingEngine.EstimateSteps | qwikride-backend/src/main/java/com/qwikride/prc/service/PricingPlanService.java:56-62 | a classic trip of no minutes is estimated at the base fee, each further minute adds exactly the per-minute rate, and an e-bike costs the surcharge more, or the same when no surcharge is set |
| PricingEngine.CoreChainAmount | qwikride-backend/src/main/java/com/qwikride/prc/pricing/rule/AbstractRuleHandler.java:17-22 | the core chain's total is the sum of what base fee, per-minute and surcharge each charge |
| PricingEngine.PlanRuleAmounts | qwikride-backend/src/main/java/com/qwikride/prc/pricing/rule/EbikeSurchargeHandler.java:15-31 | under a plan with non-negative rates each rule charges its share of the estimate: base fee, rate times minutes, surcharge only for an e-bike |
| PricingEngine.PriceIsSelectedPlanEstimate | qwikride-backend/src/main/java/com/qwikride/prc/pricing/PricingEngine.java:26-38 | whenever selection succeeds, a trip of at least a minute is priced at the catalogue estimate of an active plan, whose id the bill carries |
| PricingEngine.ResolveCityId | qwikride-backend/src/main/java/com/qwikride/prc/pricing/TripFactsFactory.java:71-84 | no city exactly for a missing or unknown station; "MTL" exactly when the address contains "montreal" ignoring case; otherwise "DEFAULT" |
| PricingEngine.MontrealIgnoresCase | qwikride-backend/src/main/java/com/qwikride/prc/pricing/TripFactsFactory.java:78 | upper-casing an address never changes whether it resolves to the Montreal city |
| PricingEngine.ShortAddressIsNotMontreal | qwikride-backend/src/main/java/com/qwikride/prc/pricing/TripFactsFactory.java:78 | an address shorter than "montreal" never resolves to the Montreal city |
| PricingEngine.RoundedMinutes | qwikride-backend/src/main/java/com/qwikride/prc/pricing/TripFactsFactory.java:38 | at least one, not below the duration, and for a positive duration less than a minute above it |
| PricingEngine.BuildTripFacts | qwikride-backend/src/main/java/com/qwikride/prc/pricing/TripFactsFactory.java:28-60 | the trip starts when and where the rider's in-progress ride did, or the rounded-up duration before now at no station; it ends the rounded minutes later, so it lasts exactly those minutes; it is an e-bike trip iff the stored bike is an e-bike, and its city is the start station's |
| PricingEngine.SelectionInputFor | qwikride-backend/src/main/java/com/qwikride/prc/pricing/TripFactsFactory.java:62-69 | the selection input carries the trip's end time, membership and city |
| PricingEngine.TripBilledAtRoundedMinutes | qwikride-backend/src/main/java/com/qwikride/prc/pricing/TripFactsFactory.java:35-39 | a finished trip priced through the chain the configuration builds (cap and tax always registered, the discount with or without its profile) costs the estimate of some stored plan for the duration rounded up to whole minutes, at least one |
| ChargeMeta.PutAll | qwikride-backend/src/main/java/com/qwikride/prc/model/LedgerCharge.java:58-63 | putting entries in turn adds exactly their keys; the last entry for a key decides its value, and keys not put keep their old value |
| ChargeMeta.MapOf | qwikride-backend/src/main/java/com/qwikride/prc/model/LedgerCharge.java:29 | the map of a list of entries has exactly their keys, and with distinct keys each key maps to its entry's value |
| ChargeMeta.SerializeMeta | qwikride-backend/src/main/java/com/qwikride/prc/model/LedgerCharge.java:38-50 | null exactly for an empty map; otherwise the entries as key=value joined by ';' in iteration order |
| ChargeMeta.SplitPair | qwikride-backend/src/main/java/com/qwikride/prc/model/LedgerCharge.java:59-60 | a piece has two parts exactly when it contains '='; the key is the text before the first '=' and the value all the rest |
| ChargeMeta.MetaAsMap | qwikride-backend/src/main/java/com/qwikride/prc/model/LedgerCharge.java:52-56 | null or empty text decodes to the empty map |
| ChargeMeta.From | qwikride-backend/src/main/java/com/qwikride/prc/model/LedgerCharge.java:29-36 | the charge keeps the code and amount, and stores no meta text exactly when the map is empty |
| ChargeMeta.PieceOfPair | qwikride-backend/src/main/java/com/qwikride/prc/model/LedgerCharge.java:47-61 | the text of one entry whose key has no '=' decodes back to that entry |
| ChargeMeta.PutPiecesOfPairs | qwikride-backend/src/main/java/com/qwikride/prc/model/LedgerCharge.java:57-63 | decoding the pieces of serialised entries puts exactly those entries in order, when no key holds '=' |
| ChargeMeta.MetaRoundTrip | qwikride-backend/src/main/java/com/qwikride/prc/model/LedgerCharge.java:38-65 | decoding the serialised meta gives back the map, whenever no key holds '=' or ';' and no value holds ';' |
| ChargeMeta.ValueMayContainEquals | qwikride-backend/src/main/java/com/qwikride/prc/model/LedgerCharge.java:59 | only the first '=' separates: for every key without '=' or ';' and every value without ';', whatever '=' it holds, the text key=value decodes to that single entry |
| ChargeMeta.KeyWithEqualsIsSplit | qwikride-backend/src/main/java/com/qwikride/prc/model/LedgerCharge.java:47-61 | a key holding '=' does not survive: ("a=b", "c") comes back as ("a", "b=c") |
| ChargeMeta.PiecesWithoutEqualsAreSkipped | qwikride-backend/src/main/java/com/qwikride/prc/model/LedgerCharge.java:60-62 | pieces without '=' put nothing |
| ChargeMeta.NoEqualsDecodesToEmpty | qwikride-backend/src/main/java/com/qwikride/prc/model/LedgerCharge.java:57-64 | text without '=' decodes to the empty map |
| Accounts.FindByUsername | qwikride-backend/src/main/java/com/qwikride/service/AuthenticationService.java:21 | a found position holds that username, and nothing is found exactly when no user has it |
| Accounts.FindById | qwikride-backend/src/main/java/com/qwikride/model/User.java:16-18 | a found position holds that id and no earlier user has it, and nothing is found exactly when no user has it |
| Accounts.Authenticate | qwikride-backend/src/main/java/com/qwikride/service/AuthenticationService.java:20-37 | fails with "Invalid username or password" for an unknown username or a password that does not match the stored hash, and otherwise answers with the token, username, full name, role name and id of that user |
| Accounts.NewUser | qwikride-backend/src/main/java/com/qwikride/model/User.java:20-46 | a new user copies the request's fields, stores the encoded password, and starts as a RIDER without membership and with a zero pending balance |
| Accounts.Insert | qwikride-backend/src/main/java/com/qwikride/service/AuthenticationService.java:47-56 | saving appends the new user under the next identity value and advances it |
| Accounts.Register | qwikride-backend/src/main/java/com/qwikride/service/AuthenticationService.java:39-57 | a taken email is reported first, then a taken username; succeeds exactly when both are free, and then stores exactly one new rider |
| Accounts.RegisterUser | qwikride-backend/src/main/java/com/qwikride/service/RegistrationService.java:16-35 | a taken username is reported first, then a taken email; succeeds exactly when both are free, returning the saved rider |
| Accounts.RegistrationsAgree | qwikride-backend/src/main/java/com/qwikride/service/RegistrationService.java:17-23 | both registration services accept the same requests and store the same user; they differ only in which message a request clashing on both fields gets |
| Accounts.RegisterKeepsWellFormed | qwikride-backend/src/main/java/com/qwikride/model/User.java:26-30 | registration keeps ids, usernames and emails unique |
| Accounts.LoginAfterRegister | qwikride-backend/src/main/java/com/qwikride/service/AuthenticationService.java:20-57 | a freshly registered rider can sign in with the password they registered, and is answered with role RIDER |
| Ledger.OverlongColumn | qwikride-backend/src/main/java/com/qwikride/prc/model/LedgerEntry.java:73-84 | no column is reported exactly when the summary fits 128 characters, the payment reference 64 and every charge's meta text 512 |
| Ledger.FindEntry | qwikride-backend/src/main/java/com/qwikride/prc/billing/BillingLedgerService.java:87 | a found position holds that id, and nothing is found exactly when no entry has it |
| Ledger.Insert | qwikride-backend/src/main/java/com/qwikride/prc/model/LedgerEntry.java:32-34 | a new row takes the next IDENTITY value and goes at the end; the ids stay unique and below the next value, and the new id finds the new row |
| Ledger.Replace | qwikride-backend/src/main/java/com/qwikride/prc/service/PaymentSettlementService.java:46 | saving an existing row replaces it in place; the ids stay unique and every id finds the same position as before |
| Ledger.AdjustRiderBalance | qwikride-backend/src/main/java/com/qwikride/prc/billing/BillingLedgerService.java:146-154 | an unknown rider leaves the users as they were; a known rider's pending balance, null counting as zero, moves by the delta, and no other user changes |
| Ledger.AdjustmentsAdd | qwikride-backend/src/main/java/com/qwikride/prc/billing/BillingLedgerService.java:146-154 | two adjustments of the same rider move the balance by their sum |
| Ledger.AdjustmentLeavesOthers | qwikride-backend/src/main/java/com/qwikride/prc/billing/BillingLedgerService.java:147 | an adjustment never moves another rider's balance |
| Ledger.AdjustmentMovesBalance | qwikride-backend/src/main/java/com/qwikride/prc/billing/BillingLedgerService.java:148-151 | the rider's balance after an adjustment is the one before plus the delta |
| Ledger.StoredCharges | qwikride-backend/src/main/java/com/qwikride/prc/billing/BillingLedgerService.java:42-44 | one stored charge per bill line, in order, with the line's code and amount and its meta serialised |
| Ledger.TripSummary | qwikride-backend/src/main/java/com/qwikride/prc/billing/BillingLedgerService.java:45-46 | the summary starts with the plan name and is the plan name, minutes and total text plus eleven separator characters |
| Ledger.AppendTripEntry | qwikride-backend/src/main/java/com/qwikride/prc/billing/BillingLedgerService.java:27-51 | a missing start or end station or time, or an over-long summary or meta text, fails; otherwise exactly one PENDING entry carrying the trip and bill is appended and the rider's balance grows by the total |
| Ledger.AppendAdjustment | qwikride-backend/src/main/java/com/qwikride/prc/billing/BillingLedgerService.java:116-144 | fails exactly when the note or a meta text is too long; otherwise appends one ADJUSTED entry that copies the original trip, carries the bill and note, points back at the original, and moves the rider's balance by the bill's total |
| Ledger.AppendOnly | qwikride-backend/src/main/java/com/qwikride/prc/billing/BillingLedgerService.java:48 | appending a trip keeps every existing entry at its position, and every old id still finds the same entry |
| Ledger.TripEntryChargesRider | qwikride-backend/src/main/java/com/qwikride/prc/billing/BillingLedgerService.java:49 | after a trip is appended the rider's pending balance is the old one plus exactly the bill's total |
| Ledger.ByRider | qwikride-backend/src/main/java/com/qwikride/prc/repository/LedgerEntryRepository.java:13 | exactly the rider's entries, each counted once, newest start first |
| Ledger.ByRiderInRange | qwikride-backend/src/main/java/com/qwikride/prc/repository/LedgerEntryRepository.java:15-18 | exactly the rider's entries whose start lies between the two bounds, both inclusive, newest start first |
| Ledger.ByStatus | qwikride-backend/src/main/java/com/qwikride/prc/repository/LedgerEntryRepository.java:20 | exactly the entries with that payment status, each once, newest start first |
| Ledger.EmptyRange | qwikride-backend/src/main/java/com/qwikride/prc/repository/LedgerEntryRepository.java:15 | a range whose end precedes its start finds nothing |
| Ledger.RangeWithinRider | qwikride-backend/src/main/java/com/qwikride/prc/repository/LedgerEntryRepository.java:13-18 | every entry the range query finds is also in the rider's whole history |
| Ledger.ChargeResponses | qwikride-backend/src/main/java/com/qwikride/prc/billing/BillingLedgerService.java:93-95 | one response line per stored charge, in order, with its code, amount and decoded meta |
| Ledger.ToResponse | qwikride-backend/src/main/java/com/qwikride/prc/billing/BillingLedgerService.java:92-114 | the response carries the entry's id, plan version id and plan name, total, status, start time and its decoded charges |
| Ledger.GetHistory | qwikride-backend/src/main/java/com/qwikride/prc/billing/BillingLedgerService.java:53-64 | with both bounds the range query is used, otherwise the rider's whole history, each entry turned into its response |
| Ledger.HistoryNewestFirst | qwikride-backend/src/main/java/com/qwikride/prc/billing/BillingLedgerService.java:53-64 | the history is ordered newest start first |
| Ledger.HistoryComplete | qwikride-backend/src/main/java/com/qwikride/prc/billing/BillingLedgerService.java:56-60 | every entry of the rider, within the range when both bounds are given, appears in the history |
| Ledger.HistorySound | qwikride-backend/src/main/java/com/qwikride/prc/billing/BillingLedgerService.java:56-63 | every line of the history comes from an entry of the rider, within the range when both bounds are given |
| Ledger.OneBoundIsIgnored | qwikride-backend/src/main/java/com/qwikride/prc/billing/BillingLedgerService.java:56 | a start bound without an end bound is ignored: the whole history is returned |
| Ledger.BuildSummary | qwikride-backend/src/main/java/com/qwikride/prc/billing/BillingLedgerService.java:66-83 | the summary carries the entry's rider, total, plan, duration and decoded charges |
| Ledger.GetSummary | qwikride-backend/src/main/java/com/qwikride/prc/billing/BillingLedgerService.java:85-90 | an unknown id fails with "Ledger entry not found"; otherwise the summary of that entry |
| Ledger.SummaryShowsBill | qwikride-backend/src/main/java/com/qwikride/prc/billing/BillingLedgerService.java:27-90 | the summary of a freshly appended trip shows the bill's total, plan, duration and every charge line's code, amount and meta map |
| Payments.TransactionId | qwikride-backend/src/main/java/com/qwikride/prc/payment/FakePaymentGateway.java:71 | a transaction id is "TXN-" followed by eighteen characters, twenty-two in all |
| Payments.Charge | qwikride-backend/src/main/java/com/qwikride/prc/payment/FakePaymentGateway.java:21-80 | a missing or non-positive amount fails with INVALID_AMOUNT, one above 10000 with AMOUNT_EXCEEDS_LIMIT, a test token with its scenario's reason; otherwise the random draw alone decides, and only a success carries a "TXN-" id |
| Payments.ScenarioFailure | qwikride-backend/src/main/java/com/qwikride/prc/payment/FakePaymentGateway.java:86-117 | a token forces a failure exactly when its lower-case form is one of the twelve test tokens, and then it forces that token's failure |
| Payments.ScenarioIgnoresCase | qwikride-backend/src/main/java/com/qwikride/prc/payment/FakePaymentGateway.java:90 | a test token is recognised whatever its letter case |
| Payments.DefaultTokenIsNotATestToken | qwikride-backend/src/main/java/com/qwikride/prc/payment/FakePaymentGateway.java:46-59 | with a valid amount and no token or the default token, the charge succeeds exactly when the random draw passes |
| Payments.DefaultTokenForcesNothing | qwikride-backend/src/main/java/com/qwikride/prc/payment/FakePaymentGateway.java:115-117 | "saved-default" forces no failure scenario |
| Payments.OnlyTheDrawIsRandom | qwikride-backend/src/main/java/com/qwikride/prc/payment/FakePaymentGateway.java:34-56 | an invalid amount or a test token gives the same answer whatever the random draw |
| Payments.MissingTokenIsDefault | qwikride-backend/src/main/java/com/qwikride/prc/payment/FakePaymentGateway.java:46-49 | a charge without a token is answered exactly like one with "saved-default" |
| Payments.Settle | qwikride-backend/src/main/java/com/qwikride/prc/service/PaymentSettlementService.java:25-55 | an unknown entry or another rider's entry fails; a PAID entry answers with its stored reference and changes nothing; otherwise the entry becomes PAID with the transaction id, or FAILED with the failure reason, and only a success lowers the rider's balance by the total |
| Payments.Record | qwikride-backend/src/main/java/com/qwikride/prc/service/PaymentSettlementService.java:42-53 | only the settled entry changes, and only in its payment columns: PAID with the transaction id after a success, FAILED with the failure reason otherwise; a failure leaves the users as they were and the table stays well formed |
| Payments.LedgerReference | qwikride-backend/src/main/java/com/qwikride/prc/service/PaymentSettlementService.java:36-39 | the reference sent to the gateway starts with "LEDGER-" |
| Payments.LedgerReferenceReadsBack | qwikride-backend/src/main/java/com/qwikride/prc/service/PaymentSettlementService.java:36-39 | what follows "LEDGER-" in the reference is the id's decimal digits, after a '-' for a negative id, and reads back as the id |
| Payments.DistinctEntriesDistinctReferences | qwikride-backend/src/main/java/com/qwikride/prc/service/PaymentSettlementService.java:36-39 | two different entries are never charged under the same reference |
| Payments.SettleMissingTokenIsDefault | qwikride-backend/src/main/java/com/qwikride/prc/service/PaymentSettlementService.java:36-40 | settling without a token through the fake gateway is settling with the default token |
| Payments.SettleIsIdempotent | qwikride-backend/src/main/java/com/qwikride/prc/service/PaymentSettlementService.java:32-34 | settling again after a success charges nothing and answers with the same transaction id and time |
| Payments.PaymentClearsBalance | qwikride-backend/src/main/java/com/qwikride/prc/service/PaymentSettlementService.java:42-47 | a settlement lowers the rider's balance by the entry's total exactly when it newly succeeds, and otherwise leaves it |
| Payments.TripThenPaymentNetsZero | qwikride-backend/src/main/java/com/qwikride/prc/service/PaymentSettlementService.java:47 | a trip appended and then paid leaves the rider's pending balance where it was |
| Payments.NonPositiveTotalIsRejected | qwikride-backend/src/main/java/com/qwikride/prc/payment/FakePaymentGateway.java:34-37 | an entry with a zero or negative total, such as a dispute credit, always ends FAILED with INVALID_AMOUNT and the balance unchanged |
| Disputes.OverlongTicketColumn | qwikride-backend/src/main/java/com/qwikride/prc/model/DisputeTicket.java:27-44 | no column is reported exactly when the reason is present and fits 512 characters, the evidence URL 1024 and the resolution note 512 |
| Disputes.FindTicket | qwikride-backend/src/main/java/com/qwikride/prc/service/DisputeService.java:50-51 | a found position holds that id, and nothing is found exactly when no ticket has it |
| Disputes.Submit | qwikride-backend/src/main/java/com/qwikride/prc/service/DisputeService.java:29-46 | an unknown entry or another rider's entry fails; succeeds exactly when the entry is the rider's and the reason and evidence fit, and then appends one OPEN ticket for that entry created now |
| Disputes.AdjustmentBill | qwikride-backend/src/main/java/com/qwikride/prc/service/DisputeService.java:68-78 | the credit bill's total is minus the amount, its one line is that ADJUSTMENT, and it keeps the original plan with " Adjustment" appended to the name |
| Disputes.SaveTicket | qwikride-backend/src/main/java/com/qwikride/prc/service/DisputeService.java:85 | saving succeeds exactly when the ticket's columns fit, and then replaces that ticket only |
| Disputes.Resolve | qwikride-backend/src/main/java/com/qwikride/prc/service/DisputeService.java:48-86 | an unknown ticket fails; a RESOLVED or REJECTED ticket is answered unchanged; otherwise the decision, note and time are recorded and an approval also books the credit |
| Disputes.RejectionBooksNothing | qwikride-backend/src/main/java/com/qwikride/prc/service/DisputeService.java:56-58 | a rejection of an open ticket records REJECTED, the note and the time, and leaves the ledger and the balances alone |
| Disputes.ApprovalNeedsPositiveAmount | qwikride-backend/src/main/java/com/qwikride/prc/service/DisputeService.java:63-67 | an approval with a missing, zero or negative amount fails with "Adjustment amount must be positive when approving disputes" |
| Disputes.AdjustmentMetaText | qwikride-backend/src/main/java/com/qwikride/prc/service/DisputeService.java:71 | the adjustment line's meta is stored as the text "source=dispute" |
| Disputes.ApprovalBooksRefund | qwikride-backend/src/main/java/com/qwikride/prc/service/DisputeService.java:60-83 | an approval appends exactly one ADJUSTED entry of minus the amount with a single ADJUSTMENT line from the dispute, named after the original plan, carrying the note or "Dispute adjustment", pointing at the disputed entry and recorded on the ticket |
| Disputes.ApprovalRefundsBalance | qwikride-backend/src/main/java/com/qwikride/prc/service/DisputeService.java:79-81 | an approval lowers the rider's pending balance by exactly the refunded amount |
| Disputes.LongNoteBlocksApproval | qwikride-backend/src/main/java/com/qwikride/prc/service/DisputeService.java:79-81 | a note of 129 to 512 characters fits the ticket but not the ledger summary, so every approval carrying it fails |
| Disputes.ResolveWritesOneTicket | qwikride-backend/src/main/java/com/qwikride/prc/service/DisputeService.java:56-85 | a successful resolution writes one closed ticket, with its own id, at its own position, and issues no new ticket id |
| Disputes.ResolveIsFinal | qwikride-backend/src/main/java/com/qwikride/prc/service/DisputeService.java:52-54 | once resolved, resolving the same ticket again with any decision at any time changes nothing |
| Disputes.ForRider | qwikride-backend/src/main/java/com/qwikride/prc/repository/DisputeTicketRepository.java:10 | exactly the rider's tickets, each once, newest first |
| Disputes.OpenTickets | qwikride-backend/src/main/java/com/qwikride/prc/repository/DisputeTicketRepository.java:12 | exactly the OPEN tickets, each once, oldest first |
| Disputes.SubmittedTicketIsListed | qwikride-backend/src/main/java/com/qwikride/prc/service/DisputeService.java:88-100 | a submitted ticket shows in the rider's list and in the operators' queue |
| Disputes.ResolvedLeavesQueue | qwikride-backend/src/main/java/com/qwikride/prc/service/DisputeService.java:95-100 | a resolved ticket is no longer in the operators' queue |
| BillingAccess.AssertRiderScope | qwikride-backend/src/main/java/com/qwikride/prc/controller/BillingController.java:111-128 | no authentication is "Unauthenticated"; an operator, by an authority compared ignoring case, may act for anyone; anyone else only for their own id, an unknown username being "User not found"; every refusal is an access denial |
| BillingAccess.RequireLedgerAccess | qwikride-backend/src/main/java/com/qwikride/prc/controller/BillingController.java:130-135 | an unknown entry is "Ledger entry not found"; the entry is handed back exactly when it exists and the caller may act for its rider |
| BillingAccess.SettleEndpoint | qwikride-backend/src/main/java/com/qwikride/prc/controller/BillingController.java:64-74 | fails as the access check fails; without a rider parameter it settles for the entry's own rider; a missing body pays with "saved-default"; whatever succeeds is a settlement for the entry's rider |
| BillingAccess.SettleOnlyOwnEntries | qwikride-backend/src/main/java/com/qwikride/prc/controller/BillingController.java:69-73 | a settlement that goes through is for the entry's own rider, and a caller who is not an operator settles only their own entries |
| BillingAccess.MissingBodyMeansDefaultToken | qwikride-backend/src/main/java/com/qwikride/prc/controller/BillingController.java:72 | a missing body and a body without a token pay alike, with the saved default method |
| BillingAccess.HistoryEndpoint | qwikride-backend/src/main/java/com/qwikride/prc/controller/BillingController.java:44-55 | answers exactly when the caller may act for the rider, and then with the rider's history for the given bounds |
| BillingAccess.RidersSeeOnlyTheirOwnHistory | qwikride-backend/src/main/java/com/qwikride/prc/controller/BillingController.java:51-54 | a caller who is not an operator is shown only entries of their own |
| BillingAccess.SummaryEndpoint | qwikride-backend/src/main/java/com/qwikride/prc/controller/BillingController.java:57-62 | answers exactly when the caller may see the entry, and then with that entry's summary |
| BillingAccess.ExportFilter | qwikride-backend/src/main/java/com/qwikride/prc/controller/BillingController.java:92-95 | keeps exactly the entries that start no earlier than the start bound and end no later than the end bound, each bound applying only when given |
| BillingAccess.ExportLedger | qwikride-backend/src/main/java/com/qwikride/prc/controller/BillingController.java:87-101 | an export reads back, field by field, as the entries in the window ordered by start time |
| BillingAccess.ExportAndHistoryWindowsDiffer | qwikride-backend/src/main/java/com/qwikride/prc/controller/BillingController.java:93-94 | a trip that starts inside a window but ends after it is in the rider's history for that window and not in the export |
| BillingCsv.Quote | qwikride-backend/src/main/java/com/qwikride/prc/service/BillingDocumentService.java:100-103 | a quoted value starts with a double quote and is at least two characters long |
| BillingCsv.QuoteRoundTrip | qwikride-backend/src/main/java/com/qwikride/prc/service/BillingDocumentService.java:100-103 | a quoted text, followed by anything that does not start with a quote, reads back as exactly that text, whatever quotes it holds |
| BillingCsv.NullQuotesAsEmpty | qwikride-backend/src/main/java/com/qwikride/prc/service/BillingDocumentService.java:101 | null is written exactly like the empty text |
| BillingCsv.HalfUpCents | qwikride-backend/src/main/java/com/qwikride/prc/service/BillingDocumentService.java:105-107 | rounding to cents lands within half a cent of the amount, a half cent going away from zero |
| BillingCsv.CentsText | qwikride-backend/src/main/java/com/qwikride/prc/service/BillingDocumentService.java:106 | an amount's text has two digits after its decimal point |
| BillingCsv.CentsRoundTrip | qwikride-backend/src/main/java/com/qwikride/prc/service/BillingDocumentService.java:106 | every cent amount's text, negative ones included, reads back as that amount |
| BillingCsv.Amount | qwikride-backend/src/main/java/com/qwikride/prc/service/BillingDocumentService.java:105-107 | an amount reads back as the value rounded half-up to cents, and a null amount reads back as zero |
| BillingCsv.HalfCentRoundsAway | qwikride-backend/src/main/java/com/qwikride/prc/service/BillingDocumentService.java:106 | 0.005 is exported as "0.01" and -0.005 rounds to minus one cent |
| BillingCsv.RowFields | qwikride-backend/src/main/java/com/qwikride/prc/service/BillingDocumentService.java:86-94 | each line carries the eight fields of the header |
| BillingCsv.ReadFields | qwikride-backend/src/main/java/com/qwikride/prc/service/BillingDocumentService.java:86 | reading n fields gives exactly n fields and consumes input |
| BillingCsv.FieldsRoundTrip | qwikride-backend/src/main/java/com/qwikride/prc/service/BillingDocumentService.java:86-94 | a line of quoted fields joined by commas reads back as exactly those fields |
| BillingCsv.LinesRoundTrip | qwikride-backend/src/main/java/com/qwikride/prc/service/BillingDocumentService.java:95 | lines of eight fields joined by line feeds read back as exactly those lines |
| BillingCsv.BuildCsv | qwikride-backend/src/main/java/com/qwikride/prc/service/BillingDocumentService.java:82-98 | the document starts with the header and a line feed, and with no entries it is exactly that |
| BillingCsv.CsvRoundTrip | qwikride-backend/src/main/java/com/qwikride/prc/service/BillingDocumentService.java:82-98 | an export reads back, field by field, as the entries ordered by start time, whatever characters the values contain |
| Session.Mount | qwikride-frontend/src/context/AuthContext.jsx:5-6 | a fresh page starts with no user and loading, storage untouched |
| Session.Hydrate | qwikride-frontend/src/context/AuthContext.jsx:8-15 | loading always ends; the stored user is parsed and shown exactly when both a token and a user are stored non-empty, and otherwise the user is left as it was |
| Session.ReloadNeedsBoth | qwikride-frontend/src/context/AuthContext.jsx:8-15 | after a page load a user is signed in exactly when both keys hold a non-empty value, and storage is not touched |
| Session.Login | qwikride-frontend/src/context/AuthContext.jsx:17-21 | the token and the stringified user are stored under their keys, the user is set, and no other key changes |
| Session.LoginSurvivesReload | qwikride-frontend/src/context/AuthContext.jsx:8-21 | after a login with a non-empty token, a page load restores the same user |
| Session.Logout | qwikride-frontend/src/context/AuthContext.jsx:23-27 | both keys are gone and the user is null, and no other key changes |
| Session.LogoutIsIdempotent | qwikride-frontend/src/context/AuthContext.jsx:23-27 | logging out twice is logging out once, and a page load after a logout finds no user |
| Session.UpdateUser | qwikride-frontend/src/context/AuthContext.jsx:29-39 | the next user is the value or the function applied to the previous user; a non-null user is stored stringified, a null one removes the stored user, and the token is never touched |
| Session.UpdaterFunctionIsItsValue | qwikride-frontend/src/context/AuthContext.jsx:31 | a function updater behaves as the value it computes from the current user |
| Session.UpdateAcrossReload | qwikride-frontend/src/context/AuthContext.jsx:29-39 | with a token stored, the updated user survives a page load; updating to null keeps the token yet signs the user out at the next page load |
| PricingPage.PaymentStatusLabel | qwikride-frontend/src/pages/Pricing.jsx:53-66 | null shows "Unknown", a status without a label shows as itself, and each of the four known statuses shows a label different from its code |
| PricingPage.DisputeStatusLabel | qwikride-frontend/src/pages/Pricing.jsx:68-81 | null shows "Unknown", a status without a label shows as itself, and each of the four known statuses shows a label different from its code |
| PricingPage.BackendStatusesAreLabelled | qwikride-frontend/src/pages/Pricing.jsx:53-81 | every payment and dispute status the server sends gets a label of its own, and "Unknown" is shown only for null or the text "Unknown" |
| PricingPage.PendingCents | qwikride-frontend/src/pages/Pricing.jsx:83-86 | an empty history owes nothing |
| PricingPage.PendingMatchesFold | qwikride-frontend/src/pages/Pricing.jsx:87-90 | the balance is the sum, entry by entry, of the totals of the PENDING entries, a missing total counting as zero |
| PricingPage.NoPendingMeansZero | qwikride-frontend/src/pages/Pricing.jsx:88 | a history without a PENDING entry owes nothing |
| PricingPage.PayingRemovesItsTotal | qwikride-frontend/src/pages/Pricing.jsx:87-90 | once one PENDING entry is paid, the balance drops by exactly its total |
| PricingPage.NextSelection | qwikride-frontend/src/pages/Pricing.jsx:230-238 | an empty history selects nothing; otherwise the selection is a listed id, kept when it is truthy and still listed, and else the first entry's |
| PricingPage.SelectionIsStable | qwikride-frontend/src/pages/Pricing.jsx:230-238 | fetching the same history again keeps the selection |
| PricingPage.ActiveEntry | qwikride-frontend/src/pages/Pricing.jsx:382-387 | an entry is active exactly when the selection is truthy and listed, and then it is a listed entry with that id |
| PricingPage.RefetchLeavesAnActiveEntry | qwikride-frontend/src/pages/Pricing.jsx:230-238 | after a non-empty history whose ids are all truthy is fetched, some entry is active |
| PricingPage.SettleAndReceiptExclude | qwikride-frontend/src/pages/Pricing.jsx:389-392 | paying and downloading a receipt are never offered together, paying a payable entry makes its receipt available, and nothing is offered without an active entry |
| PricingPage.NormalizeDateTimeInput | qwikride-frontend/src/pages/Pricing.jsx:93-101 | an empty or missing input is null; otherwise the input is kept as a prefix of what is sent |
| PricingPage.ToDateTimeLocalInput | qwikride-frontend/src/pages/Pricing.jsx:103-108 | at most 16 characters, a prefix of the value, and the whole value when it is that short |
| PricingPage.DateInputRoundTrip | qwikride-frontend/src/pages/Pricing.jsx:93-108 | a 16-character input value survives being normalised and put back into the input |
| PricingPage.StoredTimeLosesSeconds | qwikride-frontend/src/pages/Pricing.jsx:93-108 | a stored time comes back with its seconds set to ":00", and is unchanged exactly when it was 19 characters ending in ":00" |
| PricingPage.ResolveDispute | qwikride-frontend/src/pages/Pricing.jsx:491-508 | a rejection is always sent; an approval is sent exactly when the draft amount is non-empty and a number above zero, and is otherwise blocked with the positive-amount message; only an approval carries the amount, and an empty note is sent as null |
| PricingPage.PageApprovalsPassTheAmountCheck | qwikride-frontend/src/pages/Pricing.jsx:493-499 | an approval the page lets through never meets the server's non-positive-amount rejection |
| PricingPage.TrimmedOrNull | qwikride-frontend/src/pages/Pricing.jsx:582-585 | null exactly for the empty text; any other text is sent trimmed, so a text of spaces only is sent as the empty text, and a non-empty result neither starts nor ends with whitespace |
| PricingPage.SubmitPlan | qwikride-frontend/src/pages/Pricing.jsx:556-587 | the name, base fee and per-minute rate are checked in that order and the first failure is shown, and a payload is sent exactly when all three pass; it carries the trimmed name, the fees as typed, a null surcharge exactly when it is empty, the city and description trimmed or null when empty, the tier and publish flag as set and the normalised dates |
| PricingPage.PayloadIsTrimmed | qwikride-frontend/src/pages/Pricing.jsx:577-585 | the sent name is non-empty and trimmed, city and description are trimmed, and a city of spaces only is sent as the empty text rather than null |
| PricingPage.EditedDatesKeepTheirMinute | qwikride-frontend/src/pages/Pricing.jsx:608-624 | a plan opened for editing and sent unchanged has its effective-from time cut to the minute with ":00" seconds |
| MapDashboard.StationColour | qwikride-frontend/src/pages/MapDashboard.jsx:63-68 | red exactly for an empty or exactly full station; otherwise, with a positive capacity, green exactly between 25% and 85% inclusive and yellow outside |
| MapDashboard.PercentageBounds | qwikride-frontend/src/pages/MapDashboard.jsx:65-66 | the percentage tests read as whole-number comparisons: below 25% is 4 x bikes < capacity, above 85% is 20 x bikes > 17 x capacity |
| MapDashboard.GreenIsOneBand | qwikride-frontend/src/pages/MapDashboard.jsx:63-68 | the green counts of a station form one band: a count between two green counts is green, bar the exactly full count |
| MapDashboard.MarkerPosition | qwikride-frontend/src/pages/MapDashboard.jsx:21-29 | a listed station name goes to its coordinates and any other name to the city centre |
| MapDashboard.UnknownStationsSitDowntown | qwikride-frontend/src/pages/MapDashboard.jsx:317 | every unlisted station is drawn on top of "Downtown Central" |
| MapDashboard.AddConsoleMessage | qwikride-frontend/src/pages/MapDashboard.jsx:101-104 | a message is added at the end with its text, kind and clock reading, and earlier messages are kept |
| MapDashboard.ClearConsole | qwikride-frontend/src/pages/MapDashboard.jsx:351 | clearing leaves no message |
| MapDashboard.ConsoleOnlyGrows | qwikride-frontend/src/pages/MapDashboard.jsx:101-104 | after any number of messages the console still starts with what it held, followed by the new texts in order |
| MapDashboard.FindStation | qwikride-frontend/src/pages/MapDashboard.jsx:125 | a found station is listed with that id, and none is found exactly when no listed station has it |
| MapDashboard.AvailableBikes | qwikride-frontend/src/pages/MapDashboard.jsx:157 | exactly the listed bikes that are AVAILABLE and docked at the station |
| MapDashboard.ReturnPrecheck | qwikride-frontend/src/pages/MapDashboard.jsx:123-152 | an unlisted station fails; an out-of-service station is reported first, then a full one; the return is sent exactly when the station is active with a free dock count other than zero |
| MapDashboard.ReservePrecheck | qwikride-frontend/src/pages/MapDashboard.jsx:154-179 | an unlisted station fails; out of service is reported first, then no available bike; the reservation of 15 minutes is sent exactly when the station is active and shows an available bike |
| MapDashboard.MovePrecheck | qwikride-frontend/src/pages/MapDashboard.jsx:181-213 | an unlisted destination fails; then no available bike at the source, no free dock at the destination, and the same station are reported in that order; the move is sent exactly when all three pass |
| MapDashboard.Toggled | qwikride-frontend/src/pages/MapDashboard.jsx:222 | the status asked for always differs from the current one |
| MapDashboard.TogglePrecheck | qwikride-frontend/src/pages/MapDashboard.jsx:219-229 | an unlisted station fails; otherwise the opposite status is asked for |
| MapDashboard.ToggleTwiceRestores | qwikride-frontend/src/pages/MapDashboard.jsx:219-229 | two toggles, the second from the state the first produced, give back the station as it was |
| MapDashboard.ShownStationFound | qwikride-frontend/src/pages/MapDashboard.jsx:125 | when the page shows the server's stations, a station the server holds is found with its server state |
| MapDashboard.PageAllowsAcceptedReturns | qwikride-frontend/src/pages/MapDashboard.jsx:129-135 | the return check never blocks a return the server would accept |
| MapDashboard.OverfullStationPassesReturnPrecheck | qwikride-frontend/src/pages/MapDashboard.jsx:126-129 | a station holding more bikes than its capacity passes the page's return check, and the server then refuses the return as full |
| MapDashboard.PageAllowsAcceptedReservations | qwikride-frontend/src/pages/MapDashboard.jsx:160-166 | the reserve check never blocks a reservation the server would accept |
| MapDashboard.MoveCheckOrder | qwikride-frontend/src/pages/MapDashboard.jsx:189-200 | a move from a full station to itself is reported as having no free dock, not as the same station |
| StationPanel.WithStatus | qwikride-frontend/src/components/StationDetailsPanel.jsx:20-23 | exactly the bikes with that status, one per occurrence |
| StationPanel.Split | qwikride-frontend/src/components/StationDetailsPanel.jsx:20-23 | each of the four lists holds exactly the bikes with its status |
| StationPanel.SplitCoversEveryBike | qwikride-frontend/src/components/StationDetailsPanel.jsx:20-23 | the four lists hold every bike exactly once between them |
| StationPanel.DockLayout | qwikride-frontend/src/components/StationDetailsPanel.jsx:43-62 | the grid has as many docks as the larger of the bike count and the capacity |
| StationPanel.RenderDockGrid | qwikride-frontend/src/components/StationDetailsPanel.jsx:43-62 | one occupied dock per bike in order, then empty docks numbered on up to the capacity, and never fewer docks than bikes |
| StationPanel.EmptyDocksAreFreeDocks | qwikride-frontend/src/components/StationDetailsPanel.jsx:25-62 | when the count matches the bikes shown and fits the capacity, the grid shows exactly the free docks as empty; an over-full station shows none |
| StationPanel.DockedAt | qwikride-frontend/src/pages/MapDashboard.jsx:360 | exactly the page's bikes docked at the station |
| StationPanel.ButtonsMatchPageChecks | qwikride-frontend/src/components/StationDetailsPanel.jsx:224-235 | when the panel shows the page's current copy of the station, the reserve and return buttons are enabled exactly when the map page's checks would send the request |
| StationPanel.SnapshotButtonsMatchPageChecks | qwikride-frontend/src/pages/MapDashboard.jsx:106-107 | the panel keeps the station snapshot taken at the marker click; each button agrees with the page's check exactly when that snapshot and the page's current copy agree on disabling it, and for a station no longer listed exactly when the button is disabled |
| StationPanel.StaleSnapshotOffersRefusedReturn | qwikride-frontend/src/pages/MapDashboard.jsx:91 | after the station list reloads with the snapshot's station now full, the panel still enables "Return Bike Here" while the page answers that the station is full |
| StationPanel.ReturnTarget | qwikride-frontend/src/components/StationDetailsPanel.jsx:232-233 | the first bike in use among those shown, and none exactly when no shown bike is in use |
| StationPanel.ReturnOnlyFromOrigin | qwikride-frontend/src/components/StationDetailsPanel.jsx:230-234 | the return button only hands back a bike in use that still names this station, not necessarily the rider's own |
| StationPanel.MoveClickOn | qwikride-frontend/src/components/StationDetailsPanel.jsx:28-31 | the row's Move button opens the dialog on that bike and keeps the destination chosen before |
| StationPanel.MoveClick | qwikride-frontend/src/components/StationDetailsPanel.jsx:252-257 | the header button does what the row button does for the first available bike, and nothing when there is none; the dialog is then open exactly when it was or a bike is available |
| StationPanel.MoveConfirm | qwikride-frontend/src/components/StationDetailsPanel.jsx:33-40 | sends the move exactly when a bike and a destination are chosen, and then resets the dialog; otherwise nothing changes |
| StationPanel.DestinationChoices | qwikride-frontend/src/components/StationDetailsPanel.jsx:356-357 | exactly the listed stations other than this one |
| StationPanel.ConfirmedMoveIsNeverToItself | qwikride-frontend/src/components/StationDetailsPanel.jsx:33-40 | a move confirmed with an offered destination never meets the map page's same-station check |
| RideHistoryPage.JsRemainder60 | qwikride-frontend/src/pages/RideHistory.jsx:108 | the remainder of a non-negative duration lies in [0, 60) |
| RideHistoryPage.FormatDuration | qwikride-frontend/src/pages/RideHistory.jsx:105-113 | a missing or zero duration is "N/A", and any other duration text ends in "m" |
| RideHistoryPage.FlooredParts | qwikride-frontend/src/pages/RideHistory.jsx:107-109 | the floored hours and minutes of a positive duration make up its whole minutes, with minutes below 60 and hours shown exactly from 60 minutes |
| RideHistoryPage.DurationReadsBack | qwikride-frontend/src/pages/RideHistory.jsx:105-113 | the text of a positive duration reads back as its whole (floored) number of minutes |
| RideHistoryPage.StartFetch | qwikride-frontend/src/pages/RideHistory.jsx:34-45 | nothing is requested exactly when the user id is missing or zero, and then "User not found. Please log in again." shows and loading stops; otherwise the error clears, loading starts and the user's history is requested with the filters |
| RideHistoryPage.ErrorMessage | qwikride-frontend/src/pages/RideHistory.jsx:50-59 | 403 is access denied, 404 is no history, a refused connection or a "Failed to fetch" message is the server being unreachable exactly when neither status applies |
| RideHistoryPage.FetchFailed | qwikride-frontend/src/pages/RideHistory.jsx:48-63 | a failure shows its message, empties the list and stops loading |
| RideHistoryPage.FetchSucceeded | qwikride-frontend/src/pages/RideHistory.jsx:47 | a success shows the rides, or none for an empty body, and stops loading |
| RideHistoryPage.FailuresNeverShowRides | qwikride-frontend/src/pages/RideHistory.jsx:48-63 | every failure leaves one of the four messages on screen and no rides |
| RideHistoryPage.ChangeFilter | qwikride-frontend/src/pages/RideHistory.jsx:78-81 | the named filter takes the value and the others are kept; an unknown name changes none of the four |
| RideHistoryPage.ClearFilters | qwikride-frontend/src/pages/RideHistory.jsx:87-94 | all four filters become empty |
| RideHistoryPage.ClearForgetsChanges | qwikride-frontend/src/pages/RideHistory.jsx:78-94 | whatever was typed before, clearing gives the same filters as a fresh page |

## Left out

- HTTP plumbing: request mapping, Spring Security filters, `JwtUtil` and `@PreAuthorize`. An endpoint is modelled from the authenticated principal on.
- Logging, the logging subscribers of the event bus, and `DataSeeder` with its seed data.
- The PDF receipt (`buildReceipt`) and every other external output. Only the CSV text is modelled.
- The gateway's processing sleep. Its 5% random failure and its random UUID are the `Payments.Draw` parameter.
- The random trip duration and distance the frontend draws before a return. They arrive as parameters.
- The `double` fare formula of `returnBike`, which is supplied as the parameter `cost`. Ride-history records take it as given.
- Floating-point arithmetic in general. Backend amounts are exact reals, and averages are exact quotients.
- The pricing page's 0.005 tolerance for a pending balance. Cents are whole numbers in the model, so no tolerance is needed.
- Occupancy percentages shown with `toFixed`, `Intl`/`toLocaleString` money and date formatting, `date-fns`, and `formatDate`.
- The Discount, Cap and Tax handlers, whose bodies are empty in the source. They are modelled as steps that change nothing.
- `MembershipService`: a rider's membership status is an input of plan selection.
- The frontend's network wrappers, loading spinners, and the success messages shown after a request.
- The ride-history page's statistics fetch.
- Asynchronous behaviour: promise ordering, the `isCancelled` guard of the pricing page's effects, and transaction isolation between concurrent requests.
- `JSON.parse` of a corrupt stored user. `AuthContext.jsx` does not guard it, so the page fails to load, and no recovery path exists to model.
- `BigDecimal` scale. The summary's total is `BigDecimal.toString()` through `%s` of `String.format`, which can print scientific notation; that text is a parameter. The CSV's `setScale(2, HALF_UP)` is modelled exactly.
- `Double.toString` of distances and durations in charge metadata, and the date formatters. They are parameters.
- The order among ledger entries with equal start times after a sort. Only the order by key is stated.
- RideHistory.QueryRides: among rows with equal sort keys the database's order is unspecified; the model fixes one (insertion order) and promises only the order by key. Nested property paths such as `a.b` are not resolved: a name with a dot is an unknown property. The `UUID` bike id is an integer key, so a sort by bike id does not follow the database's UUID byte order. Text is compared character by character (C collation), not by a locale collation.
- RideHistory.GetRideStatistics: when several stations or bike types share the maximal count, the source returns whichever `HashMap` iteration meets first; the model returns one of them and promises only that its count is maximal.
- StationPanel.ButtonsMatchPageChecks: stated for the page's current copy of the station. The page hands the panel the snapshot taken when the marker was clicked and does not refresh it after `loadData` reloads the stations, so after a reservation, return or move the panel's buttons can disagree with the page's checks. `StationPanel.SnapshotButtonsMatchPageChecks` states exactly when they still agree.
- RideFilters.CreatePageable: the sort direction is compared with "ASC" by ASCII case folding only. Java's `equalsIgnoreCase` also folds other characters, so a direction such as "a\u017Fc" (with the long s) sorts ascending in the source and descending here. `Introspector.decapitalize` likewise lower-cases only an ASCII first letter here.
- Case mapping beyond ASCII in the case-insensitive comparisons of tokens and authorities.
- The id-only `Bike` constructors.
- The saturation of the `(long)` cast of a minute count.
- Map iteration order of charge metadata. A metadata map is the sequence of its entries in insertion order.
- The scale-2 rounding of the pending balance when it is stored. The balance is an exact real.
- Database constraints on registration fields that the source leaves null.
- Multiple violated columns: when a ledger entry breaks several length constraints, only the first is reported. String lengths are counted in characters, not bytes.
- `DisputeTicketRequest` with a null `ledgerEntryId`: the entry id is a plain number.
- `getRideHistoryById` and the plain getters and setters of the entities.
- `login` with a null `userData` on the frontend.
- Station keys that collide with `Object.prototype` names in `STATION_COORDINATES`.
- MapDashboard.StationColour: the colour bands use exact rational comparisons, not the floating-point quotient of the source, which can differ at a band boundary.
- MapDashboard.MovePrecheck: the destination is the already parsed station id. `parseInt` of the select's value is not modelled.
- RideHistoryPage.FormatDuration: NaN and negative durations are outside the model. A present duration is a real number.
- PricingPage.ResolveDispute: `Number(text)` is a parameter yielding only real numbers or NaN, so the code's acceptance of "Infinity" is not represented.
- PricingEngine.EstimateMatchesChain: stated only for plans whose rates are non-negative and trips of at least a minute. A handler adds no line for a non-positive rate, so a negative rate makes the chain and the catalogue estimate differ. The source does not validate rates.
- PricingEngine.PriceIsSelectedPlanEstimate: carries the same non-negative-rates premise.
- PricingEngine.TripBilledAtRoundedMinutes: carries the same non-negative-rates premise.

## Findings

| source | as written | input that shows it | evidently intended | confidence | as-written member | corrected member |
|---|---|---|---|---|---|---|
| qwikride-backend/src/main/java/com/qwikride/service/BikeService.java:190-203 | `processExpiredReservations` calls `cancelReservation()` first and only then builds `ReservationExpiredEvent(bike.getId(), bike.getReservedByUserId())`; the reservation fields are already cleared, so the event always carries a null rider | bike 1 reserved by rider 7, expiring at second 600, processed at second 601: the event names no rider | the event names the rider whose reservation expired (7) | not executed | BikeService.ExpiryEventAsWritten, BikeService.ExpiryEventAsWrittenLosesRider | BikeService.ExpiryEvent, BikeService.ProcessExpiredReservations |
