/** Domain events and the in-process `EventBus` (an observer list). */
module Events {
  import opened Wrappers
  import opened Bikes

  /** The events the bike service publishes. The base class's random event
      id and timestamp are not modelled. Durations, distances and costs are
      the `double` values the publisher passed. */
  datatype DomainEvent =
    | TripStarted(bikeId: BikeId, userId: UserId, stationId: Option<StationId>)
    | TripEnded(bikeId: BikeId, userId: UserId, returnStationId: StationId,
                durationMinutes: real, distanceKm: real, cost: real)
    | BikeMoved(bikeId: BikeId, oldStationId: Option<StationId>, newStationId: StationId, operatorId: UserId)
    | BikeReserved(bikeId: BikeId, userId: UserId, reservedAtStation: StationId)
    | ReservationExpired(bikeId: BikeId, expiredUserId: Option<UserId>)

  /** The bus: its subscribers in the order they subscribed. */
  datatype EventBus<S> = EventBus(subscribers: seq<S>)

  /** `subscribe(s)`: `s` is added after every earlier subscriber. */
  function Subscribe<S>(bus: EventBus<S>, s: S): (r: EventBus<S>)
    ensures |r.subscribers| == |bus.subscribers| + 1
    ensures r.subscribers[..|bus.subscribers|] == bus.subscribers
    ensures r.subscribers[|bus.subscribers|] == s
  {
    EventBus(bus.subscribers + [s])
  }

  /** The `onEvent` calls `publish(e)` makes, in order: one per subscription. */
  function Deliveries<S>(bus: EventBus<S>, e: DomainEvent): (r: seq<(S, DomainEvent)>)
    ensures |r| == |bus.subscribers|
    ensures forall i :: 0 <= i < |r| ==> r[i] == (bus.subscribers[i], e)
  {
    seq(|bus.subscribers|, i requires 0 <= i < |bus.subscribers| => (bus.subscribers[i], e))
  }

  /** `publish(e)`: each subscriber's `onEvent` runs in subscription order,
      each one seeing the state the previous ones left. `onEvent(s, e, st)` is
      what subscriber `s` does to the state `st`. */
  function Publish<S, St>(subscribers: seq<S>, e: DomainEvent, onEvent: (S, DomainEvent, St) -> St, st: St): (r: St)
    ensures r == Run(Deliveries(EventBus(subscribers), e), onEvent, st)
  {
    if |subscribers| == 0 then st
    else
      var earlier := subscribers[..|subscribers| - 1];
      var last := subscribers[|subscribers| - 1];
      DeliveriesOfLast(subscribers, e);
      RunLast(Deliveries(EventBus(earlier), e), (last, e), onEvent, st);
      onEvent(last, e, Publish(earlier, e, onEvent, st))
  }

  /** The reference reading of a delivery list: the calls run front to back,
      each on the state the previous one left. */
  function Run<S, St>(calls: seq<(S, DomainEvent)>, onEvent: (S, DomainEvent, St) -> St, st: St): St
    decreases |calls|
  {
    if |calls| == 0 then st else Run(calls[1..], onEvent, onEvent(calls[0].0, calls[0].1, st))
  }

  /** Running one more call at the end applies it to what the others left. */
  lemma {:induction false} RunLast<S, St>(calls: seq<(S, DomainEvent)>, c: (S, DomainEvent),
                                          onEvent: (S, DomainEvent, St) -> St, st: St)
    ensures Run(calls + [c], onEvent, st) == onEvent(c.0, c.1, Run(calls, onEvent, st))
    decreases |calls|
  {
    if |calls| == 0 {
      assert calls + [c] == [c];
    } else {
      assert (calls + [c])[1..] == calls[1..] + [c];
      RunLast(calls[1..], c, onEvent, onEvent(calls[0].0, calls[0].1, st));
    }
  }

  /** The last subscriber's delivery comes after those of the others. */
  lemma DeliveriesOfLast<S>(subscribers: seq<S>, e: DomainEvent)
    requires |subscribers| > 0
    ensures Deliveries(EventBus(subscribers), e)
            == Deliveries(EventBus(subscribers[..|subscribers| - 1]), e) + [(subscribers[|subscribers| - 1], e)]
  {
  }

  /** Publishing to a bus with no subscribers does nothing. */
  lemma PublishToNobody<S, St>(e: DomainEvent, onEvent: (S, DomainEvent, St) -> St, st: St)
    ensures Publish([], e, onEvent, st) == st
  {
  }

  /** A new subscriber sees each event after all earlier subscribers have handled it. */
  lemma PublishAfterSubscribe<S, St>(bus: EventBus<S>, s: S, e: DomainEvent, onEvent: (S, DomainEvent, St) -> St, st: St)
    ensures Publish(Subscribe(bus, s).subscribers, e, onEvent, st)
            == onEvent(s, e, Publish(bus.subscribers, e, onEvent, st))
  {
    assert Subscribe(bus, s).subscribers[..|bus.subscribers|] == bus.subscribers;
  }

  /** Delivery is sequential: the first group of subscribers runs to completion before the second. */
  lemma {:induction false} PublishSplit<S, St>(a: seq<S>, b: seq<S>, e: DomainEvent, onEvent: (S, DomainEvent, St) -> St, st: St)
    ensures Publish(a + b, e, onEvent, st) == Publish(b, e, onEvent, Publish(a, e, onEvent, st))
    decreases |b|
  {
    if |b| == 0 {
      assert a + b == a;
    } else {
      assert (a + b)[..|a + b| - 1] == a + b[..|b| - 1];
      PublishSplit(a, b[..|b| - 1], e, onEvent, st);
    }
  }

  /** A subscriber that ignores an event cannot change what the others do with it. */
  lemma {:induction false} IgnoringSubscribersAreTransparent<S, St>(subscribers: seq<S>, quiet: S, e: DomainEvent,
                                                                     onEvent: (S, DomainEvent, St) -> St, st: St)
    requires forall x :: onEvent(quiet, e, x) == x
    ensures Publish(subscribers + [quiet], e, onEvent, st) == Publish(subscribers, e, onEvent, st)
  {
    assert (subscribers + [quiet])[..|subscribers|] == subscribers;
  }
}
