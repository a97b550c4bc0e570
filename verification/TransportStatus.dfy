/** The transport-order state machine of src/tms/service.py, with the tracking events that also
    write the delivery time. */
module TransportStatus {
  import opened Common

  datatype Status = DRAFT | DISPATCHED | PICKUP_COMPLETED | IN_TRANSIT | OUT_FOR_DELIVERY | DELIVERED | EXCEPTION | CANCELLED

  type Time = int

  function Allowed(s: Status): set<Status> {
    match s
    case DRAFT => {DISPATCHED, IN_TRANSIT, CANCELLED}
    case DISPATCHED => {PICKUP_COMPLETED, IN_TRANSIT, CANCELLED}
    case PICKUP_COMPLETED => {IN_TRANSIT, EXCEPTION}
    case IN_TRANSIT => {OUT_FOR_DELIVERY, EXCEPTION}
    case OUT_FOR_DELIVERY => {DELIVERED, EXCEPTION}
    case DELIVERED => {}
    case EXCEPTION => {DISPATCHED, DELIVERED, CANCELLED}
    case CANCELLED => {}
  }

  /** The accepted changes, pair by pair. */
  const MOVES: set<(Status, Status)> := {
    (DRAFT, DISPATCHED), (DRAFT, IN_TRANSIT), (DRAFT, CANCELLED),
    (DISPATCHED, PICKUP_COMPLETED), (DISPATCHED, IN_TRANSIT), (DISPATCHED, CANCELLED),
    (PICKUP_COMPLETED, IN_TRANSIT), (PICKUP_COMPLETED, EXCEPTION),
    (IN_TRANSIT, OUT_FOR_DELIVERY), (IN_TRANSIT, EXCEPTION),
    (OUT_FOR_DELIVERY, DELIVERED), (OUT_FOR_DELIVERY, EXCEPTION),
    (EXCEPTION, DISPATCHED), (EXCEPTION, DELIVERED), (EXCEPTION, CANCELLED)
  }

  datatype Order = Order(status: Status, pickup: Option<Time>, delivery: Option<Time>)

  /** A request to change the status, or a tracking event, which may be of type "delivered". */
  datatype Event = Change(target: Status, now: Time) | Tracked(delivered: bool, now: Time)

  function Step(o: Order, e: Event): Order {
    match e
    case Change(target, now) =>
      if target !in Allowed(o.status) then o
      else if target == IN_TRANSIT && o.pickup.None? then o.(status := target, pickup := Some(now))
      else if target == DELIVERED then o.(status := target, delivery := Some(now))
      else o.(status := target)
    case Tracked(delivered, now) =>
      if delivered && o.delivery.None? then o.(delivery := Some(now)) else o
  }

  class TransportOrder {
    var status: Status
    var actualPickupTime: Option<Time>
    var actualDeliveryTime: Option<Time>
    var updatedAt: Time

    constructor (now: Time)
      ensures State() == Order(DRAFT, None, None)
    {
      status, actualPickupTime, actualDeliveryTime, updatedAt := DRAFT, None, None, now;
    }

    function State(): Order
      reads this
    {
      Order(status, actualPickupTime, actualDeliveryTime)
    }

    method ChangeTransportStatus(target: Status, now: Time) returns (r: Result<(), ServiceError>)
      modifies this
      ensures r.Ok? <==> (old(status), target) in MOVES
      ensures r.Err? ==> r.error == Validation && State() == old(State()) && updatedAt == old(updatedAt)
      ensures r.Ok? ==> status == target && updatedAt == now
      ensures r.Ok? ==> actualPickupTime == if target == IN_TRANSIT && old(actualPickupTime).None? then Some(now) else old(actualPickupTime)
      ensures r.Ok? ==> actualDeliveryTime == if target == DELIVERED then Some(now) else old(actualDeliveryTime)
      ensures State() == Step(old(State()), Change(target, now))
    {
      if target !in Allowed(status) {
        return Err(Validation);
      }
      status := target;
      updatedAt := now;
      if target == IN_TRANSIT && actualPickupTime.None? {
        actualPickupTime := Some(now);
      } else if target == DELIVERED {
        actualDeliveryTime := Some(now);
      }
      r := Ok(());
    }

    method CreateTrackingEvent(isDelivered: bool, now: Time)
      modifies this
      ensures status == old(status) && actualPickupTime == old(actualPickupTime) && updatedAt == old(updatedAt)
      ensures actualDeliveryTime == if isDelivered && old(actualDeliveryTime).None? then Some(now) else old(actualDeliveryTime)
      ensures State() == Step(old(State()), Tracked(isDelivered, now))
    {
      if isDelivered && actualDeliveryTime.None? {
        actualDeliveryTime := Some(now);
      }
    }
  }

  // ---- Whole runs ---------------------------------------------------------------------

  function Run(events: seq<Event>): Order {
    if events == [] then Order(DRAFT, None, None)
    else Step(Run(events[..|events| - 1]), events[|events| - 1])
  }

  /** The clock never runs backwards. */
  ghost predicate Monotone(events: seq<Event>) {
    forall i, j | 0 <= i < j < |events| :: events[i].now <= events[j].now
  }

  ghost predicate TimesOk(o: Order, now: Time) {
    (o.status in {IN_TRANSIT, OUT_FOR_DELIVERY} ==> o.pickup.Some?) &&
    (o.status == DELIVERED ==> o.delivery.Some? && (o.pickup.Some? ==> o.pickup.value <= o.delivery.value)) &&
    (o.pickup.Some? ==> o.pickup.value <= now)
  }

  /** Over every run with a monotone clock: a shipment on its way has a pickup time, and a delivered
      one a delivery time not before its pickup time. */
  lemma {:induction false} TimesAreConsistent(events: seq<Event>, now: Time)
    requires Monotone(events) && forall i | 0 <= i < |events| :: events[i].now <= now
    ensures TimesOk(Run(events), now)
  {
    if events != [] {
      var n := |events| - 1;
      TimesAreConsistent(events[..n], events[n].now);
    }
  }

  /** Once set, the pickup time never changes; a delivered or cancelled order stays as it is. */
  lemma {:induction false} SettledForever(events: seq<Event>, n: nat)
    requires n <= |events|
    ensures Run(events[..n]).pickup.Some? ==> Run(events).pickup == Run(events[..n]).pickup
    ensures Run(events[..n]).status in {DELIVERED, CANCELLED} ==> Run(events).status == Run(events[..n]).status
    ensures Run(events[..n]).status == DELIVERED && Run(events[..n]).delivery.Some? ==>
              Run(events).delivery == Run(events[..n]).delivery
  {
    if n < |events| {
      SettledForever(events[..|events| - 1], n);
      assert events[..|events| - 1][..n] == events[..n];
    } else {
      assert events[..n] == events;
    }
  }

  /** Accepted status changes, and those among them that enter EXCEPTION. */
  function Transitions(events: seq<Event>): nat {
    if events == [] then 0
    else
      var before, e := events[..|events| - 1], events[|events| - 1];
      Transitions(before) + (if e.Change? && e.target in Allowed(Run(before).status) then 1 else 0)
  }

  function Exceptions(events: seq<Event>): nat {
    if events == [] then 0
    else
      var before, e := events[..|events| - 1], events[|events| - 1];
      Exceptions(before) + (if e.Change? && e.target == EXCEPTION && EXCEPTION in Allowed(Run(before).status) then 1 else 0)
  }

  /** How far an order has come since it was last drafted or put right. */
  function Progress(s: Status): nat {
    match s
    case DRAFT => 0
    case EXCEPTION => 0
    case DISPATCHED => 1
    case PICKUP_COMPLETED => 2
    case IN_TRANSIT => 3
    case OUT_FOR_DELIVERY => 4
    case DELIVERED => 5
    case CANCELLED => 5
  }

  /** A run that enters EXCEPTION k times makes at most 5(k + 1) transitions: the only cycles of the
      machine go through EXCEPTION. */
  lemma {:induction false} TransitionsBounded(events: seq<Event>)
    ensures Transitions(events) <= 5 * Exceptions(events) + Progress(Run(events).status)
    ensures Transitions(events) <= 5 * (Exceptions(events) + 1)
  {
    if events != [] {
      TransitionsBounded(events[..|events| - 1]);
    }
  }

  /** One full turn: from an order just drafted or put right to its delivery or next exception. */
  function Turn(last: Status): seq<Event> {
    [Change(DISPATCHED, 0), Change(PICKUP_COMPLETED, 0), Change(IN_TRANSIT, 0), Change(OUT_FOR_DELIVERY, 0), Change(last, 0)]
  }

  function Turns(k: nat): seq<Event> {
    if k == 0 then [] else Turns(k - 1) + Turn(EXCEPTION)
  }

  lemma StepCounts(events: seq<Event>, e: Event)
    ensures Run(events + [e]) == Step(Run(events), e)
    ensures Transitions(events + [e]) == Transitions(events) + (if e.Change? && e.target in Allowed(Run(events).status) then 1 else 0)
    ensures Exceptions(events + [e]) ==
            Exceptions(events) + (if e.Change? && e.target == EXCEPTION && EXCEPTION in Allowed(Run(events).status) then 1 else 0)
  {
    assert (events + [e])[..|events|] == events;
  }

  lemma OneStep(events: seq<Event>, target: Status)
    requires target in Allowed(Run(events).status)
    ensures var all := events + [Change(target, 0)];
            Run(all).status == target && Transitions(all) == Transitions(events) + 1 &&
            Exceptions(all) == Exceptions(events) + (if target == EXCEPTION then 1 else 0)
  {
    StepCounts(events, Change(target, 0));
  }

  lemma FiveSteps(events: seq<Event>, last: Status)
    requires Run(events).status in {DRAFT, EXCEPTION} && last in {DELIVERED, EXCEPTION}
    ensures var all := events + Turn(last);
            Run(all).status == last && Transitions(all) == Transitions(events) + 5 &&
            Exceptions(all) == Exceptions(events) + (if last == EXCEPTION then 1 else 0)
  {
    var e1 := events + [Change(DISPATCHED, 0)];
    var e2 := e1 + [Change(PICKUP_COMPLETED, 0)];
    var e3 := e2 + [Change(IN_TRANSIT, 0)];
    var e4 := e3 + [Change(OUT_FOR_DELIVERY, 0)];
    OneStep(events, DISPATCHED);
    OneStep(e1, PICKUP_COMPLETED);
    OneStep(e2, IN_TRANSIT);
    OneStep(e3, OUT_FOR_DELIVERY);
    OneStep(e4, last);
    assert e4 + [Change(last, 0)] == events + Turn(last);
  }

  lemma {:induction false} TurnsCount(k: nat)
    ensures Run(Turns(k)).status == if k == 0 then DRAFT else EXCEPTION
    ensures Transitions(Turns(k)) == 5 * k && Exceptions(Turns(k)) == k
  {
    if k > 0 {
      TurnsCount(k - 1);
      FiveSteps(Turns(k - 1), EXCEPTION);
    }
  }

  /** The bound is attained for every number of exceptions. */
  lemma BoundIsTight(k: nat) returns (events: seq<Event>)
    ensures Exceptions(events) == k && Transitions(events) == 5 * (k + 1) && Run(events).status == DELIVERED
  {
    TurnsCount(k);
    FiveSteps(Turns(k), DELIVERED);
    events := Turns(k) + Turn(DELIVERED);
  }

  // ---- When the two times contradict each other ------------------------------------------

  /** The time of the first "delivered" tracking event. */
  function FirstTracked(events: seq<Event>): Option<Time> {
    if events == [] then None
    else
      var before, e := FirstTracked(events[..|events| - 1]), events[|events| - 1];
      if before.None? && e.Tracked? && e.delivered then Some(e.now) else before
  }

  /** The time of the first accepted change to IN_TRANSIT. */
  function FirstTransit(events: seq<Event>): Option<Time> {
    if events == [] then None
    else
      var before, e := events[..|events| - 1], events[|events| - 1];
      if FirstTransit(before).None? && e.Change? && e.target == IN_TRANSIT && IN_TRANSIT in Allowed(Run(before).status)
      then Some(e.now) else FirstTransit(before)
  }

  lemma {:induction false} TimesComeFrom(events: seq<Event>)
    ensures Run(events).pickup == FirstTransit(events)
    ensures Run(events).status != DELIVERED ==> Run(events).delivery == FirstTracked(events)
  {
    if events != [] {
      TimesComeFrom(events[..|events| - 1]);
    }
  }

  ghost predicate DeliveredBeforePickup(o: Order) {
    o.delivery.Some? && o.pickup.Some? && o.delivery.value < o.pickup.value
  }

  /** Over every run with a monotone clock, an order shows a delivery before its pickup if and only
      if it is not DELIVERED and was reported delivered before it first went into transit. */
  lemma DeliveredBeforePickupIff(events: seq<Event>)
    requires Monotone(events)
    ensures DeliveredBeforePickup(Run(events)) <==>
            Run(events).status != DELIVERED && FirstTracked(events).Some? && FirstTransit(events).Some? &&
            FirstTracked(events).value < FirstTransit(events).value
  {
    TimesComeFrom(events);
    TimesAreConsistent(events, if events == [] then 0 else events[|events| - 1].now);
  }

  /** Such an order exists: tracked as delivered at 1, in transit from 2. */
  lemma TrackingCanPrecedePickup()
    ensures var events := [Tracked(true, 1), Change(IN_TRANSIT, 2)];
            Monotone(events) && Run(events) == Order(IN_TRANSIT, Some(2), Some(1)) && DeliveredBeforePickup(Run(events))
  {
    var first: Event := Tracked(true, 1);
    assert [first, Change(IN_TRANSIT, 2)][..1] == [first] && [first][..0] == [];
    assert Run([first]) == Order(DRAFT, None, Some(1));
  }
}
