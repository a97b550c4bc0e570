/** The transport-segment state machine of src/tms/service.py. */
module SegmentStatus {
  import opened Common

  datatype Status =
    DRAFT | DISPATCHED | PICKUP | IN_TRANSIT | TRANSIT_HUB_ARRIVED | SORTING_CENTER | OUT_FOR_DELIVERY | COMPLETED | EXCEPTION | CANCELLED

  type Time = int

  function Allowed(s: Status): set<Status> {
    match s
    case DRAFT => {DISPATCHED, CANCELLED}
    case DISPATCHED => {PICKUP, CANCELLED}
    case PICKUP => {IN_TRANSIT, EXCEPTION}
    case IN_TRANSIT => {TRANSIT_HUB_ARRIVED, OUT_FOR_DELIVERY, EXCEPTION}
    case TRANSIT_HUB_ARRIVED => {SORTING_CENTER, IN_TRANSIT, EXCEPTION}
    case SORTING_CENTER => {IN_TRANSIT, EXCEPTION}
    case OUT_FOR_DELIVERY => {COMPLETED, EXCEPTION}
    case COMPLETED => {}
    case EXCEPTION => {CANCELLED}
    case CANCELLED => {}
  }

  /** The accepted changes, pair by pair. */
  const MOVES: set<(Status, Status)> := {
    (DRAFT, DISPATCHED), (DRAFT, CANCELLED), (DISPATCHED, PICKUP), (DISPATCHED, CANCELLED), (PICKUP, IN_TRANSIT), (PICKUP, EXCEPTION),
    (IN_TRANSIT, TRANSIT_HUB_ARRIVED), (IN_TRANSIT, OUT_FOR_DELIVERY), (IN_TRANSIT, EXCEPTION),
    (TRANSIT_HUB_ARRIVED, SORTING_CENTER), (TRANSIT_HUB_ARRIVED, IN_TRANSIT), (TRANSIT_HUB_ARRIVED, EXCEPTION),
    (SORTING_CENTER, IN_TRANSIT), (SORTING_CENTER, EXCEPTION),
    (OUT_FOR_DELIVERY, COMPLETED), (OUT_FOR_DELIVERY, EXCEPTION), (EXCEPTION, CANCELLED)
  }

  datatype Segment = Segment(status: Status, departure: Option<Time>, arrival: Option<Time>)

  datatype Request = Request(target: Status, now: Time)

  function Step(s: Segment, r: Request): Segment {
    if r.target !in Allowed(s.status) then s
    else if r.target == DISPATCHED then s.(status := r.target, departure := Some(r.now))
    else if r.target == COMPLETED then s.(status := r.target, arrival := Some(r.now))
    else s.(status := r.target)
  }

  class TransportSegment {
    var status: Status
    var actualDepartureTime: Option<Time>
    var actualArrivalTime: Option<Time>

    constructor ()
      ensures State() == Segment(DRAFT, None, None)
    {
      status, actualDepartureTime, actualArrivalTime := DRAFT, None, None;
    }

    function State(): Segment
      reads this
    {
      Segment(status, actualDepartureTime, actualArrivalTime)
    }

    method UpdateSegmentStatus(target: Status, now: Time) returns (r: Result<(), ServiceError>)
      modifies this
      ensures r.Ok? <==> (old(status), target) in MOVES
      ensures r.Err? ==> r.error == Validation && State() == old(State())
      ensures r.Ok? ==> status == target
      ensures r.Ok? ==> actualDepartureTime == if target == DISPATCHED then Some(now) else old(actualDepartureTime)
      ensures r.Ok? ==> actualArrivalTime == if target == COMPLETED then Some(now) else old(actualArrivalTime)
      ensures State() == Step(old(State()), Request(target, now))
    {
      if target !in Allowed(status) {
        return Err(Validation);
      }
      status := target;
      if target == DISPATCHED {
        actualDepartureTime := Some(now);
      } else if target == COMPLETED {
        actualArrivalTime := Some(now);
      }
      r := Ok(());
    }
  }

  function Run(rs: seq<Request>): Segment {
    if rs == [] then Segment(DRAFT, None, None) else Step(Run(rs[..|rs| - 1]), rs[|rs| - 1])
  }

  /** The statuses a run goes through, the first one included. */
  function Visited(rs: seq<Request>): seq<Status> {
    if rs == [] then [DRAFT] else Visited(rs[..|rs| - 1]) + [Run(rs).status]
  }

  ghost predicate Monotone(rs: seq<Request>) {
    forall i, j | 0 <= i < j < |rs| :: rs[i].now <= rs[j].now
  }

  ghost predicate HistoryOk(s: Segment, visited: seq<Status>, now: Time) {
    (EXCEPTION in visited ==> s.status in {EXCEPTION, CANCELLED}) &&
    (s.status !in {DRAFT, CANCELLED} ==> DISPATCHED in visited && s.departure.Some?) &&
    (s.departure.Some? ==> s.departure.value <= now) &&
    (s.status == COMPLETED ==> s.departure.Some? && s.arrival.Some? && s.departure.value <= s.arrival.value)
  }

  lemma {:induction false} HistoryIsOk(rs: seq<Request>, now: Time)
    requires Monotone(rs) && forall i | 0 <= i < |rs| :: rs[i].now <= now
    ensures HistoryOk(Run(rs), Visited(rs), now) && Run(rs).status in Visited(rs)
  {
    if rs != [] {
      var n := |rs| - 1;
      HistoryIsOk(rs[..n], rs[n].now);
    }
  }

  /** A completed segment was dispatched, never had an exception, and departed no later than it
      arrived. */
  lemma CompletedSegment(rs: seq<Request>, now: Time)
    requires Monotone(rs) && forall i | 0 <= i < |rs| :: rs[i].now <= now
    requires Run(rs).status == COMPLETED
    ensures DISPATCHED in Visited(rs) && EXCEPTION !in Visited(rs)
    ensures Run(rs).departure.Some? && Run(rs).arrival.Some? && Run(rs).departure.value <= Run(rs).arrival.value
  {
    HistoryIsOk(rs, now);
  }

  /** An exception ends in cancellation or nowhere: a segment that had one is never completed. */
  lemma {:induction false} ExceptionIsFinal(rs: seq<Request>, n: nat)
    requires n <= |rs| && Run(rs[..n]).status in {EXCEPTION, CANCELLED}
    ensures Run(rs).status in {EXCEPTION, CANCELLED}
  {
    if n < |rs| {
      assert rs[..|rs| - 1][..n] == rs[..n];
      ExceptionIsFinal(rs[..|rs| - 1], n);
    } else {
      assert rs[..n] == rs;
    }
  }
}
