/** The order state machine of src/oms/service.py and every writer of order status: the API, the batch
    tasks of src/tasks/orders.py and src/tasks/inventory.py, and the acknowledgment handler of
    src/models/erp_connector.py. */
module OrderStatus {
  import opened Common

  datatype Status = PENDING | CONFIRMED | PROCESSING | PICKING | COMPLETED | CANCELLED | FAILED

  type Time = int

  const DAY := 86400
  const HOUR := 3600

  /** The stored value of a status. */
  function ValueOf(s: Status): string {
    match s
    case PENDING => "pending" case CONFIRMED => "confirmed" case PROCESSING => "processing" case PICKING => "picking"
    case COMPLETED => "completed" case CANCELLED => "cancelled" case FAILED => "failed"
  }

  /** The name the API uses; it differs for PENDING alone. */
  function NameOf(s: Status): string {
    if s == PENDING then "draft" else ValueOf(s)
  }

  function StatusOf(name: string): Option<Status> {
    if name == "draft" then Some(PENDING) else if name == "confirmed" then Some(CONFIRMED)
    else if name == "processing" then Some(PROCESSING) else if name == "picking" then Some(PICKING)
    else if name == "completed" then Some(COMPLETED) else if name == "cancelled" then Some(CANCELLED)
    else if name == "failed" then Some(FAILED) else None
  }

  function Allowed(s: Status): set<Status> {
    match s
    case PENDING => {CONFIRMED, CANCELLED}
    case CONFIRMED => {PROCESSING, CANCELLED}
    case PROCESSING => {PICKING, CANCELLED}
    case PICKING => {COMPLETED, CANCELLED}
    case COMPLETED => {}
    case CANCELLED => {}
    case FAILED => {}
  }

  predicate MayMove(current: Status, target: string) {
    StatusOf(target).Some? && StatusOf(target).value in Allowed(current)
  }

  /** The accepted requests, one by one. */
  ghost predicate IsMove(current: Status, target: string, next: Status) {
    match current
    case PENDING => (target == "confirmed" && next == CONFIRMED) || (target == "cancelled" && next == CANCELLED)
    case CONFIRMED => (target == "processing" && next == PROCESSING) || (target == "cancelled" && next == CANCELLED)
    case PROCESSING => (target == "picking" && next == PICKING) || (target == "cancelled" && next == CANCELLED)
    case PICKING => (target == "completed" && next == COMPLETED) || (target == "cancelled" && next == CANCELLED)
    case _ => false
  }

  lemma IsMoveIff(current: Status, target: string)
    ensures MayMove(current, target) <==> exists s :: IsMove(current, target, s)
    ensures MayMove(current, target) ==> IsMove(current, target, StatusOf(target).value)
  {
    if MayMove(current, target) {
      assert IsMove(current, target, StatusOf(target).value);
    }
  }

  datatype Entry = Entry(from: string, to: string)

  datatype Order = Order(status: Status, createdAt: Time, updatedAt: Time, log: seq<Entry>)

  const FLAG := "flagged_stale"

  function Created(now: Time): Order {
    Order(PENDING, now, now, [Entry("", "pending")])
  }

  // ---- What each writer does to one order ------------------------------------------------

  datatype Action =
    | Api(target: string, now: Time)
    | FlagStale(midnight: Time)
    | AutoComplete(now: Time)
    | CancelAbandoned(now: Time)
    | CancelExpired(now: Time)
    | ProcessPending(now: Time)
    | Ack(now: Time)

  function Move(o: Order, s: Status, now: Time, e: Entry): Order {
    Order(s, o.createdAt, now, o.log + [e])
  }

  /** A change of status alone; the mapper sets the time of the update. */
  function Touch(o: Order, s: Status, now: Time): Order {
    o.(status := s, updatedAt := now)
  }

  function Act(o: Order, a: Action): Order {
    match a
    case Api(target, now) =>
      if MayMove(o.status, target) then Move(o, StatusOf(target).value, now, Entry(NameOf(o.status), target)) else o
    case FlagStale(midnight) =>
      if o.status in {PROCESSING, PICKING} && o.updatedAt < midnight then o.(log := o.log + [Entry(ValueOf(o.status), FLAG)]) else o
    case AutoComplete(now) =>
      if o.status == PICKING && o.updatedAt < now - 48 * HOUR then Move(o, COMPLETED, now, Entry("picking", "completed")) else o
    case CancelAbandoned(now) =>
      if o.status == PENDING && o.createdAt < now - 7 * DAY then Move(o, CANCELLED, now, Entry("pending", "cancelled")) else o
    case CancelExpired(now) =>
      if o.status == PENDING && (now - o.createdAt) / DAY > 7 then Touch(o, CANCELLED, now) else o
    case ProcessPending(now) =>
      if o.status == PENDING && (now - o.createdAt) / DAY >= 1 then Touch(o, CONFIRMED, now) else o
    case Ack(now) => if o.status != CONFIRMED then Touch(o, CONFIRMED, now) else o
  }

  /** The writers that leave no log entry for the change they make. */
  predicate Unlogged(a: Action) {
    a.CancelExpired? || a.ProcessPending? || a.Ack?
  }

  /** How many orders differ between two states of the table. */
  function Differences(a: seq<Order>, b: seq<Order>): nat
    requires |a| == |b|
  {
    if a == [] then 0
    else Differences(a[..|a| - 1], b[..|b| - 1]) + (if a[|a| - 1] == b[|b| - 1] then 0 else 1)
  }

  lemma DifferencesNext(a: seq<Order>, b: seq<Order>, i: nat)
    requires |a| == |b| && i < |a|
    ensures Differences(a[..i + 1], b[..i + 1]) == Differences(a[..i], b[..i]) + (if a[i] == b[i] then 0 else 1)
  {
    assert a[..i + 1][..i] == a[..i] && b[..i + 1][..i] == b[..i];
  }

  /** A batch task has come to order `i` and changed `count` orders so far. */
  ghost predicate Acting(before: seq<Order>, orders: seq<Order>, a: Action, i: nat, count: nat) {
    |orders| == |before| && i <= |before| &&
    (forall j | 0 <= j < i :: orders[j] == Act(before[j], a)) &&
    (forall j | i <= j < |before| :: orders[j] == before[j]) &&
    count == Differences(before[..i], orders[..i])
  }

  lemma ActNext(before: seq<Order>, orders: seq<Order>, a: Action, i: nat, count: nat, orders': seq<Order>, count': nat)
    requires Acting(before, orders, a, i, count) && i < |before|
    requires orders' == orders[i := Act(orders[i], a)] && count' == count + if Act(orders[i], a) == orders[i] then 0 else 1
    ensures Acting(before, orders', a, i + 1, count')
  {
    assert orders'[..i] == orders[..i];
    DifferencesNext(before, orders', i);
  }

  lemma ActEnd(before: seq<Order>, orders: seq<Order>, a: Action, count: nat)
    requires Acting(before, orders, a, |before|, count)
    ensures orders == seq(|before|, i requires 0 <= i < |before| => Act(before[i], a))
    ensures |orders| == |before| && count == Differences(before, orders)
  {
    assert before[..|before|] == before && orders[..|orders|] == orders;
  }

  // ---- The table of orders -------------------------------------------------------------------

  class OrderTable {
    var orders: seq<Order>

    constructor ()
      ensures orders == []
    {
      orders := [];
    }

    method CreateOrder(now: Time)
      modifies this
      ensures orders == old(orders) + [Order(PENDING, now, now, [Entry("", "pending")])]
    {
      orders := orders + [Created(now)];
    }

    method UpdateOrderStatus(id: nat, target: string, now: Time) returns (r: Result<(), ServiceError>)
      modifies this
      ensures r == Err(NotFound) <==> id >= |old(orders)|
      ensures r.Err? ==> r.error in {NotFound, Validation}
      ensures id < |old(orders)| ==> (r.Ok? <==> exists s :: IsMove(old(orders)[id].status, target, s))
      ensures r.Ok? ==>
                |orders| == |old(orders)| && (forall i | 0 <= i < |orders| && i != id :: orders[i] == old(orders)[i]) &&
                IsMove(old(orders)[id].status, target, orders[id].status) &&
                orders[id] == Order(orders[id].status, old(orders)[id].createdAt, now,
                                    old(orders)[id].log + [Entry(NameOf(old(orders)[id].status), target)])
      ensures r.Err? ==> orders == old(orders)
      ensures r.Ok? ==> orders == old(orders)[id := Act(old(orders)[id], Api(target, now))]
    {
      if id >= |orders| {
        return Err(NotFound);
      }
      var o := orders[id];
      var current := NameOf(o.status);
      IsMoveIff(o.status, target);
      if !MayMove(o.status, target) {
        return Err(Validation);
      }
      var log := Entry(current, target);
      orders := orders[id := Order(StatusOf(target).value, o.createdAt, now, o.log + [log])];
      r := Ok(());
    }

    method ProcessStaleOrders(midnight: Time) returns (count: nat)
      modifies this
      ensures orders == seq(|old(orders)|, i requires 0 <= i < |old(orders)| => Act(old(orders)[i], FlagStale(midnight)))
      ensures |orders| == |old(orders)| && forall i | 0 <= i < |orders| ::
                var o := old(orders)[i];
                orders[i] == if o.status in {PROCESSING, PICKING} && o.updatedAt < midnight then
                               Order(o.status, o.createdAt, o.updatedAt,
                                     o.log + [Entry(if o.status == PICKING then "picking" else "processing", "flagged_stale")])
                             else o
      ensures |orders| == |old(orders)| && count == Differences(old(orders), orders)
    {
      count := 0;
      ghost var start := orders;
      for i := 0 to |orders|
        invariant Acting(start, orders, FlagStale(midnight), i, count)
      {
        ghost var before, countBefore := orders, count;
        var o := orders[i];
        if (o.status == PROCESSING || o.status == PICKING) && o.updatedAt < midnight {
          orders := orders[i := o.(log := o.log + [Entry(ValueOf(o.status), FLAG)])];
          count := count + 1;
        }
        ActNext(start, before, FlagStale(midnight), i, countBefore, orders, count);
      }
      ActEnd(start, orders, FlagStale(midnight), count);
    }

    method AutoCompletePickedOrders(now: Time) returns (count: nat)
      modifies this
      ensures orders == seq(|old(orders)|, i requires 0 <= i < |old(orders)| => Act(old(orders)[i], AutoComplete(now)))
      ensures |orders| == |old(orders)| && forall i | 0 <= i < |orders| ::
                var o := old(orders)[i];
                orders[i] == if o.status == PICKING && o.updatedAt < now - 172800 then
                               Order(COMPLETED, o.createdAt, now, o.log + [Entry("picking", "completed")])
                             else o
      ensures |orders| == |old(orders)| && count == Differences(old(orders), orders)
    {
      count := 0;
      ghost var start := orders;
      var cutoff := now - 48 * HOUR;
      for i := 0 to |orders|
        invariant Acting(start, orders, AutoComplete(now), i, count)
      {
        ghost var before, countBefore := orders, count;
        var o := orders[i];
        if o.status == PICKING && o.updatedAt < cutoff {
          orders := orders[i := Order(COMPLETED, o.createdAt, now, o.log + [Entry("picking", "completed")])];
          count := count + 1;
        }
        ActNext(start, before, AutoComplete(now), i, countBefore, orders, count);
      }
      ActEnd(start, orders, AutoComplete(now), count);
    }

    method CancelAbandonedDrafts(now: Time) returns (count: nat)
      modifies this
      ensures orders == seq(|old(orders)|, i requires 0 <= i < |old(orders)| => Act(old(orders)[i], CancelAbandoned(now)))
      ensures |orders| == |old(orders)| && forall i | 0 <= i < |orders| ::
                var o := old(orders)[i];
                orders[i] == if o.status == PENDING && o.createdAt < now - 604800 then
                               Order(CANCELLED, o.createdAt, now, o.log + [Entry("pending", "cancelled")])
                             else o
      ensures |orders| == |old(orders)| && count == Differences(old(orders), orders)
    {
      count := 0;
      ghost var start := orders;
      var cutoff := now - 7 * DAY;
      for i := 0 to |orders|
        invariant Acting(start, orders, CancelAbandoned(now), i, count)
      {
        ghost var before, countBefore := orders, count;
        var o := orders[i];
        if o.status == PENDING && o.createdAt < cutoff {
          orders := orders[i := Order(CANCELLED, o.createdAt, now, o.log + [Entry("pending", "cancelled")])];
          count := count + 1;
        }
        ActNext(start, before, CancelAbandoned(now), i, countBefore, orders, count);
      }
      ActEnd(start, orders, CancelAbandoned(now), count);
    }

    /** An acknowledgment from the ERP system: the order becomes confirmed whatever it was. */
    method HandleAck(id: nat, now: Time)
      modifies this
      ensures orders == if id < |old(orders)| then old(orders)[id := Act(old(orders)[id], Ack(now))] else old(orders)
      ensures |orders| == |old(orders)| && forall i | 0 <= i < |orders| ::
                var o := old(orders)[i];
                orders[i] == if i == id && o.status != CONFIRMED then Order(CONFIRMED, o.createdAt, now, o.log) else o
    {
      if id < |orders| && orders[id].status != CONFIRMED {
        orders := orders[id := orders[id].(status := CONFIRMED, updatedAt := now)];
      }
    }

    method CancelExpiredOrders(now: Time) returns (count: nat)
      modifies this
      ensures orders == seq(|old(orders)|, i requires 0 <= i < |old(orders)| => Act(old(orders)[i], CancelExpired(now)))
      ensures |orders| == |old(orders)| && forall i | 0 <= i < |orders| ::
                var o := old(orders)[i];
                orders[i] == if o.status == PENDING && now - o.createdAt >= 691200 then
                               Order(CANCELLED, o.createdAt, now, o.log)
                             else o
      ensures |orders| == |old(orders)| && count == Differences(old(orders), orders)
    {
      count := 0;
      ghost var start := orders;
      for i := 0 to |orders|
        invariant Acting(start, orders, CancelExpired(now), i, count)
      {
        ghost var before, countBefore := orders, count;
        if orders[i].status == PENDING && (now - orders[i].createdAt) / DAY > 7 {
          orders := orders[i := orders[i].(status := CANCELLED, updatedAt := now)];
          count := count + 1;
        }
        ActNext(start, before, CancelExpired(now), i, countBefore, orders, count);
      }
      ActEnd(start, orders, CancelExpired(now), count);
    }

    method ProcessPendingOrders(now: Time) returns (count: nat)
      modifies this
      ensures orders == seq(|old(orders)|, i requires 0 <= i < |old(orders)| => Act(old(orders)[i], ProcessPending(now)))
      ensures |orders| == |old(orders)| && forall i | 0 <= i < |orders| ::
                var o := old(orders)[i];
                orders[i] == if o.status == PENDING && now - o.createdAt >= 86400 then
                               Order(CONFIRMED, o.createdAt, now, o.log)
                             else o
      ensures |orders| == |old(orders)| && count == Differences(old(orders), orders)
    {
      count := 0;
      ghost var start := orders;
      for i := 0 to |orders|
        invariant Acting(start, orders, ProcessPending(now), i, count)
      {
        ghost var before, countBefore := orders, count;
        if orders[i].status == PENDING && (now - orders[i].createdAt) / DAY >= 1 {
          orders := orders[i := orders[i].(status := CONFIRMED, updatedAt := now)];
          count := count + 1;
        }
        ActNext(start, before, ProcessPending(now), i, countBefore, orders, count);
      }
      ActEnd(start, orders, ProcessPending(now), count);
    }
  }

  // ---- The life of one order ------------------------------------------------------------------

  function Life(created: Time, actions: seq<Action>): Order {
    if actions == [] then Created(created)
    else Act(Life(created, actions[..|actions| - 1]), actions[|actions| - 1])
  }

  /** The successive statuses, the first one included, one per change. */
  function History(created: Time, actions: seq<Action>): (h: seq<Status>)
    ensures h != []
  {
    if actions == [] then [PENDING]
    else
      var before := actions[..|actions| - 1];
      var s := Life(created, actions).status;
      History(created, before) + (if s == Life(created, before).status then [] else [s])
  }

  ghost predicate IsPath(h: seq<Status>) {
    forall i | 0 < i < |h| :: h[i] in Allowed(h[i - 1])
  }

  function Rank(s: Status): nat {
    match s
    case PENDING => 0 case CONFIRMED => 1 case PROCESSING => 2 case PICKING => 3
    case COMPLETED => 4 case CANCELLED => 4 case FAILED => 4
  }

  /** The last action is an acknowledgment of an order that is past CONFIRMED. */
  predicate EndsWithLateAck(created: Time, actions: seq<Action>) {
    actions != [] && actions[|actions| - 1].Ack? &&
    Life(created, actions[..|actions| - 1]).status !in {PENDING, CONFIRMED}
  }

  /** No acknowledgment comes when the order is past CONFIRMED. */
  ghost predicate AcksInTime(created: Time, actions: seq<Action>) {
    forall n | 0 <= n <= |actions| :: !EndsWithLateAck(created, actions[..n])
  }

  lemma {:induction false} AcksInTimeNext(created: Time, actions: seq<Action>)
    requires actions != []
    ensures AcksInTime(created, actions) <==>
            AcksInTime(created, actions[..|actions| - 1]) && !EndsWithLateAck(created, actions)
  {
    var before := actions[..|actions| - 1];
    assert forall n | 0 <= n < |actions| :: actions[..n] == before[..n];
    assert actions[..|actions|] == actions;
    if AcksInTime(created, actions) {
      forall n | 0 <= n <= |before| ensures !EndsWithLateAck(created, before[..n]) {
        assert actions[..n] == before[..n];
      }
    }
  }

  lemma HistoryEnds(created: Time, actions: seq<Action>)
    ensures var h := History(created, actions); h[0] == PENDING && h[|h| - 1] == Life(created, actions).status
  {
    if actions != [] { HistoryEnds(created, actions[..|actions| - 1]); }
  }

  lemma PathAppend(h: seq<Status>, s: Status)
    requires h != []
    ensures IsPath(h + [s]) <==> IsPath(h) && s in Allowed(h[|h| - 1])
  {
    var next := h + [s];
    if IsPath(next) {
      assert next[|h|] in Allowed(next[|h| - 1]);
      forall i | 0 < i < |h| ensures h[i] in Allowed(h[i - 1]) {
        assert next[i] in Allowed(next[i - 1]);
      }
    }
  }

  /** Every writer that changes the status makes an allowed change, a late acknowledgment excepted. */
  lemma ActMoves(o: Order, a: Action)
    ensures var late := a.Ack? && o.status !in {PENDING, CONFIRMED};
            if Act(o, a).status == o.status then !late else Act(o, a).status in Allowed(o.status) <==> !late
  {
  }

  /** One more action keeps the history a path, unless it is a late acknowledgment. */
  lemma OneMoreChange(created: Time, actions: seq<Action>)
    requires actions != []
    ensures IsPath(History(created, actions)) <==>
            IsPath(History(created, actions[..|actions| - 1])) && !EndsWithLateAck(created, actions)
  {
    var before, a := actions[..|actions| - 1], actions[|actions| - 1];
    var o, h := Life(created, before), History(created, before);
    HistoryEnds(created, before);
    assert Life(created, actions) == Act(o, a);
    ActMoves(o, a);
    if Act(o, a).status == o.status {
      assert History(created, actions) == h + [] == h;
    } else {
      assert History(created, actions) == h + [Act(o, a).status];
      PathAppend(h, Act(o, a).status);
    }
  }

  lemma {:induction false} NeverFailed(created: Time, actions: seq<Action>)
    ensures Life(created, actions).status != FAILED
  {
    if actions != [] { NeverFailed(created, actions[..|actions| - 1]); }
  }

  /** Whatever writers act on an order and in whatever order, its statuses form a path of the state
      machine if and only if no acknowledgment comes when the order is past CONFIRMED; FAILED is
      never reached. */
  lemma {:induction false} HistoryIsAPathIff(created: Time, actions: seq<Action>)
    ensures IsPath(History(created, actions)) <==> AcksInTime(created, actions)
    ensures Life(created, actions).status != FAILED
  {
    NeverFailed(created, actions);
    if actions != [] {
      HistoryIsAPathIff(created, actions[..|actions| - 1]);
      AcksInTimeNext(created, actions);
      OneMoreChange(created, actions);
    } else {
      assert actions[..0] == [];
    }
  }

  /** Such a path makes at most four changes. */
  lemma {:induction false} AtMostFourChanges(created: Time, actions: seq<Action>)
    requires AcksInTime(created, actions)
    ensures |History(created, actions)| - 1 <= Rank(Life(created, actions).status) <= 4
  {
    if actions != [] {
      AcksInTimeNext(created, actions);
      AtMostFourChanges(created, actions[..|actions| - 1]);
    }
  }

  /** A completed or cancelled order keeps its status through every writer, exactly as long as no
      acknowledgment comes. */
  lemma {:induction false} TerminalIsAbsorbingIff(created: Time, actions: seq<Action>, n: nat)
    requires n <= |actions| && Allowed(Life(created, actions[..n]).status) == {}
    ensures (forall m | n <= m <= |actions| :: Life(created, actions[..m]).status == Life(created, actions[..n]).status) <==>
            forall i | n <= i < |actions| :: !actions[i].Ack?
  {
    NeverFailed(created, actions[..n]);
    if i :| n <= i < |actions| && actions[i].Ack? {
      assert actions[..i + 1][..i] == actions[..i];
      assert Life(created, actions[..i + 1]).status == CONFIRMED;
    } else {
      forall m | n <= m <= |actions| ensures Life(created, actions[..m]).status == Life(created, actions[..n]).status {
        TerminalStays(created, actions, n, m);
      }
    }
  }

  lemma {:induction false} TerminalStays(created: Time, actions: seq<Action>, n: nat, m: nat)
    requires n <= m <= |actions| && Allowed(Life(created, actions[..n]).status) == {}
    requires forall i | n <= i < m :: !actions[i].Ack?
    ensures Life(created, actions[..m]).status == Life(created, actions[..n]).status
    decreases m
  {
    if n < m {
      TerminalStays(created, actions, n, m - 1);
      assert actions[..m][..m - 1] == actions[..m - 1];
      NeverFailed(created, actions[..n]);
    }
  }

  // ---- The log -----------------------------------------------------------------------------------

  /** A log entry's status as the API names it. */
  function Normal(s: string): string {
    if s == "pending" then "draft" else s
  }

  /** Reading a log: flags aside, every entry must start where the one before ended. */
  function Replay(log: seq<Entry>): Option<string> {
    if log == [] then Some("")
    else
      var e := log[|log| - 1];
      match Replay(log[..|log| - 1])
      case None => None
      case Some(s) => if e.to == FLAG then Some(s) else if s == Normal(e.from) then Some(Normal(e.to)) else None
  }

  lemma ReplayAppend(log: seq<Entry>, e: Entry)
    ensures Replay(log + [e]) ==
            match Replay(log)
            case None => None
            case Some(s) => if e.to == FLAG then Some(s) else if s == Normal(e.from) then Some(Normal(e.to)) else None
  {
    assert (log + [e])[..|log|] == log;
  }

  lemma NamesAreNormal(s: Status)
    ensures Normal(NameOf(s)) == NameOf(s) && Normal(ValueOf(s)) == NameOf(s)
    ensures NameOf(s) != FLAG && NameOf(s) != ""
    ensures StatusOf(NameOf(s)) == Some(s)
  {
  }

  lemma NamesAreNames(name: string)
    requires StatusOf(name).Some?
    ensures NameOf(StatusOf(name).value) == name && name != FLAG && Normal(name) == name
  {
  }

  /** The log accounts for the order: it chains and ends in the current status. */
  predicate LogAgrees(o: Order) {
    Replay(o.log) == Some(NameOf(o.status))
  }

  /** Whether some writer changed the order without logging it. */
  function ChangedSilently(created: Time, actions: seq<Action>): bool {
    actions != [] &&
    (ChangedSilently(created, actions[..|actions| - 1]) ||
     (Unlogged(actions[|actions| - 1]) &&
      Life(created, actions).status != Life(created, actions[..|actions| - 1]).status))
  }

  /** An order the log no longer accounts for: the log does not chain, or it ends in a status that
      the order has left and no unlogged change leads back to. */
  predicate LogLost(o: Order) {
    o.status != PENDING && Replay(o.log) != Some(NameOf(o.status)) && Replay(o.log) != Some("confirmed")
  }

  /** A logged change of a lost order breaks the chain. */
  lemma LoggedChangeKeepsLost(o: Order, s: Status, now: Time, e: Entry)
    requires LogLost(o) && s != PENDING && e.to != FLAG && Normal(e.from) == NameOf(o.status)
    ensures LogLost(Move(o, s, now, e))
  {
    ReplayAppend(o.log, e);
  }

  lemma ActKeepsLost(o: Order, a: Action)
    requires LogLost(o)
    ensures LogLost(Act(o, a))
  {
    NamesAreNormal(o.status);
    match a
    case Api(target, now) =>
      if MayMove(o.status, target) {
        NamesAreNames(target);
        LoggedChangeKeepsLost(o, StatusOf(target).value, now, Entry(NameOf(o.status), target));
      }
    case FlagStale(_) => ReplayAppend(o.log, Entry(ValueOf(o.status), FLAG));
    case AutoComplete(now) =>
      if o.status == PICKING { LoggedChangeKeepsLost(o, COMPLETED, now, Entry("picking", "completed")); }
    case CancelAbandoned(_) =>
    case CancelExpired(_) =>
    case ProcessPending(_) =>
    case Ack(_) =>
  }

  lemma LoggedChangeKeepsAgreement(o: Order, s: Status, now: Time, e: Entry)
    requires LogAgrees(o) && e.to != FLAG && Normal(e.from) == NameOf(o.status) && Normal(e.to) == NameOf(s)
    ensures LogAgrees(Move(o, s, now, e))
  {
    ReplayAppend(o.log, e);
  }

  lemma SilentChangeLoses(o: Order, s: Status, now: Time)
    requires LogAgrees(o) && o.status != CONFIRMED && s != PENDING && s != o.status
    ensures LogLost(Touch(o, s, now))
  {
    NamesAreNormal(o.status);
    NamesAreNormal(s);
  }

  lemma ActKeepsAgreement(o: Order, a: Action)
    requires LogAgrees(o)
    ensures if Unlogged(a) && Act(o, a).status != o.status then LogLost(Act(o, a)) else LogAgrees(Act(o, a))
  {
    NamesAreNormal(o.status);
    match a
    case Api(target, now) =>
      if MayMove(o.status, target) {
        NamesAreNames(target);
        LoggedChangeKeepsAgreement(o, StatusOf(target).value, now, Entry(NameOf(o.status), target));
      }
    case FlagStale(_) => ReplayAppend(o.log, Entry(ValueOf(o.status), FLAG));
    case AutoComplete(now) =>
      if o.status == PICKING { LoggedChangeKeepsAgreement(o, COMPLETED, now, Entry("picking", "completed")); }
    case CancelAbandoned(now) =>
      if o.status == PENDING { LoggedChangeKeepsAgreement(o, CANCELLED, now, Entry("pending", "cancelled")); }
    case CancelExpired(now) => if o.status == PENDING { SilentChangeLoses(o, CANCELLED, now); }
    case ProcessPending(now) => if o.status == PENDING { SilentChangeLoses(o, CONFIRMED, now); }
    case Ack(now) => if o.status != CONFIRMED { SilentChangeLoses(o, CONFIRMED, now); }
  }

  /** The log chains (with "pending" read as "draft") and replays to the current status exactly when
      none of the unlogged writers ever changed the order. */
  lemma {:induction false} LogAgreesIffNoSilentChange(created: Time, actions: seq<Action>)
    ensures LogAgrees(Life(created, actions)) <==> !ChangedSilently(created, actions)
    ensures ChangedSilently(created, actions) ==> LogLost(Life(created, actions))
  {
    if actions == [] {
      assert Created(created).log[..0] == [];
      assert Replay([]) == Some("");
      ReplayAppend([], Entry("", "pending"));
      assert [] + [Entry("", "pending")] == Created(created).log;
    } else {
      var before, a := actions[..|actions| - 1], actions[|actions| - 1];
      var o := Life(created, before);
      LogAgreesIffNoSilentChange(created, before);
      if ChangedSilently(created, before) {
        ActKeepsLost(o, a);
      } else {
        ActKeepsAgreement(o, a);
      }
      LostIsNotAgreed(Act(o, a));
    }
  }

  lemma LostIsNotAgreed(o: Order)
    ensures LogLost(o) ==> !LogAgrees(o)
  {
  }
}
