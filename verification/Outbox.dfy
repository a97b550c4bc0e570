/** The outbox of src/core/outbox.py and the delivery task of src/tasks/outbox.py. */
module Outbox {
  import opened Common

  type Id = nat

  datatype Status = Pending | Dispatched | Failed

  datatype Event = Event(createdAt: int, status: Status, retryCount: nat, scheduledAt: Option<int>, dispatchedAt: Option<int>)

  type Table = map<Id, Event>

  const MAX_RETRIES := 5
  const RETRY_DELAY := 60
  const BATCH_SIZE := 100

  // ---- The statements the service executes ---------------------------------------

  /** The fetch query's WHERE clause. */
  predicate Due(e: Event, now: int) {
    e.status == Pending && (e.scheduledAt.None? || e.scheduledAt.value <= now)
  }

  function Fresh(now: int): Event {
    Event(now, Pending, 0, None, None)
  }

  /** The unconditional UPDATE of mark_dispatched. */
  function Dispatch(t: Table, ids: seq<Id>, now: int): Table {
    map id | id in t :: if id in ids then t[id].(status := Dispatched, dispatchedAt := Some(now)) else t[id]
  }

  /** mark_failed: only a dispatched event is touched; after too many retries only its status is. */
  function Fail(t: Table, id: Id, now: int): Table {
    if id in t && t[id].status == Dispatched then
      if t[id].retryCount < MAX_RETRIES then
        t[id := t[id].(status := Failed, retryCount := t[id].retryCount + 1, scheduledAt := Some(now + RETRY_DELAY))]
      else t[id := t[id].(status := Failed)]
    else t
  }

  /** `ids` is an answer of the fetch query: due events, oldest first, as many as the limit admits.
      The `locked` rows, those another fetch holds at that moment, may be skipped. */
  ghost predicate IsBatch(t: Table, now: int, limit: nat, locked: set<Id>, ids: seq<Id>) {
    && |ids| <= limit
    && (forall i | 0 <= i < |ids| :: ids[i] in t && Due(t[ids[i]], now))
    && (forall i, j | 0 <= i < j < |ids| :: ids[i] != ids[j] && t[ids[i]].createdAt <= t[ids[j]].createdAt)
    && (forall id | id in t && Due(t[id], now) && id !in ids && id !in locked ::
          |ids| == limit && forall i | 0 <= i < |ids| :: t[ids[i]].createdAt <= t[id].createdAt)
  }

  ghost predicate IsDispatchedAt(before: Event, now: int, after: Event) {
    after == Event(before.createdAt, Dispatched, before.retryCount, before.scheduledAt, Some(now))
  }

  /** A dispatched event becomes failed, to be retried a minute later up to five times; all others stay. */
  ghost predicate IsFailedAt(before: Event, now: int, after: Event) {
    if before.status != Dispatched then after == before
    else if before.retryCount < 5 then
      after == Event(before.createdAt, Failed, before.retryCount + 1, Some(now + 60), before.dispatchedAt)
    else after == Event(before.createdAt, Failed, before.retryCount, before.scheduledAt, before.dispatchedAt)
  }

  class OutboxService {
    var events: Table

    constructor ()
      ensures events == map[]
    {
      events := map[];
    }

    method AppendEvent(id: Id, now: int)
      requires id !in events
      modifies this
      ensures events == old(events)[id := Event(now, Pending, 0, None, None)]
    {
      events := events[id := Fresh(now)];
    }

    method DispatchPendingEvents(batchSize: nat, locked: set<Id>, now: int) returns (ids: seq<Id>)
      ensures IsBatch(events, now, batchSize, locked, ids)
      ensures forall id | id in ids ::
                id in events && id !in locked && events[id].status == Pending &&
                (events[id].scheduledAt.None? || events[id].scheduledAt.value <= now)
      ensures forall id | id in events && id !in ids && id !in locked && events[id].status == Pending &&
                          (events[id].scheduledAt.None? || events[id].scheduledAt.value <= now) :: |ids| == batchSize
    {
      ids := [];
      var left := set id | id in events && Due(events[id], now) && id !in locked;
      while |ids| < batchSize && left != {}
        invariant |ids| <= batchSize
        invariant forall id :: id in left <==> id in events && Due(events[id], now) && id !in locked && id !in ids
        invariant forall i | 0 <= i < |ids| :: ids[i] in events && ids[i] !in locked && Due(events[ids[i]], now)
        invariant forall i, j | 0 <= i < j < |ids| :: ids[i] != ids[j] && events[ids[i]].createdAt <= events[ids[j]].createdAt
        invariant forall i, id | 0 <= i < |ids| && id in left :: events[ids[i]].createdAt <= events[id].createdAt
        decreases left
      {
        var next := Oldest(left);
        ids := ids + [next];
        left := left - {next};
      }
    }

    method Oldest(ids: set<Id>) returns (oldest: Id)
      requires ids != {} && forall id | id in ids :: id in events
      ensures oldest in ids && forall id | id in ids :: events[oldest].createdAt <= events[id].createdAt
    {
      oldest :| oldest in ids;
      var left := ids - {oldest};
      while left != {}
        invariant left <= ids && oldest in ids
        invariant forall id | id in ids - left :: events[oldest].createdAt <= events[id].createdAt
        decreases left
      {
        var id :| id in left;
        left := left - {id};
        if events[id].createdAt < events[oldest].createdAt {
          oldest := id;
        }
      }
    }

    method MarkDispatched(ids: seq<Id>, now: int) returns (rowcount: nat)
      modifies this
      ensures events == Dispatch(old(events), ids, now)
      ensures events.Keys == old(events).Keys
      ensures forall id | id in events && id in ids :: IsDispatchedAt(old(events)[id], now, events[id])
      ensures forall id | id in events && id !in ids :: events[id] == old(events)[id]
      ensures rowcount == |set id | id in old(events) && id in ids|
    {
      rowcount := |set id | id in events && id in ids|;
      events := map id | id in events ::
        if id in ids then events[id].(status := Dispatched, dispatchedAt := Some(now)) else events[id];
    }

    method MarkFailed(id: Id, now: int)
      modifies this
      ensures events == Fail(old(events), id, now)
      ensures events.Keys == old(events).Keys
      ensures forall other | other in events && other != id :: events[other] == old(events)[other]
      ensures id in events ==> IsFailedAt(old(events)[id], now, events[id])
    {
      if id in events && events[id].status == Dispatched && events[id].retryCount < MAX_RETRIES {
        events := events[id := events[id].(status := Failed, retryCount := events[id].retryCount + 1,
                                           scheduledAt := Some(now + RETRY_DELAY))];
      } else if id in events && events[id].status == Dispatched {
        if events[id].retryCount >= MAX_RETRIES {
          events := events[id := events[id].(status := Failed)];
        }
      }
    }
  }

  /** The ids of a batch whose POST succeeded. */
  function Succeeded(batch: seq<Id>, accepted: set<Id>): (r: seq<Id>)
    ensures forall id :: id in r <==> id in batch && id in accepted
    ensures |r| <= |batch|
  {
    if batch == [] then []
    else
      assert batch == batch[..|batch| - 1] + [batch[|batch| - 1]];
      Succeeded(batch[..|batch| - 1], accepted) +
      (if batch[|batch| - 1] in accepted then [batch[|batch| - 1]] else [])
  }

  /** The accepted events of a batch. */
  function Both(batch: seq<Id>, accepted: set<Id>): set<Id> {
    set id | id in batch && id in accepted
  }

  lemma BothNext(batch: seq<Id>, accepted: set<Id>)
    requires batch != [] && Distinct(batch)
    ensures var init, last := batch[..|batch| - 1], batch[|batch| - 1];
            Both(batch, accepted) == Both(init, accepted) + (if last in accepted then {last} else {}) && last !in Both(init, accepted)
  {
    assert batch == batch[..|batch| - 1] + [batch[|batch| - 1]];
  }

  lemma {:induction false} SucceededCount(batch: seq<Id>, accepted: set<Id>)
    requires Distinct(batch)
    ensures |Succeeded(batch, accepted)| == |Both(batch, accepted)|
  {
    if batch != [] {
      BothNext(batch, accepted);
      SucceededCount(batch[..|batch| - 1], accepted);
    }
  }

  /** The task run by one worker while no other is active; `accepted` are the events whose POST the
      endpoint answers with success. It delivers exactly those; a refused event is left as it was,
      since marking it failed has no effect on a pending row. */
  method DispatchOutboxEvents(service: OutboxService, accepted: set<Id>, now: int)
    returns (dispatched: nat, failed: nat, ghost batch: seq<Id>)
    modifies service
    ensures IsBatch(old(service.events), now, 100, {}, batch)
    ensures service.events == Dispatch(old(service.events), Succeeded(batch, accepted), now)
    ensures service.events.Keys == old(service.events).Keys
    ensures forall id | id in service.events ::
              if id in batch && id in accepted then IsDispatchedAt(old(service.events)[id], now, service.events[id])
              else service.events[id] == old(service.events)[id]
    ensures dispatched == |Both(batch, accepted)| && dispatched + failed == |batch|
  {
    var fetched := service.DispatchPendingEvents(BATCH_SIZE, {}, now);
    batch := fetched;
    SucceededCount(fetched, accepted);
    if fetched == [] {
      return 0, 0, fetched;
    }
    var dispatchedIds: seq<Id> := [];
    failed := 0;
    for i := 0 to |fetched|
      invariant service.events == old(service.events)
      invariant dispatchedIds == Succeeded(fetched[..i], accepted) && |dispatchedIds| + failed == i
    {
      assert fetched[..i + 1][..i] == fetched[..i];
      if fetched[i] in accepted {
        dispatchedIds := dispatchedIds + [fetched[i]];
      } else {
        service.MarkFailed(fetched[i], now);
        failed := failed + 1;
      }
    }
    assert fetched[..|fetched|] == fetched;
    if dispatchedIds != [] {
      var count := service.MarkDispatched(dispatchedIds, now);
    }
    dispatched := |dispatchedIds|;
  }

  // ---- Any number of workers, interleaved ---------------------------------------------

  /** A worker between two runs, or with events still to post and the ones it has posted. */
  datatype Worker = Idle | Working(todo: seq<Id>, sent: seq<Id>)

  /** `posted` records every event some POST of which succeeded. */
  datatype State = State(table: Table, workers: seq<Worker>, posted: set<Id>)

  /** Each is one transaction or one HTTP exchange; the fetch releases its row locks at once. */
  datatype Step =
    | Append(id: Id, now: int)
    | Fetch(w: nat, batch: seq<Id>, locked: set<Id>, now: int)
    | PostOk(w: nat)
    | PostFail(w: nat, now: int)
    | Finish(w: nat, now: int)
    | Crash(w: nat)

  ghost predicate Enabled(s: State, step: Step) {
    match step
    case Append(id, _) => id !in s.table
    case Fetch(w, batch, locked, now) => w < |s.workers| && s.workers[w].Idle? && IsBatch(s.table, now, BATCH_SIZE, locked, batch)
    case PostOk(w) => w < |s.workers| && s.workers[w].Working? && s.workers[w].todo != []
    case PostFail(w, _) => w < |s.workers| && s.workers[w].Working? && s.workers[w].todo != []
    case Finish(w, _) => w < |s.workers| && s.workers[w].Working? && s.workers[w].todo == []
    case Crash(w) => w < |s.workers|
  }

  ghost function Apply(s: State, step: Step): State
    requires Enabled(s, step)
  {
    match step
    case Append(id, now) => s.(table := s.table[id := Fresh(now)])
    case Fetch(w, batch, _, _) => s.(workers := s.workers[w := Working(batch, [])])
    case PostOk(w) =>
      var k := s.workers[w];
      s.(workers := s.workers[w := Working(k.todo[1..], k.sent + [k.todo[0]])], posted := s.posted + {k.todo[0]})
    case PostFail(w, now) =>
      var k := s.workers[w];
      s.(workers := s.workers[w := Working(k.todo[1..], k.sent)], table := Fail(s.table, k.todo[0], now))
    case Finish(w, now) =>
      s.(workers := s.workers[w := Idle],
         table := if s.workers[w].sent == [] then s.table else Dispatch(s.table, s.workers[w].sent, now))
    case Crash(w) => s.(workers := s.workers[w := Idle])
  }

  function Start(workers: nat): State {
    State(map[], seq(workers, _ => Idle), {})
  }

  /** `run` is a finite interleaving: consecutive states are linked by the steps. */
  ghost predicate IsRun(workers: nat, steps: seq<Step>, run: seq<State>) {
    |run| == |steps| + 1 && run[0] == Start(workers) &&
    forall i | 0 <= i < |steps| :: Enabled(run[i], steps[i]) && run[i + 1] == Apply(run[i], steps[i])
  }

  // ---- Safety -----------------------------------------------------------------------

  ghost predicate EventOk(s: State, id: Id)
    requires id in s.table
  {
    (s.table[id].status != Pending ==> id in s.posted) &&
    (s.table[id].status == Pending ==> s.table[id].retryCount == 0) &&
    s.table[id].retryCount <= MAX_RETRIES
  }

  ghost predicate Inv(s: State) {
    (forall id | id in s.table :: EventOk(s, id)) &&
    forall w, i | 0 <= w < |s.workers| && s.workers[w].Working? && 0 <= i < |s.workers[w].sent| ::
      s.workers[w].sent[i] in s.posted
  }

  lemma {:induction false} RunKeepsInv(workers: nat, steps: seq<Step>, run: seq<State>, i: nat)
    requires IsRun(workers, steps, run) && i < |run|
    ensures Inv(run[i])
  {
    if i > 0 {
      RunKeepsInv(workers, steps, run, i - 1);
    }
  }

  /** At-least-once delivery, for any number of workers and any interleaving: an event is no longer
      pending only if some POST of it succeeded; a pending one was never retried; and no retry
      count passes the cap. */
  lemma DeliveredBeforeLeavingPending(workers: nat, steps: seq<Step>, run: seq<State>, i: nat, id: Id)
    requires IsRun(workers, steps, run) && i < |run| && id in run[i].table
    ensures run[i].table[id].status != Pending ==> id in run[i].posted
    ensures run[i].table[id].status == Pending ==> run[i].table[id].retryCount == 0
    ensures run[i].table[id].retryCount <= 5
  {
    RunKeepsInv(workers, steps, run, i);
    assert EventOk(run[i], id);
  }

  /** Events never disappear, and one that has left the pending state never returns to it. */
  lemma {:induction false} EventsPersist(workers: nat, steps: seq<Step>, run: seq<State>, i: nat, j: nat, id: Id)
    requires IsRun(workers, steps, run) && i <= j < |run| && id in run[i].table
    ensures id in run[j].table && run[j].table[id].createdAt == run[i].table[id].createdAt
    ensures run[i].table[id].status != Pending ==> run[j].table[id].status != Pending
    ensures run[i].table[id].retryCount <= run[j].table[id].retryCount
    decreases j
  {
    if i < j {
      EventsPersist(workers, steps, run, i, j - 1, id);
      assert run[j] == Apply(run[j - 1], steps[j - 1]);
    }
  }

  /** So a failed event is never fetched again, whatever retry time it was given. */
  lemma FailedIsNeverRetried(workers: nat, steps: seq<Step>, run: seq<State>, i: nat, j: nat, id: Id)
    requires IsRun(workers, steps, run) && i <= j < |steps| && id in run[i].table
    requires run[i].table[id].status == Failed && steps[j].Fetch?
    ensures id !in steps[j].batch
  {
    EventsPersist(workers, steps, run, i, j, id);
    assert Enabled(run[j], steps[j]);
  }

  ghost predicate HeldInTable(s: State) {
    forall w, id | 0 <= w < |s.workers| && Holds(s.workers[w], id) :: id in s.table
  }

  lemma StepHeldInTable(s: State, step: Step)
    requires HeldInTable(s) && Enabled(s, step)
    ensures HeldInTable(Apply(s, step))
  {
    var t := Apply(s, step);
    forall w, id | 0 <= w < |t.workers| && Holds(t.workers[w], id) ensures id in t.table {
      if !Holds(s.workers[w], id) {
        assert step.Fetch? && id in step.batch;
      }
    }
  }

  lemma {:induction false} RunHeldInTable(workers: nat, steps: seq<Step>, run: seq<State>, i: nat)
    requires IsRun(workers, steps, run) && i < |run|
    ensures HeldInTable(run[i])
  {
    if i > 0 {
      RunHeldInTable(workers, steps, run, i - 1);
      StepHeldInTable(run[i - 1], steps[i - 1]);
    }
  }

  /** The worker neither crashes nor finishes at these steps. */
  ghost predicate GoesOn(steps: seq<Step>, w: nat, from: nat, to: nat)
    requires to <= |steps|
  {
    forall j | from <= j < to :: steps[j] != Crash(w) && (steps[j].Finish? ==> steps[j].w != w)
  }

  /** Worker `w` posts the event successfully at step `m`. */
  ghost predicate PostsOk(s: State, step: Step, w: nat, id: Id) {
    step == PostOk(w) && w < |s.workers| && s.workers[w].Working? && s.workers[w].todo != [] && s.workers[w].todo[0] == id
  }

  lemma {:induction false} SentIsRemembered(workers: nat, steps: seq<Step>, run: seq<State>, m: nat, i: nat, w: nat, id: Id)
    requires IsRun(workers, steps, run) && m < i <= |steps| && PostsOk(run[m], steps[m], w, id) && GoesOn(steps, w, m + 1, i)
    ensures w < |run[i].workers| && run[i].workers[w].Working? && id in run[i].workers[w].sent
    decreases i
  {
    assert Enabled(run[i - 1], steps[i - 1]) && run[i] == Apply(run[i - 1], steps[i - 1]);
    if m + 1 < i {
      SentIsRemembered(workers, steps, run, m, i - 1, w, id);
    }
  }

  /** An event whose POST succeeded is dispatched when that worker finishes, and is neither pending
      again nor fetched again after that. */
  lemma PostedIsDispatched(workers: nat, steps: seq<Step>, run: seq<State>, m: nat, i: nat, j: nat, w: nat, id: Id)
    requires IsRun(workers, steps, run) && m < i < j < |run| && PostsOk(run[m], steps[m], w, id)
    requires GoesOn(steps, w, m + 1, i) && steps[i].Finish? && steps[i].w == w
    ensures id in run[i].table && id in run[i + 1].table && IsDispatchedAt(run[i].table[id], steps[i].now, run[i + 1].table[id])
    ensures id in run[j].table && run[j].table[id].status != Pending
    ensures j < |steps| && steps[j].Fetch? ==> id !in steps[j].batch
  {
    SentIsRemembered(workers, steps, run, m, i, w, id);
    RunHeldInTable(workers, steps, run, i);
    assert Holds(run[i].workers[w], id) && run[i + 1] == Apply(run[i], steps[i]);
    EventsPersist(workers, steps, run, i + 1, j, id);
    assert j < |steps| ==> Enabled(run[j], steps[j]);
  }

  // ---- When events fail -----------------------------------------------------------------

  ghost predicate Holds(k: Worker, id: Id) {
    k.Working? && (id in k.todo || id in k.sent)
  }

  /** The fetch takes no event another worker still holds, as it would if the row locks lasted
      until the events were marked. */
  ghost predicate RespectsLocks(s: State, step: Step) {
    step.Fetch? ==> forall v, id | 0 <= v < |s.workers| && v != step.w && id in step.batch :: !Holds(s.workers[v], id)
  }

  ghost predicate NoneFailed(t: Table) {
    forall id | id in t :: t[id].status != Failed
  }

  ghost predicate HeldPending(s: State) {
    forall w, id | 0 <= w < |s.workers| && Holds(s.workers[w], id) :: id in s.table && s.table[id].status == Pending
  }

  ghost predicate HeldOnce(workers: seq<Worker>) {
    forall v, w, id | 0 <= v < |workers| && 0 <= w < |workers| && v != w && Holds(workers[v], id) :: !Holds(workers[w], id)
  }

  ghost predicate Undisturbed(s: State) {
    NoneFailed(s.table) && HeldPending(s) && HeldOnce(s.workers)
  }

  /** A worker that lets go of events, or keeps the ones it has, disturbs nobody. */
  lemma ReplaceWorker(s: State, w: nat, k: Worker)
    requires w < |s.workers| && Undisturbed(s)
    requires forall id | Holds(k, id) :: Holds(s.workers[w], id)
    ensures Undisturbed(s.(workers := s.workers[w := k]))
  {
    var workers := s.workers[w := k];
    forall v, id | 0 <= v < |workers| && Holds(workers[v], id) ensures Holds(s.workers[v], id) {
    }
  }

  lemma FetchUndisturbed(s: State, w: nat, batch: seq<Id>, locked: set<Id>, now: int)
    requires Undisturbed(s) && Enabled(s, Fetch(w, batch, locked, now)) && RespectsLocks(s, Fetch(w, batch, locked, now))
    ensures Undisturbed(Apply(s, Fetch(w, batch, locked, now)))
  {
    var t := Apply(s, Fetch(w, batch, locked, now));
    forall v, id | 0 <= v < |t.workers| && Holds(t.workers[v], id) ensures id in t.table && t.table[id].status == Pending {
      if v == w {
        assert id in batch;
      } else {
        assert Holds(s.workers[v], id);
      }
    }
    forall v, u, id | 0 <= v < |t.workers| && 0 <= u < |t.workers| && v != u && Holds(t.workers[v], id)
      ensures !Holds(t.workers[u], id)
    {
      if v != w && u != w {
        assert Holds(s.workers[v], id) && !Holds(s.workers[u], id);
      } else if v == w {
        assert id in batch && !Holds(s.workers[u], id);
      } else {
        assert Holds(s.workers[v], id) && id !in batch;
      }
    }
  }

  lemma FinishUndisturbed(s: State, w: nat, now: int)
    requires Undisturbed(s) && Enabled(s, Finish(w, now))
    ensures Undisturbed(Apply(s, Finish(w, now)))
  {
    var t := Apply(s, Finish(w, now));
    ReplaceWorker(s, w, Idle);
    forall v, id | 0 <= v < |t.workers| && Holds(t.workers[v], id) ensures id in t.table && t.table[id].status == Pending {
      assert v != w && Holds(s.workers[v], id);
      assert !Holds(s.workers[w], id);
    }
  }

  lemma StepUndisturbed(s: State, step: Step)
    requires Undisturbed(s) && Enabled(s, step) && RespectsLocks(s, step)
    ensures Undisturbed(Apply(s, step))
  {
    match step
    case Append(id, now) =>
    case Fetch(w, batch, locked, now) => FetchUndisturbed(s, w, batch, locked, now);
    case PostOk(w) =>
      var k := s.workers[w];
      ReplaceWorker(s, w, Working(k.todo[1..], k.sent + [k.todo[0]]));
    case PostFail(w, now) =>
      var k := s.workers[w];
      assert Holds(k, k.todo[0]);
      assert Fail(s.table, k.todo[0], now) == s.table;
      ReplaceWorker(s, w, Working(k.todo[1..], k.sent));
    case Finish(w, now) => FinishUndisturbed(s, w, now);
    case Crash(w) => ReplaceWorker(s, w, Idle);
  }

  /** If fetches respect the locks of unfinished workers, no event ever becomes failed. */
  lemma {:induction false} LocksPreventFailure(workers: nat, steps: seq<Step>, run: seq<State>, i: nat)
    requires IsRun(workers, steps, run) && i < |run|
    requires forall j | 0 <= j < i :: RespectsLocks(run[j], steps[j])
    ensures Undisturbed(run[i])
  {
    if i > 0 {
      LocksPreventFailure(workers, steps, run, i - 1);
      StepUndisturbed(run[i - 1], steps[i - 1]);
    }
  }

  lemma {:induction false} WorkerCount(workers: nat, steps: seq<Step>, run: seq<State>, i: nat)
    requires IsRun(workers, steps, run) && i < |run|
    ensures |run[i].workers| == workers
  {
    if i > 0 {
      WorkerCount(workers, steps, run, i - 1);
      assert run[i] == Apply(run[i - 1], steps[i - 1]);
    }
  }

  /** A single worker, crashes included, never makes an event fail; neither does none. */
  lemma SingleWorkerNeverFails(workers: nat, steps: seq<Step>, run: seq<State>, i: nat, id: Id)
    requires workers <= 1 && IsRun(workers, steps, run) && i < |run| && id in run[i].table
    ensures run[i].table[id].status != Failed
  {
    forall j | 0 <= j < i ensures RespectsLocks(run[j], steps[j]) {
      WorkerCount(workers, steps, run, j);
      assert Enabled(run[j], steps[j]);
    }
    LocksPreventFailure(workers, steps, run, i);
  }

  /** A run continues with any enabled step. */
  lemma ExtendRun(workers: nat, steps: seq<Step>, run: seq<State>, step: Step)
    requires IsRun(workers, steps, run) && Enabled(run[|steps|], step)
    ensures IsRun(workers, steps + [step], run + [Apply(run[|steps|], step)])
  {
  }

  const ONE_EVENT: Event := Event(0, Pending, 0, None, None)
  const SENT_EVENT: Event := Event(0, Dispatched, 0, None, Some(1))

  /** Two of the workers fetch the same event. */
  lemma BothFetch(n: nat) returns (steps: seq<Step>, run: seq<State>)
    requires n >= 2
    ensures IsRun(n, steps, run)
    ensures var last := run[|steps|];
            last.table == map[0 := ONE_EVENT] && |last.workers| == n && last.workers[0] == last.workers[1] == Working([0], [])
  {
    var s0 := Start(n);
    var s1 := Apply(s0, Append(0, 0));
    assert s1.table == map[0 := ONE_EVENT] && IsBatch(s1.table, 0, BATCH_SIZE, {}, [0]);
    var s2 := Apply(s1, Fetch(0, [0], {}, 0));
    var s3 := Apply(s2, Fetch(1, [0], {}, 0));
    ExtendRun(n, [], [s0], Append(0, 0));
    ExtendRun(n, [Append(0, 0)], [s0, s1], Fetch(0, [0], {}, 0));
    ExtendRun(n, [Append(0, 0), Fetch(0, [0], {}, 0)], [s0, s1, s2], Fetch(1, [0], {}, 0));
    steps, run := [Append(0, 0), Fetch(0, [0], {}, 0), Fetch(1, [0], {}, 0)], [s0, s1, s2, s3];
  }

  /** At moment `i` of the run the event is failed. */
  ghost predicate Fails(workers: nat, steps: seq<Step>, run: seq<State>, i: nat, id: Id) {
    IsRun(workers, steps, run) && i < |run| && id in run[i].table && run[i].table[id].status == Failed
  }

  /** Two workers fetch one event, the first delivers it, and the second's error then marks the
      delivered event failed. */
  lemma TwoWorkersCanFailADeliveredEvent(n: nat) returns (steps: seq<Step>, run: seq<State>)
    requires n >= 2
    ensures Fails(n, steps, run, |steps|, 0) && 0 in run[|steps|].posted
  {
    steps, run := BothFetch(n);
    ExtendRun(n, steps, run, PostOk(0));
    steps, run := steps + [PostOk(0)], run + [Apply(run[|steps|], PostOk(0))];
    assert [0][1..] == [] && [] + [0] == [0];
    assert run[|steps|].workers[0] == Working([], [0]) && run[|steps|].workers[1] == Working([0], []);
    ExtendRun(n, steps, run, Finish(0, 1));
    steps, run := steps + [Finish(0, 1)], run + [Apply(run[|steps|], Finish(0, 1))];
    assert run[|steps|].table == map[0 := SENT_EVENT] && run[|steps|].workers[1] == Working([0], []);
    ExtendRun(n, steps, run, PostFail(1, 2));
    steps, run := steps + [PostFail(1, 2)], run + [Apply(run[|steps|], PostFail(1, 2))];
  }

  /** Events can become failed if and only if at least two workers run, and every event that does
      was delivered. */
  lemma FailsIffTwoWorkers(n: nat)
    ensures (exists steps, run, i, id :: Fails(n, steps, run, i, id)) <==> n >= 2
    ensures forall steps: seq<Step>, run: seq<State>, i: nat, id | Fails(n, steps, run, i, id) :: id in run[i].posted
  {
    forall steps: seq<Step>, run: seq<State>, i: nat, id | Fails(n, steps, run, i, id) ensures id in run[i].posted && n >= 2 {
      DeliveredBeforeLeavingPending(n, steps, run, i, id);
      if n < 2 {
        SingleWorkerNeverFails(n, steps, run, i, id);
      }
    }
    if n >= 2 {
      var steps, run := TwoWorkersCanFailADeliveredEvent(n);
      assert Fails(n, steps, run, |steps|, 0);
    }
  }
}
