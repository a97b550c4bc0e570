/** The adjustment of src/wms/service.py under concurrency: any number of callers read a snapshot
    and later try a version-checked update, up to three attempts each. */
module OptimisticLock {
  import opened Common
  import opened Batches

  const MAX_ATTEMPTS := 3

  datatype Request = Request(key: Key, qty: real, batchNo: nat, expiry: Option<int>, strategy: Strategy)

  /** One stock-movement record: positive quantity, with the side the location is on. */
  datatype Movement = Movement(key: Key, isSource: bool, isTarget: bool, quantity: real)

  datatype Outcome =
    | Committed        // the adjustment and its movement are stored
    | GaveUp           // every attempt conflicted; the call still returns the row normally
    | Insufficient     // refused for lack of stock
    | Raised           // a database error reached the caller

  datatype Caller =
    | Ready(attempt: nat)
    | Holding(attempt: nat, id: nat, seen: Row)
    | Inserting(attempt: nat)
    | Done(outcome: Outcome)

  /** `initial` and `updates` (the row of every committed update, in order) are history. */
  datatype State = State(rows: Rows, ledger: seq<Movement>, callers: seq<Caller>, initial: Rows, updates: seq<nat>)

  function ScopeOf(key: Key): Scope {
    Scope(key.warehouse, Some(key.location), key.sku)
  }

  function MovementOf(r: Request): Movement {
    Movement(r.key, r.qty < 0.0, r.qty > 0.0, Abs(r.qty))
  }

  function Signed(m: Movement): real {
    if m.isTarget then m.quantity else if m.isSource then -m.quantity else 0.0
  }

  /** The net change the ledger records for one stock key. */
  function LedgerSum(ledger: seq<Movement>, key: Key): real {
    if ledger == [] then 0.0
    else LedgerSum(ledger[..|ledger| - 1], key) +
         (if ledger[|ledger| - 1].key == key then Signed(ledger[|ledger| - 1]) else 0.0)
  }

  function CurrentVersion(r: Row): nat {
    if r.version.Some? then r.version.value else 0
  }

  predicate Matches(r: Row, q: Request) {
    r.key == q.key && r.batchNo == q.batchNo
  }

  /** The values an update stores. */
  function Updated(seen: Row, q: Request): Row {
    seen.(qty := seen.qty + q.qty, version := Some(CurrentVersion(seen) + 1),
          expiry := if q.qty > 0.0 && seen.expiry.None? then q.expiry else seen.expiry)
  }

  function Inserted(q: Request, now: int): Row {
    Row(q.key, q.batchNo, q.qty, 0.0, Some(0), q.expiry, Some(now))
  }

  // ---- Reading ------------------------------------------------------------------------

  /** What one attempt's reads lead to. */
  datatype Reading = Found(id: nat) | Missing | Ambiguous | Short | FirstTooSmall

  ghost predicate IsReading(rows: Rows, q: Request, r: Reading) {
    if q.qty > 0.0 then
      match r
      case Found(id) => id < |rows| && Matches(rows[id], q) && forall k | 0 <= k < |rows| && k != id :: !Matches(rows[k], q)
      case Missing => forall k | 0 <= k < |rows| :: !Matches(rows[k], q)
      case Ambiguous => exists j, k :: 0 <= j < k < |rows| && Matches(rows[j], q) && Matches(rows[k], q)
      case _ => false
    else
      exists ids :: IsPicking(rows, ScopeOf(q.key), QueryOrder(q.strategy), ids) && PickReading(rows, q, ids, r)
  }

  predicate PickReading(rows: Rows, q: Request, ids: seq<nat>, r: Reading)
    requires forall i | 0 <= i < |ids| :: ids[i] < |rows|
  {
    if ids == [] || FreeSum(rows, ids) < Abs(q.qty) then r == Short
    else if rows[ids[0]].qty + q.qty < 0.0 then r == FirstTooSmall
    else r == Found(ids[0])
  }

  // ---- The steps ------------------------------------------------------------------------

  datatype Step =
    | Read(c: nat, reading: Reading)
    | TryUpdate(c: nat)
    | TryInsert(c: nat, now: int)
    | CommitFails(c: nat)
    | RunOut(c: nat)

  ghost predicate Enabled(s: State, qs: seq<Request>, step: Step) {
    |s.callers| == |qs| && step.c < |qs| &&
    var k := s.callers[step.c];
    match step
    case Read(c, reading) => k.Ready? && k.attempt < MAX_ATTEMPTS && IsReading(s.rows, qs[c], reading)
    case TryUpdate(c) => k.Holding? && k.id < |s.rows|
    case TryInsert(c, _) => k.Inserting?
    case CommitFails(c) => (k.Holding? && k.id < |s.rows| && s.rows[k.id].version == Some(CurrentVersion(k.seen))) || k.Inserting?
    case RunOut(c) => k.Ready? && k.attempt >= MAX_ATTEMPTS
  }

  function AfterRead(s: State, k: Caller, reading: Reading): Caller
    requires k.Ready?
    requires reading.Found? ==> reading.id < |s.rows|
  {
    match reading
    case Found(id) => Holding(k.attempt, id, s.rows[id])
    case Missing => Inserting(k.attempt)
    case Ambiguous => Done(Raised)
    case Short => Done(Insufficient)
    case FirstTooSmall => Ready(k.attempt + 1)
  }

  ghost function Apply(s: State, qs: seq<Request>, step: Step): State
    requires Enabled(s, qs, step)
  {
    var c, k := step.c, s.callers[step.c];
    match step
    case Read(_, reading) =>
      assert reading.Found? ==> reading.id < |s.rows|;
      s.(callers := s.callers[c := AfterRead(s, k, reading)])
    case TryUpdate(_) =>
      if s.rows[k.id].version == Some(CurrentVersion(k.seen)) then
        State(s.rows[k.id := Updated(k.seen, qs[c])], s.ledger + [MovementOf(qs[c])], s.callers[c := Done(Committed)],
              s.initial, s.updates + [k.id])
      else s.(callers := s.callers[c := Ready(k.attempt + 1)])
    case TryInsert(_, now) =>
      s.(rows := s.rows + [Inserted(qs[c], now)], ledger := s.ledger + [MovementOf(qs[c])],
         callers := s.callers[c := Done(Committed)])
    case CommitFails(_) =>
      s.(callers := s.callers[c := if k.attempt < MAX_ATTEMPTS - 1 then Ready(k.attempt + 1) else Done(Raised)])
    case RunOut(_) => s.(callers := s.callers[c := Done(GaveUp)])
  }

  ghost predicate IsStart(s: State, qs: seq<Request>) {
    s.initial == s.rows && s.ledger == [] && s.updates == [] && |s.callers| == |qs| &&
    forall c | 0 <= c < |qs| :: s.callers[c] == Ready(0)
  }

  ghost predicate IsRun(qs: seq<Request>, steps: seq<Step>, run: seq<State>) {
    |run| == |steps| + 1 && IsStart(run[0], qs) &&
    forall i | 0 <= i < |steps| :: Enabled(run[i], qs, steps[i]) && run[i + 1] == Apply(run[i], qs, steps[i])
  }

  // ---- The invariant ----------------------------------------------------------------------

  /** How often a row was updated. */
  function Updates(updates: seq<nat>, id: nat): nat {
    if updates == [] then 0
    else Updates(updates[..|updates| - 1], id) + (if updates[|updates| - 1] == id then 1 else 0)
  }

  function InitialVersion(s: State, id: nat): Option<nat> {
    if id < |s.initial| then s.initial[id].version else Some(0)
  }

  /** A row's version is its initial one plus its updates; a row without a version is never updated. */
  ghost predicate VersionCounts(s: State, id: nat)
    requires id < |s.rows|
  {
    var n := Updates(s.updates, id);
    match InitialVersion(s, id)
    case None => n == 0 && s.rows[id] == s.initial[id]
    case Some(v) => s.rows[id].version == Some(v + n)
  }

  /** A held snapshot is no newer than the row, and equal to it as long as the version is. */
  ghost predicate SnapshotOk(s: State, q: Request, k: Caller)
    requires k.Holding?
  {
    k.id < |s.rows| && k.seen.key == s.rows[k.id].key == q.key && k.seen.qty + q.qty >= 0.0 &&
    (q.qty > 0.0 ==> k.seen.batchNo == q.batchNo) &&
    (k.seen.version.None? ==> s.rows[k.id] == k.seen) &&
    (k.seen.version.Some? ==>
       s.rows[k.id].version.Some? && k.seen.version.value <= s.rows[k.id].version.value &&
       (k.seen.version == s.rows[k.id].version ==> s.rows[k.id] == k.seen))
  }

  ghost predicate CallerOk(s: State, q: Request, k: Caller) {
    match k
    case Holding(_, _, _) => SnapshotOk(s, q, k)
    case Inserting(_) => q.qty > 0.0
    case _ => true
  }

  ghost predicate Inv(s: State, qs: seq<Request>) {
    && |s.callers| == |qs| && |s.initial| <= |s.rows|
    && NonNegativeRows(s.rows)
    && (forall id | 0 <= id < |s.rows| :: VersionCounts(s, id))
    && (forall i | 0 <= i < |s.updates| :: s.updates[i] < |s.rows|)
    && (forall c | 0 <= c < |qs| :: CallerOk(s, qs[c], s.callers[c]))
  }

  ghost predicate Balanced(s: State, key: Key) {
    Total(s.rows, ScopeOf(key)) == Total(s.initial, ScopeOf(key)) + LedgerSum(s.ledger, key)
  }

  lemma {:induction false} UpdatesBound(updates: seq<nat>, id: nat)
    requires forall i | 0 <= i < |updates| :: updates[i] < id
    ensures Updates(updates, id) == 0
  {
    if updates != [] { UpdatesBound(updates[..|updates| - 1], id); }
  }

  lemma UpdatesAppend(updates: seq<nat>, x: nat, id: nat)
    ensures Updates(updates + [x], id) == Updates(updates, id) + (if x == id then 1 else 0)
  {
    assert (updates + [x])[..|updates|] == updates;
  }

  // ---- Every step keeps it -------------------------------------------------------------------

  lemma ReadingIsOk(s: State, qs: seq<Request>, c: nat, reading: Reading)
    requires Inv(s, qs) && Enabled(s, qs, Read(c, reading))
    ensures reading.Found? ==> reading.id < |s.rows|
    ensures CallerOk(s, qs[c], AfterRead(s, s.callers[c], reading))
  {
    var q := qs[c];
    if q.qty <= 0.0 {
      var ids :| IsPicking(s.rows, ScopeOf(q.key), QueryOrder(q.strategy), ids) && PickReading(s.rows, q, ids, reading);
      if reading.Found? {
        assert Pickable(s.rows[ids[0]], ScopeOf(q.key));
      }
    } else if reading.Found? {
      assert s.rows[reading.id].qty >= 0.0;
    }
  }

  lemma ReplaceCallerInv(s: State, qs: seq<Request>, c: nat, k: Caller)
    requires Inv(s, qs) && c < |qs| && CallerOk(s, qs[c], k)
    ensures Inv(s.(callers := s.callers[c := k]), qs)
  {
    var t := s.(callers := s.callers[c := k]);
    forall id | 0 <= id < |t.rows| ensures VersionCounts(t, id) {
      assert VersionCounts(s, id);
    }
    forall d | 0 <= d < |qs| ensures CallerOk(t, qs[d], t.callers[d]) {
      assert d != c ==> CallerOk(s, qs[d], s.callers[d]);
    }
  }

  lemma UpdateRowInv(s: State, qs: seq<Request>, c: nat)
    requires Inv(s, qs) && Enabled(s, qs, TryUpdate(c))
    requires s.rows[s.callers[c].id].version == Some(CurrentVersion(s.callers[c].seen))
    ensures s.rows[s.callers[c].id] == s.callers[c].seen && s.callers[c].seen.key == qs[c].key
    ensures Inv(Apply(s, qs, TryUpdate(c)), qs)
  {
    var k, t := s.callers[c], Apply(s, qs, TryUpdate(c));
    assert CallerOk(s, qs[c], k);
    forall id | 0 <= id < |t.rows| ensures VersionCounts(t, id) {
      assert VersionCounts(s, id);
      UpdatesAppend(s.updates, k.id, id);
    }
    forall d | 0 <= d < |qs| ensures CallerOk(t, qs[d], t.callers[d]) {
      assert CallerOk(s, qs[d], s.callers[d]);
    }
  }

  lemma InsertRowInv(s: State, qs: seq<Request>, c: nat, now: int)
    requires Inv(s, qs) && Enabled(s, qs, TryInsert(c, now))
    ensures Inv(Apply(s, qs, TryInsert(c, now)), qs)
  {
    var t := Apply(s, qs, TryInsert(c, now));
    assert CallerOk(s, qs[c], s.callers[c]);
    UpdatesBound(s.updates, |s.rows|);
    forall id | 0 <= id < |t.rows| ensures VersionCounts(t, id) {
      assert id < |s.rows| ==> VersionCounts(s, id);
    }
    forall d | 0 <= d < |qs| ensures CallerOk(t, qs[d], t.callers[d]) {
      assert CallerOk(s, qs[d], s.callers[d]);
    }
  }

  lemma StepKeepsInv(s: State, qs: seq<Request>, step: Step)
    requires Inv(s, qs) && Enabled(s, qs, step)
    ensures Inv(Apply(s, qs, step), qs)
  {
    var c, k := step.c, s.callers[step.c];
    match step
    case Read(_, reading) =>
      ReadingIsOk(s, qs, c, reading);
      ReplaceCallerInv(s, qs, c, AfterRead(s, k, reading));
    case TryUpdate(_) =>
      if s.rows[k.id].version == Some(CurrentVersion(k.seen)) {
        UpdateRowInv(s, qs, c);
      } else {
        ReplaceCallerInv(s, qs, c, Ready(k.attempt + 1));
      }
    case TryInsert(_, now) => InsertRowInv(s, qs, c, now);
    case CommitFails(_) =>
      ReplaceCallerInv(s, qs, c, if k.attempt < MAX_ATTEMPTS - 1 then Ready(k.attempt + 1) else Done(Raised));
    case RunOut(_) => ReplaceCallerInv(s, qs, c, Done(GaveUp));
  }

  // ---- Conservation ----------------------------------------------------------------------------

  /** The net change asked for by the callers that committed. */
  function CommittedSum(callers: seq<Caller>, qs: seq<Request>, key: Key): real
    requires |callers| == |qs|
  {
    if callers == [] then 0.0
    else
      var n := |callers| - 1;
      CommittedSum(callers[..n], qs[..n], key) + (if callers[n] == Done(Committed) && qs[n].key == key then qs[n].qty else 0.0)
  }

  lemma {:induction false} CommittedSumUpdate(callers: seq<Caller>, qs: seq<Request>, key: Key, c: nat, k: Caller)
    requires |callers| == |qs| && c < |qs| && callers[c] != Done(Committed)
    ensures CommittedSum(callers[c := k], qs, key) ==
            CommittedSum(callers, qs, key) + (if k == Done(Committed) && qs[c].key == key then qs[c].qty else 0.0)
  {
    var n := |callers| - 1;
    if c < n {
      CommittedSumUpdate(callers[..n], qs[..n], key, c, k);
      assert callers[c := k][..n] == callers[..n][c := k];
    } else {
      assert callers[c := k][..n] == callers[..n];
    }
  }

  lemma {:induction false} NothingCommittedYet(callers: seq<Caller>, qs: seq<Request>, key: Key)
    requires |callers| == |qs| && forall c | 0 <= c < |qs| :: callers[c] == Ready(0)
    ensures CommittedSum(callers, qs, key) == 0.0
  {
    if callers != [] { NothingCommittedYet(callers[..|qs| - 1], qs[..|qs| - 1], key); }
  }

  lemma LedgerAppend(ledger: seq<Movement>, q: Request, key: Key)
    ensures LedgerSum(ledger + [MovementOf(q)], key) == LedgerSum(ledger, key) + (if q.key == key then q.qty else 0.0)
  {
    assert (ledger + [MovementOf(q)])[..|ledger|] == ledger;
  }

  /** Stock, ledger and committed requests agree. */
  ghost predicate Conserved(s: State, qs: seq<Request>, key: Key)
    requires |s.callers| == |qs|
  {
    Balanced(s, key) && LedgerSum(s.ledger, key) == CommittedSum(s.callers, qs, key)
  }

  lemma UpdateConserves(s: State, qs: seq<Request>, c: nat, key: Key)
    requires Inv(s, qs) && Enabled(s, qs, TryUpdate(c)) && Conserved(s, qs, key)
    requires s.rows[s.callers[c].id].version == Some(CurrentVersion(s.callers[c].seen))
    ensures |Apply(s, qs, TryUpdate(c)).callers| == |qs| && Conserved(Apply(s, qs, TryUpdate(c)), qs, key)
  {
    var k := s.callers[c];
    UpdateRowInv(s, qs, c);
    CommittedSumUpdate(s.callers, qs, key, c, Done(Committed));
    LedgerAppend(s.ledger, qs[c], key);
    TotalUpdate(s.rows, k.id, Updated(k.seen, qs[c]), ScopeOf(key));
  }

  lemma InsertBalances(rows: Rows, ledger: seq<Movement>, q: Request, now: int, key: Key)
    ensures Total(rows + [Inserted(q, now)], ScopeOf(key)) - LedgerSum(ledger + [MovementOf(q)], key) ==
            Total(rows, ScopeOf(key)) - LedgerSum(ledger, key)
  {
    TotalAppend(rows, Inserted(q, now), ScopeOf(key));
    LedgerAppend(ledger, q, key);
    assert InScope(Inserted(q, now), ScopeOf(key)) <==> q.key == key;
  }

  lemma InsertConserves(s: State, qs: seq<Request>, c: nat, now: int, key: Key)
    requires Enabled(s, qs, TryInsert(c, now)) && Conserved(s, qs, key)
    ensures |Apply(s, qs, TryInsert(c, now)).callers| == |qs| && Conserved(Apply(s, qs, TryInsert(c, now)), qs, key)
  {
    CommittedSumUpdate(s.callers, qs, key, c, Done(Committed));
    LedgerAppend(s.ledger, qs[c], key);
    InsertBalances(s.rows, s.ledger, qs[c], now, key);
  }

  /** A step that stores nothing. */
  lemma QuietConserves(s: State, qs: seq<Request>, c: nat, k: Caller, key: Key)
    requires |s.callers| == |qs| && c < |qs| && s.callers[c] != Done(Committed) && k != Done(Committed) && Conserved(s, qs, key)
    ensures Conserved(s.(callers := s.callers[c := k]), qs, key)
  {
    CommittedSumUpdate(s.callers, qs, key, c, k);
  }

  lemma StepConserves(s: State, qs: seq<Request>, step: Step, key: Key)
    requires Inv(s, qs) && Enabled(s, qs, step) && Conserved(s, qs, key)
    ensures |Apply(s, qs, step).callers| == |qs| && Conserved(Apply(s, qs, step), qs, key)
  {
    var c, k := step.c, s.callers[step.c];
    match step
    case Read(_, reading) =>
      ReadingIsOk(s, qs, c, reading);
      QuietConserves(s, qs, c, AfterRead(s, k, reading), key);
    case TryUpdate(_) =>
      if s.rows[k.id].version == Some(CurrentVersion(k.seen)) {
        UpdateConserves(s, qs, c, key);
      } else {
        QuietConserves(s, qs, c, Ready(k.attempt + 1), key);
      }
    case TryInsert(_, now) => InsertConserves(s, qs, c, now, key);
    case CommitFails(_) =>
      QuietConserves(s, qs, c, if k.attempt < MAX_ATTEMPTS - 1 then Ready(k.attempt + 1) else Done(Raised), key);
    case RunOut(_) => QuietConserves(s, qs, c, Done(GaveUp), key);
  }

  lemma {:induction false} RunInvariant(qs: seq<Request>, steps: seq<Step>, run: seq<State>, i: nat, key: Key)
    requires IsRun(qs, steps, run) && NonNegativeRows(run[0].rows) && i < |run|
    ensures Inv(run[i], qs) && Conserved(run[i], qs, key) && run[i].initial == run[0].rows
  {
    if i == 0 {
      NothingCommittedYet(run[0].callers, qs, key);
      forall id | 0 <= id < |run[0].rows| ensures VersionCounts(run[0], id) {}
    } else {
      RunInvariant(qs, steps, run, i - 1, key);
      StepKeepsInv(run[i - 1], qs, steps[i - 1]);
      StepConserves(run[i - 1], qs, steps[i - 1], key);
    }
  }

  // ---- Main results ------------------------------------------------------------------------------

  /** No lost updates: over every interleaving of any number of callers, the stock of every key is
      its initial stock plus the signed sum of the stored movements, and that sum is the sum of the
      requests of the callers that committed. No row goes negative. */
  lemma NoLostUpdates(qs: seq<Request>, steps: seq<Step>, run: seq<State>, i: nat, key: Key)
    requires IsRun(qs, steps, run) && NonNegativeRows(run[0].rows) && i < |run|
    ensures |run[i].callers| == |qs|
    ensures Total(run[i].rows, ScopeOf(key)) == Total(run[0].rows, ScopeOf(key)) + LedgerSum(run[i].ledger, key)
    ensures LedgerSum(run[i].ledger, key) == CommittedSum(run[i].callers, qs, key)
    ensures NonNegativeRows(run[i].rows)
  {
    RunInvariant(qs, steps, run, i, key);
  }

  /** A row's version is its initial version plus the number of updates committed to it. */
  lemma VersionCountsCommits(qs: seq<Request>, steps: seq<Step>, run: seq<State>, i: nat, id: nat)
    requires IsRun(qs, steps, run) && NonNegativeRows(run[0].rows) && i < |run| && id < |run[i].rows|
    ensures var v := if id < |run[0].rows| then run[0].rows[id].version else Some(0);
            if v.Some? then run[i].rows[id].version == Some(v.value + Updates(run[i].updates, id))
            else Updates(run[i].updates, id) == 0 && run[i].rows[id] == run[0].rows[id]
  {
    RunInvariant(qs, steps, run, i, Key(0, 0, ""));
    assert VersionCounts(run[i], id);
  }

  /** The check the update relies on: while a caller holds a snapshot, an unchanged version means an
      unchanged row. */
  lemma UnchangedVersionMeansUnchangedRow(qs: seq<Request>, steps: seq<Step>, run: seq<State>, i: nat, c: nat)
    requires IsRun(qs, steps, run) && NonNegativeRows(run[0].rows) && i < |run| && c < |qs|
    requires |run[i].callers| == |qs| && run[i].callers[c].Holding?
    ensures var k := run[i].callers[c];
            k.id < |run[i].rows| && (run[i].rows[k.id].version == k.seen.version ==> run[i].rows[k.id] == k.seen)
  {
    RunInvariant(qs, steps, run, i, Key(0, 0, ""));
    assert CallerOk(run[i], qs[c], run[i].callers[c]);
  }

  /** What never changes about a row, whoever adjusts it. */
  ghost predicate Settled(before: Row, after: Row) {
    after.key == before.key && after.batchNo == before.batchNo && after.locked == before.locked && after.received == before.received &&
    (before.expiry.Some? ==> after.expiry == before.expiry)
  }

  /** Caller `c` committed an increase of the row's batch. */
  ghost predicate Increased(s: State, qs: seq<Request>, r: Row, c: nat) {
    |s.callers| == |qs| && c < |qs| && s.callers[c] == Done(Committed) && qs[c].qty > 0.0 &&
    qs[c].key == r.key && qs[c].batchNo == r.batchNo
  }

  /** A row was there from the start or a committed increase added it, nothing locked; its expiry date,
      if it has one, was there from the start or came with a committed increase of that batch. */
  ghost predicate OriginKnown(s: State, qs: seq<Request>, id: nat)
    requires id < |s.rows|
  {
    var r := s.rows[id];
    (id < |s.initial| || (r.locked == 0.0 && r.received.Some? && exists c: nat :: Increased(s, qs, r, c))) &&
    (r.expiry.None? || (id < |s.initial| && r.expiry == s.initial[id].expiry) ||
     exists c: nat :: Increased(s, qs, r, c) && qs[c].expiry == r.expiry)
  }

  lemma StepSettles(s: State, qs: seq<Request>, step: Step, id: nat)
    requires Inv(s, qs) && Enabled(s, qs, step) && id < |s.rows|
    ensures id < |Apply(s, qs, step).rows| && Settled(s.rows[id], Apply(s, qs, step).rows[id])
  {
    assert CallerOk(s, qs[step.c], s.callers[step.c]);
  }

  /** Over every interleaving a row keeps its key, its batch number, its locked amount and its receipt
      date, and an expiry date once set never changes. */
  lemma {:induction false} RowsAreSettled(qs: seq<Request>, steps: seq<Step>, run: seq<State>, i: nat, j: nat, id: nat)
    requires IsRun(qs, steps, run) && NonNegativeRows(run[0].rows) && i <= j < |run| && id < |run[i].rows|
    ensures id < |run[j].rows| && Settled(run[i].rows[id], run[j].rows[id])
    decreases j
  {
    if i < j {
      RowsAreSettled(qs, steps, run, i, j - 1, id);
      RunInvariant(qs, steps, run, j - 1, Key(0, 0, ""));
      StepSettles(run[j - 1], qs, steps[j - 1], id);
    }
  }

  lemma IncreasedStays(s: State, qs: seq<Request>, step: Step, before: Row, after: Row, c: nat)
    requires |s.callers| == |qs| && Enabled(s, qs, step) && Increased(s, qs, before, c) && Settled(before, after)
    ensures Increased(Apply(s, qs, step), qs, after, c)
  {
  }

  lemma OriginStays(s: State, qs: seq<Request>, step: Step, id: nat)
    requires Inv(s, qs) && Enabled(s, qs, step) && id < |s.rows| && OriginKnown(s, qs, id)
    ensures id < |Apply(s, qs, step).rows|
    ensures Apply(s, qs, step).rows[id].expiry == s.rows[id].expiry ==> OriginKnown(Apply(s, qs, step), qs, id)
  {
    StepSettles(s, qs, step, id);
    var before, after := s.rows[id], Apply(s, qs, step).rows[id];
    forall c: nat | Increased(s, qs, before, c) ensures Increased(Apply(s, qs, step), qs, after, c) {
      IncreasedStays(s, qs, step, before, after, c);
    }
  }

  /** Only a committed increase gives a row its expiry date. */
  lemma ExpiryComesWithIncrease(s: State, qs: seq<Request>, step: Step, id: nat)
    requires Inv(s, qs) && Enabled(s, qs, step) && id < |s.rows|
    requires id < |Apply(s, qs, step).rows| && Apply(s, qs, step).rows[id].expiry != s.rows[id].expiry
    ensures var t := Apply(s, qs, step);
            Increased(t, qs, t.rows[id], step.c) && qs[step.c].expiry == t.rows[id].expiry
  {
    assert CallerOk(s, qs[step.c], s.callers[step.c]);
  }

  lemma StepKeepsOrigin(s: State, qs: seq<Request>, step: Step, id: nat)
    requires Inv(s, qs) && Enabled(s, qs, step) && (id < |s.rows| ==> OriginKnown(s, qs, id))
    requires id < |Apply(s, qs, step).rows|
    ensures OriginKnown(Apply(s, qs, step), qs, id)
  {
    var t := Apply(s, qs, step);
    if id >= |s.rows| {
      assert CallerOk(s, qs[step.c], s.callers[step.c]);
      assert Increased(t, qs, t.rows[id], step.c);
    } else {
      OriginStays(s, qs, step, id);
      if t.rows[id].expiry != s.rows[id].expiry {
        StepSettles(s, qs, step, id);
        ExpiryComesWithIncrease(s, qs, step, id);
      }
    }
  }

  /** In every state of every run each row and each expiry date has such an origin. */
  lemma {:induction false} OriginsAreKnown(qs: seq<Request>, steps: seq<Step>, run: seq<State>, i: nat, id: nat)
    requires IsRun(qs, steps, run) && NonNegativeRows(run[0].rows) && i < |run| && id < |run[i].rows|
    ensures OriginKnown(run[i], qs, id)
  {
    if i > 0 {
      RunInvariant(qs, steps, run, i - 1, Key(0, 0, ""));
      if id < |run[i - 1].rows| {
        OriginsAreKnown(qs, steps, run, i - 1, id);
      }
      StepKeepsOrigin(run[i - 1], qs, steps[i - 1], id);
    }
  }

  /** A run continues with any enabled step. */
  lemma ExtendRun(qs: seq<Request>, steps: seq<Step>, run: seq<State>, step: Step) returns (steps': seq<Step>, run': seq<State>)
    requires IsRun(qs, steps, run) && Enabled(run[|steps|], qs, step)
    ensures IsRun(qs, steps', run') && steps' == steps + [step]
    ensures run'[0] == run[0] && run'[|steps'|] == Apply(run[|steps|], qs, step)
  {
    steps', run' := steps + [step], run + [Apply(run[|steps|], qs, step)];
  }

  // ---- One call from start to end, undisturbed ------------------------------------------------------

  class InventoryStore {
    var rows: Rows
    var movements: seq<Movement>

    constructor (rows: Rows)
      ensures this.rows == rows && movements == []
    {
      this.rows, movements := rows, [];
    }

    /** One attempt's reads; `ids` are the batches a withdrawal picks. */
    method ReadSnapshot(q: Request) returns (r: Reading, ghost ids: seq<nat>)
      ensures IsReading(rows, q, r) && ArePicks(rows, q, ids)
      ensures q.qty <= 0.0 ==> IsPicking(rows, ScopeOf(q.key), QueryOrder(q.strategy), ids) && PickReading(rows, q, ids, r)
    {
      ids := [];
      if q.qty > 0.0 {
        r := Missing;
        for k := 0 to |rows|
          invariant r.Missing? || r.Found?
          invariant r.Missing? ==> forall j | 0 <= j < k :: !Matches(rows[j], q)
          invariant r.Found? ==> r.id < k && Matches(rows[r.id], q) && forall j | 0 <= j < k && j != r.id :: !Matches(rows[j], q)
        {
          if Matches(rows[k], q) {
            if r.Found? {
              return Ambiguous, ids;
            }
            r := Found(k);
          }
        }
      } else {
        var batches := PickBatches(rows, ScopeOf(q.key), QueryOrder(q.strategy));
        ids := batches;
        var need := Abs(q.qty);
        if batches == [] || FreeSum(rows, batches) < need {
          r := Short;
        } else if rows[batches[0]].qty + q.qty < 0.0 {
          r := FirstTooSmall;
        } else {
          r := Found(batches[0]);
        }
        assert PickReading(rows, q, batches, r);
      }
    }

    /** The retry loop; `commitOk` says for each attempt whether its commit succeeds, `picks` are the
        batches each attempt of a withdrawal picked. A call stores exactly one adjustment with its
        movement or changes nothing. What its last attempt met decides the outcome: it returns normally
        with nothing stored, where the source announces a conflict, exactly after a lost attempt
        (IsOutcome). */
    method AdjustInventory(q: Request, now: int, commitOk: seq<bool>) returns (outcome: Outcome, ghost picks: seq<seq<nat>>)
      requires |commitOk| == MAX_ATTEMPTS
      modifies this
      ensures outcome != Committed ==> rows == old(rows) && movements == old(movements)
      ensures outcome == Committed ==> IsStored(old(rows), q, now, Last(picks), rows)
      ensures outcome == Committed ==>
                movements == old(movements) + [Movement(q.key, q.qty < 0.0, q.qty > 0.0, if q.qty < 0.0 then -q.qty else q.qty)]
      ensures IsOutcome(old(rows), q, commitOk, picks, outcome)
    {
      picks := [];
      for attempt := 0 to MAX_ATTEMPTS
        invariant rows == old(rows) && movements == old(movements)
        invariant |picks| == attempt && HaveLost(rows, q, commitOk, picks, attempt)
        invariant attempt == MAX_ATTEMPTS ==> IsOutcome(rows, q, commitOk, picks, GaveUp)
      {
        var reading;
        ghost var ids;
        reading, ids := ReadSnapshot(q);
        picks := picks + [ids];
        AttemptEnds(rows, q, commitOk, picks, reading);
        match reading {
          case Ambiguous => return Raised, picks;
          case Short => return Insufficient, picks;
          case FirstTooSmall => continue;
          case Missing =>
            if commitOk[attempt] {
              InsertIsStored(rows, q, now, ids);
              rows, movements := rows + [Inserted(q, now)], movements + [MovementOf(q)];
              return Committed, picks;
            } else if attempt == MAX_ATTEMPTS - 1 {
              return Raised, picks;
            }
          case Found(id) =>
            var seen := rows[id];
            if rows[id].version != Some(CurrentVersion(seen)) {
              continue;
            }
            if commitOk[attempt] {
              UpdateIsStored(rows, q, now, ids, id);
              rows, movements := rows[id := Updated(seen, q)], movements + [MovementOf(q)];
              return Committed, picks;
            } else if attempt == MAX_ATTEMPTS - 1 {
              return Raised, picks;
            }
        }
      }
      outcome := GaveUp;
    }
  }

  function Last(picks: seq<seq<nat>>): seq<nat> {
    if picks == [] then [] else picks[|picks| - 1]
  }

  /** A withdrawal's batches in picking order; an increase picks none. */
  ghost predicate ArePicks(rows: Rows, q: Request, ids: seq<nat>) {
    if q.qty > 0.0 then ids == [] else IsPicking(rows, ScopeOf(q.key), QueryOrder(q.strategy), ids)
  }

  ghost predicate Covered(rows: Rows, q: Request, ids: seq<nat>) {
    ids != [] && (forall i | 0 <= i < |ids| :: ids[i] < |rows|) && FreeSum(rows, ids) >= Abs(q.qty)
  }

  ghost predicate TooLittle(rows: Rows, q: Request, ids: seq<nat>) {
    q.qty <= 0.0 && !Covered(rows, q, ids)
  }

  /** An attempt that neither stores nor fails: the one row an increase is for has no version, or the
      picked batches cover a withdrawal, but the first alone does not, or has no version. */
  ghost predicate Lost(rows: Rows, q: Request, ids: seq<nat>) {
    if q.qty > 0.0 then exists id: nat :: IsReading(rows, q, Found(id)) && id < |rows| && rows[id].version.None?
    else Covered(rows, q, ids) && (rows[ids[0]].qty < Abs(q.qty) || rows[ids[0]].version.None?)
  }

  /** An attempt that gets to its commit: the increase's row is missing, or it or the first batch,
      which is large enough, has a version. */
  ghost predicate Storable(rows: Rows, q: Request, ids: seq<nat>) {
    if q.qty > 0.0 then
      IsReading(rows, q, Missing) || exists id: nat :: IsReading(rows, q, Found(id)) && id < |rows| && rows[id].version.Some?
    else Covered(rows, q, ids) && rows[ids[0]].qty >= Abs(q.qty) && rows[ids[0]].version.Some?
  }

  ghost predicate LosesAttempt(rows: Rows, q: Request, ids: seq<nat>, commitOk: bool) {
    Lost(rows, q, ids) || (Storable(rows, q, ids) && !commitOk)
  }

  /** The first `n` attempts were lost on these picks. */
  ghost predicate HaveLost(rows: Rows, q: Request, commitOk: seq<bool>, picks: seq<seq<nat>>, n: nat) {
    n <= |picks| && n <= |commitOk| &&
    forall a | 0 <= a < n :: ArePicks(rows, q, picks[a]) && LosesAttempt(rows, q, picks[a], commitOk[a])
  }

  /** The last attempt is the first that is not lost, or the third; what it met decides the outcome. */
  ghost predicate IsOutcome(rows: Rows, q: Request, commitOk: seq<bool>, picks: seq<seq<nat>>, outcome: Outcome)
    requires |commitOk| == MAX_ATTEMPTS
  {
    0 < |picks| <= MAX_ATTEMPTS && HaveLost(rows, q, commitOk, picks, |picks| - 1) && ArePicks(rows, q, Last(picks)) &&
    var committed := commitOk[|picks| - 1];
    (|picks| == MAX_ATTEMPTS || !LosesAttempt(rows, q, Last(picks), committed)) &&
    (outcome == Committed <==> Storable(rows, q, Last(picks)) && committed) &&
    (outcome == GaveUp <==> Lost(rows, q, Last(picks))) &&
    (outcome == Insufficient <==> TooLittle(rows, q, Last(picks))) &&
    (outcome == Raised <==> (q.qty > 0.0 && IsReading(rows, q, Ambiguous)) || (Storable(rows, q, Last(picks)) && !committed))
  }

  /** The outcome of an attempt, or None if another follows. */
  function EndOf(rows: Rows, reading: Reading, committed: bool, isLast: bool): Option<Outcome>
    requires reading.Found? ==> reading.id < |rows|
  {
    match reading
    case Ambiguous => Some(Raised)
    case Short => Some(Insufficient)
    case FirstTooSmall => if isLast then Some(GaveUp) else None
    case Missing => if committed then Some(Committed) else if isLast then Some(Raised) else None
    case Found(id) =>
      if rows[id].version.None? then (if isLast then Some(GaveUp) else None)
      else if committed then Some(Committed)
      else if isLast then Some(Raised)
      else None
  }

  lemma AttemptEnds(rows: Rows, q: Request, commitOk: seq<bool>, picks: seq<seq<nat>>, r: Reading)
    requires |commitOk| == MAX_ATTEMPTS && 0 < |picks| <= MAX_ATTEMPTS && HaveLost(rows, q, commitOk, picks, |picks| - 1)
    requires IsReading(rows, q, r) && ArePicks(rows, q, Last(picks)) && (q.qty <= 0.0 ==> PickReading(rows, q, Last(picks), r))
    ensures r.Found? ==> r.id < |rows|
    ensures var end := EndOf(rows, r, commitOk[|picks| - 1], |picks| == MAX_ATTEMPTS);
            if end.Some? then IsOutcome(rows, q, commitOk, picks, end.value) else HaveLost(rows, q, commitOk, picks, |picks|)
  {
    ReadingDecides(rows, q, r, Last(picks));
  }

  /** With the same picks at every attempt, as always for an increase, a database error reaches the
      caller exactly after an ambiguous row or three failed commits. */
  lemma RaisedIff(rows: Rows, q: Request, commitOk: seq<bool>, picks: seq<seq<nat>>, outcome: Outcome)
    requires |commitOk| == MAX_ATTEMPTS && IsOutcome(rows, q, commitOk, picks, outcome)
    requires forall a | 0 <= a < |picks| :: picks[a] == Last(picks)
    ensures outcome == Raised <==>
              (q.qty > 0.0 && IsReading(rows, q, Ambiguous)) ||
              (Storable(rows, q, Last(picks)) && forall i | 0 <= i < MAX_ATTEMPTS :: !commitOk[i])
  {
  }

  /** What an adjustment does to a row, field by field: an increase fills in a missing expiry date. */
  ghost predicate IsAdjusted(before: Row, q: Request, after: Row) {
    before.version.Some? && after.version == Some(before.version.value + 1) && after.qty == before.qty + q.qty &&
    after.key == before.key && after.batchNo == before.batchNo && after.locked == before.locked && after.received == before.received &&
    (before.expiry.Some? || q.qty <= 0.0 ==> after.expiry == before.expiry) &&
    (before.expiry.None? && q.qty > 0.0 ==> after.expiry == q.expiry)
  }

  /** Row `id` is adjusted and all others stay. */
  ghost predicate AdjustsRow(rows: Rows, q: Request, id: nat, after: Rows) {
    id < |rows| == |after| && IsAdjusted(rows[id], q, after[id]) && forall k | 0 <= k < |rows| && k != id :: after[k] == rows[k]
  }

  /** The rows after the adjustment: an increase adjusts the row of its batch or adds one, a withdrawal
      adjusts the first row it picked. */
  ghost predicate IsStored(rows: Rows, q: Request, now: int, ids: seq<nat>, after: Rows) {
    if q.qty <= 0.0 then ids != [] && AdjustsRow(rows, q, ids[0], after)
    else if exists id :: 0 <= id < |rows| && rows[id].key == q.key && rows[id].batchNo == q.batchNo then
      exists id: nat :: AdjustsRow(rows, q, id, after) && rows[id].key == q.key && rows[id].batchNo == q.batchNo
    else after == rows + [Row(q.key, q.batchNo, q.qty, 0.0, Some(0), q.expiry, Some(now))]
  }

  lemma UpdateIsStored(rows: Rows, q: Request, now: int, ids: seq<nat>, id: nat)
    requires IsReading(rows, q, Found(id)) && (q.qty <= 0.0 ==> ids != [] && id == ids[0] && id < |rows|) && rows[id].version.Some?
    ensures IsStored(rows, q, now, ids, rows[id := Updated(rows[id], q)])
  {
    assert AdjustsRow(rows, q, id, rows[id := Updated(rows[id], q)]);
  }

  lemma InsertIsStored(rows: Rows, q: Request, now: int, ids: seq<nat>)
    requires q.qty > 0.0 && IsReading(rows, q, Missing)
    ensures IsStored(rows, q, now, ids, rows + [Inserted(q, now)])
  {
    forall id | 0 <= id < |rows| ensures rows[id].key != q.key || rows[id].batchNo != q.batchNo {
      assert !Matches(rows[id], q);
    }
  }

  /** A withdrawal's first pick is of the requested key, and no row of that key with free stock goes
      before it in the order of the strategy. */
  lemma FirstPickGoesFirst(rows: Rows, q: Request, ids: seq<nat>, k: nat)
    requires q.qty <= 0.0 && ArePicks(rows, q, ids) && ids != []
    requires k < |rows| && rows[k].key == q.key && rows[k].qty > 0.0 && rows[k].qty > rows[k].locked
    ensures ids[0] < |rows| && rows[ids[0]].key == q.key && !GoesFirst(QueryOrder(q.strategy), rows[k], rows[ids[0]])
  {
    PickingMeans(rows, ScopeOf(q.key), QueryOrder(q.strategy), ids);
    assert k in ids && ids[0] in ids;
    var i :| 0 <= i < |ids| && ids[i] == k;
  }

  /** The reading of an attempt tells the cases apart. */
  lemma ReadingDecides(rows: Rows, q: Request, r: Reading, ids: seq<nat>)
    requires IsReading(rows, q, r) && ArePicks(rows, q, ids) && (q.qty <= 0.0 ==> PickReading(rows, q, ids, r))
    ensures r.Found? ==> r.id < |rows|
    ensures r.Short? <==> TooLittle(rows, q, ids)
    ensures r.Ambiguous? <==> q.qty > 0.0 && IsReading(rows, q, Ambiguous)
    ensures Lost(rows, q, ids) <==> r.FirstTooSmall? || (r.Found? && rows[r.id].version.None?)
    ensures Storable(rows, q, ids) <==> r.Missing? || (r.Found? && rows[r.id].version.Some?)
  {
  }
}
