/** Callers of the adjustment of src/wms/service.py that lose every attempt. Its description
    announces a conflict exception for them; they return normally with nothing stored. */
module Contention {
  import opened Common
  import opened Batches
  import opened OptimisticLock

  // ---- A lone caller -------------------------------------------------------------------------

  function Alone(rows: Rows, k: Caller): State {
    State(rows, [], [k], rows, [])
  }

  /** A reading that leads a lone caller nowhere. */
  ghost predicate LeadsNowhere(rows: Rows, q: Request, r: Reading) {
    IsReading(rows, q, r) && (r.FirstTooSmall? || (r.Found? && r.id < |rows| && rows[r.id].version.None?))
  }

  /** One attempt ends where the next one starts, with nothing changed. */
  lemma LoseAttempt(rows: Rows, q: Request, r: Reading, steps: seq<Step>, run: seq<State>, attempt: nat)
    returns (steps': seq<Step>, run': seq<State>)
    requires LeadsNowhere(rows, q, r) && attempt < MAX_ATTEMPTS
    requires IsRun([q], steps, run) && run[|steps|] == Alone(rows, Ready(attempt))
    ensures IsRun([q], steps', run') && run'[0] == run[0] && run'[|steps'|] == Alone(rows, Ready(attempt + 1))
  {
    steps', run' := ExtendRun([q], steps, run, Read(0, r));
    if r.Found? {
      assert run'[|steps'|] == Alone(rows, Holding(attempt, r.id, rows[r.id]));
      steps', run' := ExtendRun([q], steps', run', TryUpdate(0));
    }
  }

  lemma {:induction false} LoseAttempts(rows: Rows, q: Request, r: Reading, attempts: nat) returns (steps: seq<Step>, run: seq<State>)
    requires LeadsNowhere(rows, q, r) && attempts <= MAX_ATTEMPTS
    ensures IsRun([q], steps, run) && run[0].rows == rows && run[|steps|] == Alone(rows, Ready(attempts))
  {
    if attempts == 0 {
      steps, run := [], [Alone(rows, Ready(0))];
    } else {
      steps, run := LoseAttempts(rows, q, r, attempts - 1);
      steps, run := LoseAttempt(rows, q, r, steps, run, attempts - 1);
    }
  }

  /** With such a reading the caller runs out of attempts and returns normally. */
  lemma LoneCallerGivesUp(rows: Rows, q: Request, r: Reading) returns (steps: seq<Step>, run: seq<State>)
    requires LeadsNowhere(rows, q, r)
    ensures IsRun([q], steps, run) && run[0].rows == rows && run[|steps|] == Alone(rows, Done(GaveUp))
  {
    steps, run := LoseAttempts(rows, q, r, MAX_ATTEMPTS);
    steps, run := ExtendRun([q], steps, run, RunOut(0));
  }

  lemma FreeSumOfTwo(rows: Rows, a: nat, b: nat)
    requires a < |rows| && b < |rows|
    ensures FreeSum(rows, [a, b]) == Free(rows[a]) + Free(rows[b])
  {
    assert FreeUpTo(rows, [a, b], 1) == Free(rows[a]);
  }

  /** Two free batches of five and a withdrawal of eight: there is enough stock, in whatever order
      the batches are picked, and the withdrawal is lost without an error. */
  lemma TwoBatchesOfFive(key: Key, a: Row, b: Row, q: Request) returns (ids: seq<nat>, steps: seq<Step>, run: seq<State>)
    requires a.key == b.key == q.key == key && a.qty == b.qty == 5.0 && a.locked == b.locked == 0.0 && q.qty == -8.0
    ensures IsPicking([a, b], ScopeOf(key), QueryOrder(q.strategy), ids) && FreeSum([a, b], ids) == 10.0
    ensures IsRun([q], steps, run) && run[0].rows == [a, b] && run[|steps|] == Alone([a, b], Done(GaveUp))
  {
    LeqTotal(QueryOrder(q.strategy), a, b);
    ids := if Leq(QueryOrder(q.strategy), a, b) then [0, 1] else [1, 0];
    FreeSumOfTwo([a, b], ids[0], ids[1]);
    assert PickReading([a, b], q, ids, FirstTooSmall);
    steps, run := LoneCallerGivesUp([a, b], q, FirstTooSmall);
  }

  // ---- What it takes to lose three attempts ------------------------------------------------------

  /** The step is an update that passes its version check. */
  ghost predicate PassesCheck(s: State, qs: seq<Request>, step: Step) {
    step.TryUpdate? && Enabled(s, qs, step) &&
    s.rows[s.callers[step.c].id].version == Some(CurrentVersion(s.callers[step.c].seen))
  }

  /** Another caller updates the row of which this one holds a snapshot. */
  ghost predicate IsRival(s: State, qs: seq<Request>, step: Step, c: nat) {
    PassesCheck(s, qs, step) && step.c != c && c < |qs| && s.callers[c].Holding? && s.callers[c].id == s.callers[step.c].id
  }

  /** A rival updates the row, the caller's own commit fails, or the first batch it picks is too small. */
  ghost predicate Disturbs(s: State, qs: seq<Request>, step: Step, c: nat) {
    IsRival(s, qs, step, c) || step == CommitFails(c) || step == Read(c, FirstTooSmall)
  }

  /** How many of the steps between two moments disturb a caller. */
  ghost function Disturbances(qs: seq<Request>, steps: seq<Step>, run: seq<State>, c: nat, from: nat, till: nat): nat
    requires |run| == |steps| + 1 && till <= |steps|
  {
    if till <= from then 0
    else Disturbances(qs, steps, run, c, from, till - 1) + (if Disturbs(run[till - 1], qs, steps[till - 1], c) then 1 else 0)
  }

  ghost predicate Versioned(rows: Rows, q: Request) {
    forall k | 0 <= k < |rows| && rows[k].key == q.key :: rows[k].version.Some?
  }

  /** An attempt is used up only by a disturbance, and a held snapshot goes out of date only by one. */
  ghost predicate Patient(s: State, q: Request, k: Caller, n: nat) {
    match k
    case Ready(a) => a <= n
    case Inserting(a) => a <= n
    case Holding(a, id, seen) =>
      id < |s.rows| && s.rows[id].key == q.key && s.rows[id].version.Some? && seen.version.Some? &&
      seen.version.value <= s.rows[id].version.value && a + s.rows[id].version.value - seen.version.value <= n
    case Done(outcome) => outcome == GaveUp ==> n >= MAX_ATTEMPTS
  }

  /** The step moves another caller. */
  lemma OthersStep(s: State, qs: seq<Request>, step: Step, c: nat, n: nat)
    requires Inv(s, qs) && Enabled(s, qs, step) && c < |qs| && step.c != c && Versioned(s.rows, qs[c])
    requires Patient(s, qs[c], s.callers[c], n)
    ensures var t := Apply(s, qs, step);
            Patient(t, qs[c], t.callers[c], n + if Disturbs(s, qs, step, c) then 1 else 0)
  {
    if PassesCheck(s, qs, step) {
      UpdateRowInv(s, qs, step.c);
    }
  }

  /** The step is the caller's own. */
  lemma OwnStep(s: State, qs: seq<Request>, step: Step, n: nat)
    requires Inv(s, qs) && Enabled(s, qs, step) && Versioned(s.rows, qs[step.c])
    requires Patient(s, qs[step.c], s.callers[step.c], n)
    ensures var t := Apply(s, qs, step);
            Patient(t, qs[step.c], t.callers[step.c], n + if Disturbs(s, qs, step, step.c) then 1 else 0)
  {
    if step.Read? {
      ReadingIsOk(s, qs, step.c, step.reading);
      assert CallerOk(s, qs[step.c], AfterRead(s, s.callers[step.c], step.reading));
    }
  }

  lemma {:induction false} StaysPatient(qs: seq<Request>, steps: seq<Step>, run: seq<State>, c: nat, from: nat, till: nat)
    requires IsRun(qs, steps, run) && NonNegativeRows(run[0].rows) && from <= till <= |steps|
    requires c < |qs| && Versioned(run[0].rows, qs[c])
    requires |run[from].callers| == |qs| && run[from].callers[c] == Ready(0)
    ensures Inv(run[till], qs) && Versioned(run[till].rows, qs[c])
    ensures Patient(run[till], qs[c], run[till].callers[c], Disturbances(qs, steps, run, c, from, till))
    decreases till
  {
    RunInvariant(qs, steps, run, till, qs[c].key);
    KeepsVersions(qs, steps, run, c, till);
    if from < till {
      StaysPatient(qs, steps, run, c, from, till - 1);
      var n := Disturbances(qs, steps, run, c, from, till - 1);
      if steps[till - 1].c == c {
        OwnStep(run[till - 1], qs, steps[till - 1], n);
      } else {
        OthersStep(run[till - 1], qs, steps[till - 1], c, n);
      }
    }
  }

  lemma {:induction false} KeepsVersions(qs: seq<Request>, steps: seq<Step>, run: seq<State>, c: nat, i: nat)
    requires IsRun(qs, steps, run) && NonNegativeRows(run[0].rows) && i < |run|
    requires c < |qs| && Versioned(run[0].rows, qs[c])
    ensures Versioned(run[i].rows, qs[c])
  {
    if i > 0 {
      KeepsVersions(qs, steps, run, c, i - 1);
      RunInvariant(qs, steps, run, i - 1, qs[c].key);
    }
  }

  /** In every run, a request on versioned rows gives up only after three disturbances: since any
      moment before its first reading, at least three times another caller updated the very row it
      held a snapshot of, its own commit failed, or, for a withdrawal, the first batch was too small. */
  lemma GivingUpTakesThree(qs: seq<Request>, steps: seq<Step>, run: seq<State>, c: nat, from: nat, till: nat)
    requires IsRun(qs, steps, run) && NonNegativeRows(run[0].rows) && from <= till <= |steps|
    requires c < |qs| && Versioned(run[0].rows, qs[c])
    requires |run[from].callers| == |run[till].callers| == |qs|
    requires run[from].callers[c] == Ready(0) && run[till].callers[c] == Done(GaveUp)
    ensures Disturbances(qs, steps, run, c, from, till) >= MAX_ATTEMPTS
  {
    StaysPatient(qs, steps, run, c, from, till);
  }

  // ---- How many callers it takes ---------------------------------------------------------------------

  function CommittedCount(callers: seq<Caller>): nat {
    if callers == [] then 0
    else CommittedCount(callers[..|callers| - 1]) + (if callers[|callers| - 1] == Done(Committed) then 1 else 0)
  }

  lemma {:induction false} CommittedCountUpdate(callers: seq<Caller>, c: nat, k: Caller)
    requires c < |callers| && callers[c] != Done(Committed)
    ensures CommittedCount(callers[c := k]) == CommittedCount(callers) + (if k == Done(Committed) then 1 else 0)
    ensures CommittedCount(callers) < |callers|
  {
    var n := |callers| - 1;
    CommittedCountBound(callers[..n]);
    if c < n {
      CommittedCountUpdate(callers[..n], c, k);
      assert callers[c := k][..n] == callers[..n][c := k];
    } else {
      assert callers[c := k][..n] == callers[..n];
    }
  }

  lemma {:induction false} CommittedCountBound(callers: seq<Caller>)
    ensures CommittedCount(callers) <= |callers|
  {
    if callers != [] { CommittedCountBound(callers[..|callers| - 1]); }
  }

  ghost predicate CommitsWork(steps: seq<Step>) {
    forall i | 0 <= i < |steps| :: !steps[i].CommitFails?
  }

  // ---- Requests for one row ------------------------------------------------------------------------

  /** The request can only be for row `r`: it alone matches an increase, it alone has the key of a
      withdrawal. */
  ghost predicate IsFor(rows: Rows, r: nat, q: Request) {
    r < |rows| && q.qty != 0.0 && rows[r].key == q.key &&
    if q.qty > 0.0 then Matches(rows[r], q) && forall k | 0 <= k < |rows| && k != r :: !Matches(rows[k], q)
    else forall k | 0 <= k < |rows| && k != r :: rows[k].key != q.key
  }

  /** How much a request takes out. */
  function Draw(q: Request): real {
    if q.qty < 0.0 then -q.qty else 0.0
  }

  /** How much the first `n` requests take out together. */
  function Withdrawn(qs: seq<Request>, n: nat): real
    requires n <= |qs|
  {
    if n == 0 then 0.0 else Withdrawn(qs, n - 1) + Draw(qs[n - 1])
  }

  lemma {:induction false} WithdrawnGrows(qs: seq<Request>, m: nat, n: nat)
    requires m <= n <= |qs|
    ensures 0.0 <= Withdrawn(qs, m) <= Withdrawn(qs, n)
    decreases n
  {
    if m < n {
      WithdrawnGrows(qs, m, n - 1);
    } else if n > 0 {
      WithdrawnGrows(qs, n - 1, n - 1);
    }
  }

  /** The requests are all for row `r`, whose locked stock is not negative. */
  ghost predicate AllFor(rows: Rows, r: nat, qs: seq<Request>) {
    r < |rows| && rows[r].locked >= 0.0 && forall c | 0 <= c < |qs| :: IsFor(rows, r, qs[c])
  }

  /** What a table keeps when only quantities, versions and dates change. */
  ghost predicate SameShape(rows: Rows, after: Rows) {
    |after| == |rows| &&
    forall k | 0 <= k < |rows| :: after[k].key == rows[k].key && after[k].batchNo == rows[k].batchNo && after[k].locked == rows[k].locked
  }

  lemma ShapeKeepsTarget(rows: Rows, after: Rows, r: nat, q: Request)
    requires SameShape(rows, after) && IsFor(rows, r, q)
    ensures IsFor(after, r, q)
  {
    assert Matches(after[r], q) == Matches(rows[r], q);
    forall k | 0 <= k < |after| && k != r ensures Matches(after[k], q) == Matches(rows[k], q) && after[k].key == rows[k].key {
    }
  }

  /** Only the row itself can be picked for a withdrawal. */
  lemma PicksOnlyTarget(rows: Rows, r: nat, q: Request, ids: seq<nat>)
    requires IsFor(rows, r, q) && q.qty < 0.0 && IsPicking(rows, ScopeOf(q.key), QueryOrder(q.strategy), ids)
    ensures ids == [] || (ids == [r] && FreeSum(rows, ids) == Free(rows[r]))
  {
    assert |ids| > 1 ==> ids[0] != ids[1];
    forall i | 0 <= i < |ids| ensures ids[i] == r {
      assert Pickable(rows[ids[i]], ScopeOf(q.key));
    }
    if ids != [] {
      assert FreeUpTo(rows, ids, 0) == 0.0;
    }
  }

  /** A request for the row never finds it missing, nor too small beside enough free stock. */
  lemma TargetReadings(rows: Rows, r: nat, q: Request, reading: Reading)
    requires IsFor(rows, r, q) && rows[r].locked >= 0.0 && IsReading(rows, q, reading)
    ensures !reading.Missing? && !reading.FirstTooSmall?
  {
    if q.qty < 0.0 {
      var ids :| IsPicking(rows, ScopeOf(q.key), QueryOrder(q.strategy), ids) && PickReading(rows, q, ids, reading);
      PicksOnlyTarget(rows, r, q, ids);
    }
  }

  /** Free stock that covers the request makes the row its reading. */
  lemma CoveredIsFound(rows: Rows, r: nat, q: Request)
    requires IsFor(rows, r, q) && rows[r].locked >= 0.0 && Free(rows[r]) >= Draw(q)
    ensures IsReading(rows, q, Found(r))
  {
    if q.qty < 0.0 {
      var ids := [r];
      assert Pickable(rows[r], ScopeOf(q.key));
      assert FreeUpTo(rows, ids, 0) == 0.0 && FreeSum(rows, ids) == Free(rows[r]);
      assert IsPicking(rows, ScopeOf(q.key), QueryOrder(q.strategy), ids) by {
        forall k | 0 <= k < |rows| && Pickable(rows[k], ScopeOf(q.key)) ensures k in ids {
          assert rows[k].key == q.key;
        }
      }
      assert PickReading(rows, q, ids, Found(r));
    }
  }

  // ---- At least four are needed ----------------------------------------------------------------------

  ghost predicate NobodyInserts(s: State) {
    forall c | 0 <= c < |s.callers| :: !s.callers[c].Inserting?
  }

  lemma {:induction false} TableKeepsShape(qs: seq<Request>, steps: seq<Step>, run: seq<State>, r: nat, i: nat)
    requires IsRun(qs, steps, run) && NonNegativeRows(run[0].rows) && AllFor(run[0].rows, r, qs) && i < |run|
    ensures |run[i].callers| == |qs| && SameShape(run[0].rows, run[i].rows) && NobodyInserts(run[i])
  {
    if i > 0 {
      TableKeepsShape(qs, steps, run, r, i - 1);
      RunInvariant(qs, steps, run, i - 1, Key(0, 0, ""));
      StepKeepsShape(qs, run[0].rows, run[i - 1], r, steps[i - 1]);
    }
  }

  lemma StepKeepsShape(qs: seq<Request>, rows: Rows, s: State, r: nat, step: Step)
    requires Inv(s, qs) && Enabled(s, qs, step) && AllFor(rows, r, qs) && SameShape(rows, s.rows) && NobodyInserts(s)
    ensures SameShape(rows, Apply(s, qs, step).rows) && NobodyInserts(Apply(s, qs, step))
  {
    var q := qs[step.c];
    ShapeKeepsTarget(rows, s.rows, r, q);
    if step.Read? {
      TargetReadings(s.rows, r, q, step.reading);
    }
    if PassesCheck(s, qs, step) {
      UpdateRowInv(s, qs, step.c);
    }
  }

  /** When commits do not fail, every disturbance of a caller is another caller's only commit. */
  lemma {:induction false} RivalsCommit(qs: seq<Request>, steps: seq<Step>, run: seq<State>, r: nat, c: nat, i: nat)
    requires IsRun(qs, steps, run) && NonNegativeRows(run[0].rows) && AllFor(run[0].rows, r, qs) && CommitsWork(steps)
    requires i <= |steps| && c < |qs|
    ensures |run[i].callers| == |qs| && Disturbances(qs, steps, run, c, 0, i) <= CommittedCount(run[i].callers)
  {
    if i > 0 {
      RivalsCommit(qs, steps, run, r, c, i - 1);
      TableKeepsShape(qs, steps, run, r, i - 1);
      OneMoreCommit(qs, run[0].rows, run[i - 1], r, c, steps[i - 1]);
    }
  }

  lemma OneMoreCommit(qs: seq<Request>, rows: Rows, s: State, r: nat, c: nat, step: Step)
    requires Enabled(s, qs, step) && AllFor(rows, r, qs) && SameShape(rows, s.rows) && NobodyInserts(s)
    requires c < |qs| && !step.CommitFails?
    ensures CommittedCount(Apply(s, qs, step).callers) >= CommittedCount(s.callers) + if Disturbs(s, qs, step, c) then 1 else 0
  {
    var t := Apply(s, qs, step);
    if step.Read? {
      ShapeKeepsTarget(rows, s.rows, r, qs[step.c]);
      TargetReadings(s.rows, r, qs[step.c], step.reading);
    }
    assert t.callers == s.callers[step.c := t.callers[step.c]];
    CommittedCountUpdate(s.callers, step.c, t.callers[step.c]);
  }

  /** In `run` some caller gives up although no commit fails. */
  ghost predicate SomeoneGivesUp(rows: Rows, qs: seq<Request>, steps: seq<Step>, run: seq<State>, c: nat) {
    IsRun(qs, steps, run) && run[0].rows == rows && CommitsWork(steps) &&
    c < |run[|steps|].callers| && run[|steps|].callers[c] == Done(GaveUp)
  }

  lemma GivingUpTakesFour(rows: Rows, r: nat, qs: seq<Request>, steps: seq<Step>, run: seq<State>, c: nat)
    requires NonNegativeRows(rows) && AllFor(rows, r, qs) && SomeoneGivesUp(rows, qs, steps, run, c)
    requires forall d | 0 <= d < |qs| :: Versioned(rows, qs[d])
    ensures |qs| >= 4
  {
    RunInvariant(qs, steps, run, |steps|, Key(0, 0, ""));
    RivalsCommit(qs, steps, run, r, c, |steps|);
    assert IsStart(run[0], qs) && run[0].callers[c] == Ready(0);
    GivingUpTakesThree(qs, steps, run, c, 0, |steps|);
    CommittedCountUpdate(run[|steps|].callers, c, Ready(0));
  }

  // ---- Four suffice --------------------------------------------------------------------------------------

  /** Row `r` still covers the first caller and those after the next `lost`. */
  ghost predicate StillCovers(rows: Rows, r: nat, s: State, qs: seq<Request>, lost: nat) {
    SameShape(rows, s.rows) && AllFor(rows, r, qs) && s.rows[r].version.Some? && 0 < lost + 1 <= |qs| == |s.callers| &&
    Free(s.rows[r]) >= Withdrawn(qs, |qs|) - Withdrawn(qs, lost + 1) + Draw(qs[0])
  }

  /** Caller 0 has lost `lost` attempts, one to each of the next callers; the others have not started. */
  ghost predicate Losing(rows: Rows, r: nat, s: State, qs: seq<Request>, lost: nat) {
    StillCovers(rows, r, s, qs, lost) && s.callers[0] == Ready(lost) && forall d | lost < d < |qs| :: s.callers[d] == Ready(0)
  }

  /** Caller 0 and the next one hold the same snapshot of the row. */
  ghost predicate Facing(rows: Rows, r: nat, s: State, qs: seq<Request>, lost: nat) {
    StillCovers(rows, r, s, qs, lost) && lost + 1 < |qs| &&
    s.callers[0] == Holding(lost, r, s.rows[r]) && s.callers[lost + 1] == Holding(0, r, s.rows[r]) &&
    forall d | lost + 1 < d < |qs| :: s.callers[d] == Ready(0)
  }

  lemma CoversBoth(rows: Rows, r: nat, s: State, qs: seq<Request>, lost: nat)
    requires StillCovers(rows, r, s, qs, lost) && lost + 1 < |qs|
    ensures IsReading(s.rows, qs[0], Found(r)) && IsReading(s.rows, qs[lost + 1], Found(r))
  {
    WithdrawnGrows(qs, lost + 2, |qs|);
    ShapeKeepsTarget(rows, s.rows, r, qs[0]);
    ShapeKeepsTarget(rows, s.rows, r, qs[lost + 1]);
    CoveredIsFound(s.rows, r, qs[0]);
    CoveredIsFound(s.rows, r, qs[lost + 1]);
  }

  lemma BothRead(rows: Rows, r: nat, qs: seq<Request>, steps: seq<Step>, run: seq<State>, lost: nat)
    returns (steps': seq<Step>, run': seq<State>)
    requires IsRun(qs, steps, run) && CommitsWork(steps) && lost + 1 < |qs| && lost < MAX_ATTEMPTS
    requires Losing(rows, r, run[|steps|], qs, lost)
    ensures IsRun(qs, steps', run') && CommitsWork(steps') && run'[0] == run[0]
    ensures Facing(rows, r, run'[|steps'|], qs, lost)
  {
    CoversBoth(rows, r, run[|steps|], qs, lost);
    steps', run' := ExtendRun(qs, steps, run, Read(0, Found(r)));
    steps', run' := ExtendRun(qs, steps', run', Read(lost + 1, Found(r)));
  }

  /** The rival's update makes the first caller's snapshot old. */
  lemma LoseToRival(rows: Rows, r: nat, qs: seq<Request>, steps: seq<Step>, run: seq<State>, lost: nat)
    returns (steps': seq<Step>, run': seq<State>)
    requires IsRun(qs, steps, run) && CommitsWork(steps) && lost + 1 < |qs| && lost < MAX_ATTEMPTS
    requires Losing(rows, r, run[|steps|], qs, lost)
    ensures IsRun(qs, steps', run') && CommitsWork(steps') && run'[0] == run[0]
    ensures Losing(rows, r, run'[|steps'|], qs, lost + 1)
  {
    steps', run' := BothRead(rows, r, qs, steps, run, lost);
    steps', run' := ExtendRun(qs, steps', run', TryUpdate(lost + 1));
    steps', run' := ExtendRun(qs, steps', run', TryUpdate(0));
  }

  lemma {:induction false} LoseToRivals(rows: Rows, r: nat, qs: seq<Request>, lost: nat)
    returns (steps: seq<Step>, run: seq<State>)
    requires AllFor(rows, r, qs) && rows[r].version.Some? && lost < |qs| && lost <= MAX_ATTEMPTS
    requires Free(rows[r]) >= Withdrawn(qs, |qs|)
    ensures IsRun(qs, steps, run) && CommitsWork(steps) && run[0].rows == rows
    ensures Losing(rows, r, run[|steps|], qs, lost)
  {
    if lost == 0 {
      steps, run := [], [State(rows, [], seq(|qs|, _ => Ready(0)), rows, [])];
      assert Withdrawn(qs, 1) == Withdrawn(qs, 0) + Draw(qs[0]);
    } else {
      steps, run := LoseToRivals(rows, r, qs, lost - 1);
      steps, run := LoseToRival(rows, r, qs, steps, run, lost - 1);
    }
  }

  /** Contention alone: any increases and withdrawals for one versioned row, which covers the
      withdrawals together. With commits that never fail, some call can return normally with nothing
      stored if and only if there are at least four. */
  lemma {:induction false} GivesUpIffFourCallers(rows: Rows, r: nat, qs: seq<Request>)
    requires NonNegativeRows(rows) && AllFor(rows, r, qs) && forall d | 0 <= d < |qs| :: Versioned(rows, qs[d])
    requires Free(rows[r]) >= Withdrawn(qs, |qs|)
    ensures (exists steps, run, c :: SomeoneGivesUp(rows, qs, steps, run, c)) <==> |qs| >= 4
  {
    if steps: seq<Step>, run: seq<State>, c: nat :| SomeoneGivesUp(rows, qs, steps, run, c) {
      GivingUpTakesFour(rows, r, qs, steps, run, c);
    }
    if |qs| >= 4 {
      var steps, run := LoseToRivals(rows, r, qs, MAX_ATTEMPTS);
      steps, run := ExtendRun(qs, steps, run, RunOut(0));
      assert SomeoneGivesUp(rows, qs, steps, run, 0);
    }
  }
}
