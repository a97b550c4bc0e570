/** The outbound operation of src/wms/service.py: one quantity taken from as many batches as needed. */
module StockOut {
  import opened Common
  import opened Batches

  datatype WarehouseStatus = Active | Maintenance | Closed

  /** The audit entry. */
  datatype OutLog = OutLog(row: nat, change: real, before: real, after: real)

  function Min(a: real, b: real): real { if a < b then a else b }

  /** What a request really takes: nothing if it is not positive. */
  function Positive(qty: real): real { if qty > 0.0 then qty else 0.0 }

  // ---- What the deduction means --------------------------------------------------------

  /** How much left the first `n` listed rows. */
  function TakenUpTo(before: Rows, after: Rows, ids: seq<nat>, n: nat): real
    requires |before| == |after| && n <= |ids| && forall i | 0 <= i < |ids| :: ids[i] < |before|
  {
    if n == 0 then 0.0
    else TakenUpTo(before, after, ids, n - 1) + (before[ids[n - 1]].qty - after[ids[n - 1]].qty)
  }

  ghost predicate OnlyQuantities(before: Rows, after: Rows, ids: seq<nat>) {
    |after| == |before| &&
    forall k | 0 <= k < |before| ::
      after[k] == before[k].(qty := after[k].qty) && (k !in ids ==> after[k] == before[k])
  }

  /** From the first `i` batches exactly as much was taken as they could give, up to the need. */
  ghost predicate GreedyUpTo(before: Rows, after: Rows, ids: seq<nat>, need: real, i: nat)
    requires |after| == |before| && i <= |ids| && forall j | 0 <= j < |ids| :: ids[j] < |before|
  {
    TakenUpTo(before, after, ids, i) == Min(need, FreeUpTo(before, ids, i))
  }

  ghost predicate IsGreedy(before: Rows, after: Rows, ids: seq<nat>, need: real)
    requires forall j | 0 <= j < |ids| :: ids[j] < |before|
  {
    OnlyQuantities(before, after, ids) && forall i | 0 <= i <= |ids| :: GreedyUpTo(before, after, ids, need, i)
  }

  function TakeFrom(rows: Rows, id: nat, take: real): Rows
    requires id < |rows|
  {
    rows[id := rows[id].(qty := rows[id].qty - take)]
  }

  /** The rows after deducting from the batches from the `i`-th on. */
  function DeductFrom(rows: Rows, ids: seq<nat>, i: nat, remaining: real): Rows
    requires i <= |ids| && forall j | 0 <= j < |ids| :: ids[j] < |rows|
    decreases |ids| - i
  {
    if i == |ids| then rows
    else
      var take := Min(remaining, Free(rows[ids[i]]));
      if take > 0.0 then DeductFrom(TakeFrom(rows, ids[i], take), ids, i + 1, remaining - take)
      else DeductFrom(rows, ids, i + 1, remaining)
  }

  // ---- The operation -----------------------------------------------------------------------

  class StockTable {
    var rows: Rows
    var logs: seq<OutLog>

    constructor (rows: Rows)
      ensures this.rows == rows && logs == []
    {
      this.rows, logs := rows, [];
    }

    /** The deduction loop: from each batch in turn, the smaller of what remains and what is free. */
    method Deduct(ids: seq<nat>, need: real)
      requires forall j | 0 <= j < |ids| :: ids[j] < |rows|
      modifies this`rows
      ensures rows == DeductFrom(old(rows), ids, 0, need)
    {
      var remaining := need;
      for i := 0 to |ids|
        invariant |rows| == |old(rows)| && DeductFrom(rows, ids, i, remaining) == DeductFrom(old(rows), ids, 0, need)
      {
        var id := ids[i];
        var take := Min(remaining, rows[id].qty - rows[id].locked);
        if take > 0.0 {
          rows := TakeFrom(rows, id, take);
          remaining := remaining - take;
        }
      }
    }

    /** A quantity that is not positive takes nothing, yet is logged; with no free batch at all it
        runs into the missing first batch. */
    method StockOut(status: Option<WarehouseStatus>, warehouse: nat, sku: string, qty: real, strategy: Strategy)
      returns (r: Result<nat, ServiceError>, ghost ids: seq<nat>)
      modifies this
      ensures r == Err(NotFound) <==> status.None?
      ensures r == Err(Unexpected) <==>
                status == Some(Active) && qty <= 0.0 && ids == [] &&
                exists k :: 0 <= k < |old(rows)| && old(rows)[k].key.warehouse == warehouse && old(rows)[k].key.sku == sku &&
                            old(rows)[k].qty > 0.0
      ensures r.Err? ==> r.error != Database && rows == old(rows) && logs == old(logs)
      ensures status.Some? ==> IsPicking(old(rows), Scope(warehouse, None, sku), StockOutOrder(strategy), ids)
      ensures status.Some? ==>
                forall k: nat :: k in ids <==>
                  k < |old(rows)| && old(rows)[k].key.warehouse == warehouse && old(rows)[k].key.sku == sku &&
                  old(rows)[k].qty > 0.0 && old(rows)[k].qty > old(rows)[k].locked
      ensures status == Some(Active) ==> (r.Ok? <==> ids != [] && qty <= FreeSum(old(rows), ids))
      ensures r.Ok? ==> status == Some(Active) && ids != [] && IsGreedy(old(rows), rows, ids, Positive(qty))
      ensures r.Ok? ==> Total(rows, Scope(warehouse, None, sku)) == Total(old(rows), Scope(warehouse, None, sku)) - Positive(qty)
      ensures r.Ok? ==> r.value == ids[0]
      ensures r.Ok? ==> logs == old(logs) + [OutLog(ids[0], -qty, rows[ids[0]].qty + qty, rows[ids[0]].qty)]
    {
      ids := [];
      if status.None? {
        return Err(NotFound), [];
      }
      var scope := Scope(warehouse, None, sku);
      var batches := PickBatches(rows, scope, StockOutOrder(strategy));
      ids := batches;
      PickingMeans(rows, scope, StockOutOrder(strategy), batches);
      if batches != [] {
        PickedRowIsStocked(rows, scope, StockOutOrder(strategy), batches);
      }
      if status.value != Active {
        return Err(Validation), batches;
      }
      if !Stocked(rows, scope) {
        return Err(Validation), batches;
      }
      var totalAvailable := FreeSum(rows, batches);
      if totalAvailable < qty {
        return Err(Validation), batches;
      }
      DeductFromIsGreedy(rows, scope, StockOutOrder(strategy), batches, qty);
      Deduct(batches, qty);
      if batches == [] {
        return Err(Unexpected), batches;  // indexing the empty list raises, and the request is rolled back
      }
      var first := rows[batches[0]];
      logs := logs + [OutLog(batches[0], -qty, first.qty + qty, first.qty)];
      r := Ok(batches[0]);
    }
  }

  /** Some row in scope has a positive quantity, free or locked. */
  predicate Stocked(rows: Rows, scope: Scope) {
    exists k :: 0 <= k < |rows| && InScope(rows[k], scope) && rows[k].qty > 0.0
  }

  lemma PickedRowIsStocked(rows: Rows, scope: Scope, o: Order, ids: seq<nat>)
    requires IsPicking(rows, scope, o, ids) && ids != []
    ensures Stocked(rows, scope)
  {
    assert Pickable(rows[ids[0]], scope);
  }

  // ---- The loop ---------------------------------------------------------------------------------

  /** Each listed row once, and free stock in all of them. */
  ghost predicate Picked(rows: Rows, s: Scope, ids: seq<nat>) {
    (forall i | 0 <= i < |ids| :: ids[i] < |rows| && Pickable(rows[ids[i]], s)) && Distinct(ids)
  }

  /** Changing a row that is not among the first `n` does not change what left those. */
  lemma {:induction false} TakenElsewhere(before: Rows, mid: Rows, ids: seq<nat>, n: nat, i: nat, take: real)
    requires |before| == |mid| && n <= i < |ids| && (forall j | 0 <= j < |ids| :: ids[j] < |before|) && Distinct(ids)
    ensures TakenUpTo(before, TakeFrom(mid, ids[i], take), ids, n) == TakenUpTo(before, mid, ids, n)
  {
    if n > 0 { TakenElsewhere(before, mid, ids, n - 1, i, take); }
  }

  /** The batches from the `i`-th on are as they were. */
  ghost predicate UntouchedFrom(before: Rows, rows: Rows, ids: seq<nat>, i: nat)
    requires |rows| == |before| && forall j | 0 <= j < |ids| :: ids[j] < |before|
  {
    forall j | i <= j < |ids| :: rows[ids[j]] == before[ids[j]]
  }

  ghost predicate GreedySoFar(before: Rows, rows: Rows, ids: seq<nat>, need: real, i: nat)
    requires |rows| == |before| && i <= |ids| && forall j | 0 <= j < |ids| :: ids[j] < |before|
  {
    forall j | 0 <= j <= i :: GreedyUpTo(before, rows, ids, need, j)
  }

  /** The state after the first `i` batches. */
  ghost predicate Deducting(before: Rows, rows: Rows, scope: Scope, ids: seq<nat>, need: real, i: nat, remaining: real) {
    i <= |ids| && (forall j | 0 <= j < |ids| :: ids[j] < |before|) &&
    OnlyQuantities(before, rows, ids) && UntouchedFrom(before, rows, ids, i) &&
    GreedySoFar(before, rows, ids, Positive(need), i) &&
    Total(rows, scope) == Total(before, scope) - TakenUpTo(before, rows, ids, i) &&
    remaining == need - TakenUpTo(before, rows, ids, i)
  }

  lemma TotalTakeFrom(rows: Rows, id: nat, take: real, scope: Scope)
    requires id < |rows| && InScope(rows[id], scope)
    ensures Total(TakeFrom(rows, id, take), scope) == Total(rows, scope) - take
  {
    TotalUpdate(rows, id, rows[id].(qty := rows[id].qty - take), scope);
  }

  /** What the next batch gives: the rest of the need if it can, else all it has. */
  lemma TakeIsGreedy(before: Rows, rows: Rows, ids: seq<nat>, need: real, i: nat, take: real)
    requires |rows| == |before| && i < |ids| && (forall j | 0 <= j < |ids| :: ids[j] < |before|) && Distinct(ids)
    requires rows[ids[i]] == before[ids[i]] && Free(before[ids[i]]) > 0.0 && GreedyUpTo(before, rows, ids, need, i)
    requires take == Min(need - TakenUpTo(before, rows, ids, i), Free(before[ids[i]]))
    ensures GreedyUpTo(before, TakeFrom(rows, ids[i], take), ids, need, i + 1)
    ensures TakenUpTo(before, TakeFrom(rows, ids[i], take), ids, i + 1) == TakenUpTo(before, rows, ids, i) + take
  {
    TakenElsewhere(before, rows, ids, i, i, take);
  }

  lemma GreedyStays(before: Rows, rows: Rows, ids: seq<nat>, need: real, i: nat, take: real)
    requires |rows| == |before| && i < |ids| && (forall j | 0 <= j < |ids| :: ids[j] < |before|) && Distinct(ids)
    requires GreedySoFar(before, rows, ids, need, i)
    ensures GreedySoFar(before, TakeFrom(rows, ids[i], take), ids, need, i)
  {
    forall j | 0 <= j <= i ensures GreedyUpTo(before, TakeFrom(rows, ids[i], take), ids, need, j) {
      TakenElsewhere(before, rows, ids, j, i, take);
      assert GreedyUpTo(before, rows, ids, need, j);
    }
  }

  /** Taking the smaller of the rest and the free stock keeps the loop's state. */
  lemma TakeNext(before: Rows, rows: Rows, scope: Scope, ids: seq<nat>, need: real, i: nat, remaining: real, take: real)
    requires Deducting(before, rows, scope, ids, need, i, remaining) && i < |ids| && Distinct(ids)
    requires Free(before[ids[i]]) > 0.0 && InScope(before[ids[i]], scope)
    requires take == Min(Positive(need) - TakenUpTo(before, rows, ids, i), Free(before[ids[i]]))
    ensures Deducting(before, TakeFrom(rows, ids[i], take), scope, ids, need, i + 1, remaining - take)
  {
    assert GreedyUpTo(before, rows, ids, Positive(need), i);
    TakeIsGreedy(before, rows, ids, Positive(need), i, take);
    GreedyStays(before, rows, ids, Positive(need), i, take);
    TotalTakeFrom(rows, ids[i], take, scope);
  }

  lemma DeductNext(before: Rows, rows: Rows, scope: Scope, ids: seq<nat>, need: real, i: nat, remaining: real)
    requires Picked(before, scope, ids) && i < |ids| && Deducting(before, rows, scope, ids, need, i, remaining)
    ensures ids[i] < |rows|
    ensures var take := Min(remaining, Free(rows[ids[i]]));
            if take > 0.0 then Deducting(before, TakeFrom(rows, ids[i], take), scope, ids, need, i + 1, remaining - take)
            else Deducting(before, rows, scope, ids, need, i + 1, remaining)
  {
    assert Pickable(before[ids[i]], scope) && Distinct(ids);
    assert GreedyUpTo(before, rows, ids, Positive(need), i);
    var rest := Positive(need) - TakenUpTo(before, rows, ids, i);
    TakeNext(before, rows, scope, ids, need, i, remaining, Min(rest, Free(before[ids[i]])));
    TakenIsPositive(before, scope, ids, need, i, rows);
  }

  lemma TakenIsPositive(before: Rows, scope: Scope, ids: seq<nat>, need: real, i: nat, rows: Rows)
    requires Picked(before, scope, ids) && i <= |ids| && |rows| == |before| && GreedyUpTo(before, rows, ids, Positive(need), i)
    ensures 0.0 <= TakenUpTo(before, rows, ids, i) <= Positive(need)
  {
    FreeSumMonotone(before, scope, ids, 0, i);
  }

  lemma DeductEnd(before: Rows, rows: Rows, scope: Scope, ids: seq<nat>, need: real, remaining: real)
    requires Picked(before, scope, ids) && Deducting(before, rows, scope, ids, need, |ids|, remaining)
    requires need <= FreeSum(before, ids)
    ensures IsGreedy(before, rows, ids, Positive(need)) && Total(rows, scope) == Total(before, scope) - Positive(need)
  {
    assert GreedyUpTo(before, rows, ids, Positive(need), |ids|);
    FreeSumMonotone(before, scope, ids, 0, |ids|);
  }

  lemma {:induction false} DeductFromKeeps(before: Rows, rows: Rows, scope: Scope, ids: seq<nat>, need: real,
                                           i: nat, remaining: real)
    returns (left: real)
    requires Picked(before, scope, ids) && Deducting(before, rows, scope, ids, need, i, remaining)
    ensures Deducting(before, DeductFrom(rows, ids, i, remaining), scope, ids, need, |ids|, left)
    decreases |ids| - i
  {
    left := remaining;
    if i < |ids| {
      DeductNext(before, rows, scope, ids, need, i, remaining);
      var take := Min(remaining, Free(rows[ids[i]]));
      if take > 0.0 {
        left := DeductFromKeeps(before, TakeFrom(rows, ids[i], take), scope, ids, need, i + 1, remaining - take);
      } else {
        left := DeductFromKeeps(before, rows, scope, ids, need, i + 1, remaining);
      }
    }
  }

  /** Deducting from all picked batches in turn is greedy in their order, and takes exactly the need. */
  lemma DeductFromIsGreedy(before: Rows, scope: Scope, o: Order, ids: seq<nat>, need: real)
    requires IsPicking(before, scope, o, ids) && need <= FreeSum(before, ids)
    ensures IsGreedy(before, DeductFrom(before, ids, 0, need), ids, Positive(need))
    ensures Total(DeductFrom(before, ids, 0, need), scope) == Total(before, scope) - Positive(need)
  {
    assert Picked(before, scope, ids);
    var left := DeductFromKeeps(before, before, scope, ids, need, 0, need);
    DeductEnd(before, DeductFrom(before, ids, 0, need), scope, ids, need, left);
  }

  // ---- Consequences ---------------------------------------------------------------------------

  /** What left batch `i`, in closed form. */
  lemma TakenFromBatch(before: Rows, after: Rows, ids: seq<nat>, need: real, i: nat)
    requires (forall j | 0 <= j < |ids| :: ids[j] < |before|) && IsGreedy(before, after, ids, need) && i < |ids|
    ensures before[ids[i]].qty - after[ids[i]].qty ==
            Min(need, FreeUpTo(before, ids, i + 1)) - Min(need, FreeUpTo(before, ids, i))
  {
    assert GreedyUpTo(before, after, ids, need, i) && GreedyUpTo(before, after, ids, need, i + 1);
  }

  lemma {:induction false} FreeSumMonotone(rows: Rows, scope: Scope, ids: seq<nat>, i: nat, j: nat)
    requires Picked(rows, scope, ids) && i <= j <= |ids|
    ensures FreeUpTo(rows, ids, i) <= FreeUpTo(rows, ids, j)
    ensures i < j ==> FreeUpTo(rows, ids, i) < FreeUpTo(rows, ids, j)
    decreases j - i
  {
    if i < j {
      assert Pickable(rows[ids[j - 1]], scope);
      FreeSumMonotone(rows, scope, ids, i, j - 1);
    }
  }

  /** Greedy in the chosen order: once something is taken from a batch, every earlier batch has been
      drained to its locked amount. */
  lemma EarlierBatchesAreDrained(before: Rows, after: Rows, scope: Scope, o: Order, ids: seq<nat>, need: real, i: nat, j: nat)
    requires IsPicking(before, scope, o, ids) && IsGreedy(before, after, ids, need) && i < j < |ids|
    requires after[ids[j]] != before[ids[j]]
    ensures after[ids[i]].qty == before[ids[i]].locked
  {
    TakenFromBatch(before, after, ids, need, i);
    TakenFromBatch(before, after, ids, need, j);
    FreeSumMonotone(before, scope, ids, i + 1, j);
    FreeSumMonotone(before, scope, ids, j, j + 1);
  }

  /** There is a pivot batch: all before it are drained, all after it untouched. */
  lemma {:induction false} PivotExists(before: Rows, after: Rows, scope: Scope, o: Order, ids: seq<nat>, need: real, n: nat)
    returns (pivot: nat)
    requires IsPicking(before, scope, o, ids) && IsGreedy(before, after, ids, need) && 0 < n <= |ids|
    ensures pivot < n
    ensures forall i | 0 <= i < pivot :: after[ids[i]].qty == before[ids[i]].locked
    ensures forall i | pivot < i < n :: after[ids[i]] == before[ids[i]]
  {
    if n == 1 || after[ids[n - 1]] != before[ids[n - 1]] {
      pivot := n - 1;
      forall i | 0 <= i < pivot ensures after[ids[i]].qty == before[ids[i]].locked {
        EarlierBatchesAreDrained(before, after, scope, o, ids, need, i, pivot);
      }
    } else {
      pivot := PivotExists(before, after, scope, o, ids, need, n - 1);
    }
  }

  /** Locked stock is never taken, and no row gains. */
  lemma LockedStockStays(before: Rows, after: Rows, scope: Scope, o: Order, ids: seq<nat>, need: real, i: nat)
    requires IsPicking(before, scope, o, ids) && IsGreedy(before, after, ids, need) && i < |ids| && need >= 0.0
    ensures before[ids[i]].locked <= after[ids[i]].qty <= before[ids[i]].qty
  {
    TakenFromBatch(before, after, ids, need, i);
    assert Pickable(before[ids[i]], scope);
  }

  /** Nothing leaves a batch while one that goes first still has free stock. */
  lemma FirstGoesOutFirst(before: Rows, after: Rows, scope: Scope, o: Order, ids: seq<nat>, need: real, first: nat, late: nat)
    requires IsPicking(before, scope, o, ids) && IsGreedy(before, after, ids, need)
    requires first < |before| && late < |before| && Pickable(before[first], scope) && GoesFirst(o, before[first], before[late])
    requires after[late] != before[late]
    ensures Free(after[first]) == 0.0
  {
    assert first in ids && late in ids;
    var i :| 0 <= i < |ids| && ids[i] == first;
    var j :| 0 <= j < |ids| && ids[j] == late;
    assert j < i ==> Leq(o, before[ids[j]], before[ids[i]]);
    LeqIff(o, before[late], before[first]);
    if i < j {
      EarlierBatchesAreDrained(before, after, scope, o, ids, need, i, j);
    }
  }

  /** First expiry first out: nothing leaves a batch while a batch that expires earlier still has
      free stock. */
  lemma FirstExpiryFirstOut(before: Rows, after: Rows, scope: Scope, ids: seq<nat>, need: real, early: nat, late: nat)
    requires IsPicking(before, scope, StockOutOrder(Fefo), ids) && IsGreedy(before, after, ids, need)
    requires early < |before| && late < |before| && Pickable(before[early], scope)
    requires before[early].expiry.Some? && (before[late].expiry.None? || before[early].expiry.value < before[late].expiry.value)
    requires after[late] != before[late]
    ensures Free(after[early]) == 0.0
  {
    FirstGoesOutFirst(before, after, scope, StockOutOrder(Fefo), ids, need, early, late);
  }

  /** First in first out, rows without a receipt date counting as oldest. */
  lemma FirstInFirstOut(before: Rows, after: Rows, scope: Scope, ids: seq<nat>, need: real, early: nat, late: nat)
    requires IsPicking(before, scope, StockOutOrder(Fifo), ids) && IsGreedy(before, after, ids, need)
    requires early < |before| && late < |before| && Pickable(before[early], scope)
    requires before[late].received.Some? && (before[early].received.None? || before[early].received.value < before[late].received.value)
    requires after[late] != before[late]
    ensures Free(after[early]) == 0.0
  {
    FirstGoesOutFirst(before, after, scope, StockOutOrder(Fifo), ids, need, early, late);
  }

  /** In batch order the highest batch number leaves first. */
  lemma HighestBatchFirstOut(before: Rows, after: Rows, scope: Scope, ids: seq<nat>, need: real, high: nat, low: nat)
    requires IsPicking(before, scope, StockOutOrder(ByBatch), ids) && IsGreedy(before, after, ids, need)
    requires high < |before| && low < |before| && Pickable(before[high], scope)
    requires before[high].batchNo > before[low].batchNo && after[low] != before[low]
    ensures Free(after[high]) == 0.0
  {
    FirstGoesOutFirst(before, after, scope, StockOutOrder(ByBatch), ids, need, high, low);
  }

  /** The audit entry's "before" quantity is the first batch's true previous quantity exactly when
      that batch alone covered the request, and the request was not negative. */
  lemma AuditBeforeIsTrueIff(before: Rows, after: Rows, scope: Scope, o: Order, ids: seq<nat>, qty: real)
    requires IsPicking(before, scope, o, ids) && IsGreedy(before, after, ids, Positive(qty)) && ids != []
    ensures after[ids[0]].qty + qty == before[ids[0]].qty <==> 0.0 <= qty <= Free(before[ids[0]])
  {
    TakenFromBatch(before, after, ids, Positive(qty), 0);
    assert Pickable(before[ids[0]], scope);
  }
}
