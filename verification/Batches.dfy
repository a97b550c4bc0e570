/** Inventory rows of src/wms/service.py and the choice of batches to pick from. Quantities are
    exact reals; batch numbers are codes ordered as their texts are; dates are day or instant
    numbers. */
module Batches {
  import opened Common

  datatype Key = Key(warehouse: nat, location: nat, sku: string)

  datatype Row = Row(key: Key, batchNo: nat, qty: real, locked: real, version: Option<nat>,
                     expiry: Option<int>, received: Option<int>)

  type Rows = seq<Row>

  /** The rows a query looks at; without a location, the whole warehouse. */
  datatype Scope = Scope(warehouse: nat, location: Option<nat>, sku: string)

  datatype Strategy = Fefo | Fifo | ByBatch

  /** The same strategy orders rows differently in the picking query and in stock_out: they put
      missing receipt dates at opposite ends, and batch order is ascending in one, descending in
      the other. */
  datatype Order = QueryOrder(strategy: Strategy) | StockOutOrder(strategy: Strategy)

  function Free(r: Row): real {
    r.qty - r.locked
  }

  predicate InScope(r: Row, s: Scope) {
    r.key.warehouse == s.warehouse && r.key.sku == s.sku && (s.location.Some? ==> r.key.location == s.location.value)
  }

  predicate Pickable(r: Row, s: Scope) {
    InScope(r, s) && r.qty > 0.0 && Free(r) > 0.0
  }

  // ---- Orders -----------------------------------------------------------------------

  predicate DateLess(a: Option<int>, b: Option<int>, missingFirst: bool) {
    match (a, b)
    case (Some(x), Some(y)) => x < y
    case (None, Some(_)) => missingFirst
    case (Some(_), None) => !missingFirst
    case (None, None) => false
  }

  predicate Leq(o: Order, a: Row, b: Row) {
    var missingFirst := o.StockOutOrder?;
    match o.strategy
    case Fefo =>
      DateLess(a.expiry, b.expiry, false) ||
      (a.expiry == b.expiry && !DateLess(b.received, a.received, missingFirst))
    case Fifo =>
      DateLess(a.received, b.received, missingFirst) || (a.received == b.received && a.batchNo <= b.batchNo)
    case ByBatch => if o.QueryOrder? then a.batchNo <= b.batchNo else b.batchNo <= a.batchNo
  }

  // ---- The orders by their sort keys -------------------------------------------------

  /** An earlier date; a missing one counts as the earliest or as the latest of all. */
  predicate Sooner(a: Option<int>, b: Option<int>, missingIsEarliest: bool) {
    if missingIsEarliest then b.Some? && (a.None? || a.value < b.value)
    else a.Some? && (b.None? || a.value < b.value)
  }

  /** Row `a` must stand in front of row `b`. The query puts missing dates last and takes the lowest batch
      number first; stock_out takes missing receipts first and the highest batch number first. */
  predicate GoesFirst(o: Order, a: Row, b: Row) {
    match o
    case QueryOrder(Fefo) => Sooner(a.expiry, b.expiry, false) || (a.expiry == b.expiry && Sooner(a.received, b.received, false))
    case QueryOrder(Fifo) => Sooner(a.received, b.received, false) || (a.received == b.received && a.batchNo < b.batchNo)
    case QueryOrder(ByBatch) => a.batchNo < b.batchNo
    case StockOutOrder(Fefo) => Sooner(a.expiry, b.expiry, false) || (a.expiry == b.expiry && Sooner(a.received, b.received, true))
    case StockOutOrder(Fifo) => Sooner(a.received, b.received, true) || (a.received == b.received && a.batchNo < b.batchNo)
    case StockOutOrder(ByBatch) => a.batchNo > b.batchNo
  }

  lemma LeqIff(o: Order, a: Row, b: Row)
    ensures Leq(o, a, b) <==> !GoesFirst(o, b, a)
  {
  }

  /** The listed rows stand in a picking order. */
  ghost predicate Ordered(rows: Rows, o: Order, ids: seq<nat>) {
    (forall i | 0 <= i < |ids| :: ids[i] < |rows|) &&
    forall i, j | 0 <= i < j < |ids| :: Leq(o, rows[ids[i]], rows[ids[j]])
  }

  /** `ids` lists the pickable rows, each once, in the chosen order. */
  ghost predicate IsPicking(rows: Rows, s: Scope, o: Order, ids: seq<nat>) {
    && (forall i | 0 <= i < |ids| :: ids[i] < |rows| && Pickable(rows[ids[i]], s))
    && Distinct(ids) && Ordered(rows, o, ids)
    && (forall k | 0 <= k < |rows| && Pickable(rows[k], s) :: k in ids)
  }

  lemma LeqTotal(o: Order, a: Row, b: Row)
    ensures Leq(o, a, b) || Leq(o, b, a)
  {
  }

  lemma LeqTransitive(o: Order, a: Row, b: Row, c: Row)
    requires Leq(o, a, b) && Leq(o, b, c)
    ensures Leq(o, a, c)
  {
  }

  /** Puts one more row in its place behind all rows that do not come after it. */
  method InsertInOrder(rows: Rows, o: Order, ids: seq<nat>, id: nat) returns (r: seq<nat>)
    requires id < |rows| && Ordered(rows, o, ids)
    requires Distinct(ids) && id !in ids
    ensures Ordered(rows, o, r) && Distinct(r)
    ensures forall n :: n in r <==> n in ids || n == id
  {
    var p := |ids|;
    while p > 0 && !Leq(o, rows[ids[p - 1]], rows[id])
      invariant 0 <= p <= |ids|
      invariant forall i | p <= i < |ids| :: Leq(o, rows[id], rows[ids[i]])
    {
      p := p - 1;
      LeqTotal(o, rows[ids[p]], rows[id]);
    }
    forall i | 0 <= i < p ensures Leq(o, rows[ids[i]], rows[id]) {
      if i < p - 1 {
        LeqTransitive(o, rows[ids[i]], rows[ids[p - 1]], rows[id]);
      }
    }
    SpliceOrdered(rows, o, ids, id, p);
    SpliceElements(ids, id, p);
    r := Splice(ids, id, p);
  }

  function Splice(ids: seq<nat>, id: nat, p: nat): (r: seq<nat>)
    requires p <= |ids|
    ensures |r| == |ids| + 1
    ensures forall i | 0 <= i < |r| :: r[i] == if i < p then ids[i] else if i == p then id else ids[i - 1]
  {
    ids[..p] + [id] + ids[p..]
  }

  lemma SpliceOrdered(rows: Rows, o: Order, ids: seq<nat>, id: nat, p: nat)
    requires id < |rows| && Ordered(rows, o, ids) && p <= |ids|
    requires forall i | 0 <= i < p :: Leq(o, rows[ids[i]], rows[id])
    requires forall i | p <= i < |ids| :: Leq(o, rows[id], rows[ids[i]])
    ensures Ordered(rows, o, Splice(ids, id, p))
  {
  }

  lemma SpliceElements(ids: seq<nat>, id: nat, p: nat)
    requires Distinct(ids) && id !in ids && p <= |ids|
    ensures Distinct(Splice(ids, id, p))
    ensures forall n :: n in Splice(ids, id, p) <==> n in ids || n == id
  {
    var r := Splice(ids, id, p);
    assert r[p] == id;
    forall n | n in ids ensures n in r {
      var i :| 0 <= i < |ids| && ids[i] == n;
      assert n == if i < p then r[i] else r[i + 1];
    }
  }

  /** Exactly the rows of the SKU in the warehouse, and location if given, with more than is locked, and
      none in front of one that goes first. */
  lemma PickingMeans(rows: Rows, s: Scope, o: Order, ids: seq<nat>)
    requires IsPicking(rows, s, o, ids)
    ensures forall k: nat :: k in ids <==>
              k < |rows| && rows[k].key.warehouse == s.warehouse && rows[k].key.sku == s.sku &&
              (s.location.None? || s.location == Some(rows[k].key.location)) && rows[k].qty > 0.0 && rows[k].qty > rows[k].locked
    ensures forall i, j | 0 <= i < j < |ids| :: !GoesFirst(o, rows[ids[j]], rows[ids[i]])
  {
    forall i, j | 0 <= i < j < |ids| ensures !GoesFirst(o, rows[ids[j]], rows[ids[i]]) {
      LeqIff(o, rows[ids[i]], rows[ids[j]]);
    }
    forall k: nat ensures k in ids <==> k < |rows| && Pickable(rows[k], s) {
    }
  }

  /** Select, filter on free stock, and order. */
  method PickBatches(rows: Rows, s: Scope, o: Order) returns (ids: seq<nat>)
    ensures IsPicking(rows, s, o, ids)
  {
    ids := [];
    for k := 0 to |rows|
      invariant Ordered(rows, o, ids) && Distinct(ids)
      invariant forall n | n in ids :: n < k && Pickable(rows[n], s)
      invariant forall n | 0 <= n < k && Pickable(rows[n], s) :: n in ids
    {
      if Pickable(rows[k], s) {
        ids := InsertInOrder(rows, o, ids, k);
      }
    }
    assert forall i | 0 <= i < |ids| :: ids[i] in ids;
  }

  ghost predicate NonNegativeRows(rows: Rows) {
    forall i | 0 <= i < |rows| :: rows[i].qty >= 0.0
  }

  // ---- Totals -----------------------------------------------------------------------

  /** Free stock of the first `n` listed rows. */
  function FreeUpTo(rows: Rows, ids: seq<nat>, n: nat): real
    requires n <= |ids| && forall i | 0 <= i < |ids| :: ids[i] < |rows|
  {
    if n == 0 then 0.0 else FreeUpTo(rows, ids, n - 1) + Free(rows[ids[n - 1]])
  }

  function FreeSum(rows: Rows, ids: seq<nat>): real
    requires forall i | 0 <= i < |ids| :: ids[i] < |rows|
  {
    FreeUpTo(rows, ids, |ids|)
  }

  /** Total quantity of the rows in a scope. */
  function Total(rows: Rows, s: Scope): real {
    if rows == [] then 0.0
    else Total(rows[..|rows| - 1], s) + (if InScope(rows[|rows| - 1], s) then rows[|rows| - 1].qty else 0.0)
  }

  lemma TotalAppend(rows: Rows, r: Row, s: Scope)
    ensures Total(rows + [r], s) == Total(rows, s) + (if InScope(r, s) then r.qty else 0.0)
  {
    assert (rows + [r])[..|rows|] == rows;
  }

  lemma {:induction false} TotalUpdate(rows: Rows, i: nat, r: Row, s: Scope)
    requires i < |rows| && r.key == rows[i].key
    ensures Total(rows[i := r], s) == Total(rows, s) + (if InScope(r, s) then r.qty - rows[i].qty else 0.0)
  {
    var n := |rows| - 1;
    if i < n {
      TotalUpdate(rows[..n], i, r, s);
      assert rows[i := r][..n] == rows[..n][i := r];
    } else {
      assert rows[i := r][..n] == rows[..n];
    }
  }
}
