/** The stock count of src/wms/service.py: counted quantities replace the system's, each difference
    leaving one adjustment entry. */
module StockCount {
  import opened Common
  import opened Batches

  /** What a device sends for one SKU; older and newer clients use different fields. */
  datatype CountItem = CountItem(sku: string, actualQty: Option<real>, actualQtyCount: Option<real>)

  /** ADJUSTMENT_IN or ADJUSTMENT_OUT with the absolute difference. */
  datatype CountLog = CountLog(sku: string, isIn: bool, quantity: real)

  const TOLERANCE := 0.001
  /** The code of the batch number "COUNT". */
  const COUNT_BATCH: nat := 0

  /** `actual_qty or actual_qty_count`: a zero in the first field counts as absent. */
  function RawCount(item: CountItem): Option<real> {
    if item.actualQty.Some? && item.actualQty.value != 0.0 then item.actualQty else item.actualQtyCount
  }

  // ---- Looking up the one row of a key -----------------------------------------------

  datatype Located = Absent | One(id: nat) | Many

  function Locate(rows: Rows, key: Key): (r: Located)
    ensures r.One? ==> r.id < |rows| && rows[r.id].key == key && forall k | 0 <= k < |rows| && k != r.id :: rows[k].key != key
    ensures r.Absent? <==> forall k | 0 <= k < |rows| :: rows[k].key != key
  {
    if rows == [] then Absent
    else
      var n := |rows| - 1;
      var before := Locate(rows[..n], key);
      if rows[n].key != key then before
      else if before.Absent? then One(n)
      else Many
  }

  /** The quantity the system has for a key. */
  function SystemQty(rows: Rows, key: Key): real {
    match Locate(rows, key)
    case One(id) => rows[id].qty
    case _ => 0.0
  }

  /** At most one row for the key, as the count requires. */
  predicate AtMostOne(rows: Rows, key: Key) {
    !Locate(rows, key).Many?
  }

  // ---- One item, then all of them -------------------------------------------------------

  datatype Book = Book(rows: Rows, logs: seq<CountLog>)

  function NewRow(key: Key, qty: real, now: int): Row {
    Row(key, COUNT_BATCH, qty, 0.0, Some(0), None, Some(now))
  }

  function CountOne(b: Book, warehouse: nat, location: nat, item: CountItem, now: int): Result<Book, ServiceError> {
    var key := Key(warehouse, location, item.sku);
    match RawCount(item)
    case None => Err(Validation)
    case Some(actual) =>
      var found := Locate(b.rows, key);
      if found.Many? then Err(Database)
      else
        var diff := actual - SystemQty(b.rows, key);
        var log := CountLog(item.sku, diff > 0.0, Abs(diff));
        if Abs(diff) < TOLERANCE then Ok(b)
        else if found.Absent? then Ok(Book(b.rows + [NewRow(key, actual, now)], b.logs + [log]))
        else if diff < 0.0 && Abs(diff) > b.rows[found.id].qty then Err(Validation)
        else Ok(Book(b.rows[found.id := b.rows[found.id].(qty := actual)], b.logs + [log]))
  }

  function CountAll(b: Book, warehouse: nat, location: nat, items: seq<CountItem>, now: int): Result<Book, ServiceError> {
    if items == [] then Ok(b)
    else
      match CountAll(b, warehouse, location, items[..|items| - 1], now)
      case Err(e) => Err(e)
      case Ok(c) => CountOne(c, warehouse, location, items[|items| - 1], now)
  }

  class CountService {
    var rows: Rows
    var logs: seq<CountLog>

    constructor (rows: Rows)
      ensures this.rows == rows && logs == []
    {
      this.rows, logs := rows, [];
    }

    /** A failing item raises, and the request's transaction is rolled back. */
    method AdjustStockCount(warehouse: nat, location: Option<nat>, locationExists: bool, items: seq<CountItem>, now: int)
      returns (r: Result<nat, ServiceError>)
      modifies this
      ensures r.Err? ==> rows == old(rows) && logs == old(logs)
      ensures location.None? ==> r == Err(Validation)
      ensures location.Some? && !locationExists ==> r == Err(NotFound)
      ensures location.Some? && locationExists && items == [] ==> r == Err(Validation)
      ensures location.Some? && locationExists && items != [] ==>
                match CountAll(old(Book(rows, logs)), warehouse, location.value, items, now)
                case Err(e) => r == Err(e)
                case Ok(b) => r == Ok(|items|) && Book(rows, logs) == b
    {
      if location.None? {
        return Err(Validation);
      }
      if !locationExists {
        return Err(NotFound);
      }
      if items == [] {
        return Err(Validation);
      }
      ghost var start := Book(rows, logs);
      var newRows, newLogs := rows, logs;
      for i := 0 to |items|
        invariant rows == old(rows) && logs == old(logs)
        invariant CountAll(start, warehouse, location.value, items[..i], now) == Ok(Book(newRows, newLogs))
      {
        var item := items[i];
        assert items[..i + 1][..i] == items[..i];
        ghost var b := Book(newRows, newLogs);
        ghost var next := CountOne(b, warehouse, location.value, item, now);
        ErrorStops(start, warehouse, location.value, items, i, now);
        var actualQtyRaw := RawCount(item);
        if actualQtyRaw.None? {
          return Err(Validation);
        }
        var actual := actualQtyRaw.value;
        var key := Key(warehouse, location.value, item.sku);
        var found := Locate(newRows, key);
        if found.Many? {
          return Err(Database);
        }
        var systemQty := if found.One? then newRows[found.id].qty else 0.0;
        var diff := actual - systemQty;
        if Abs(diff) < TOLERANCE {
          continue;
        }
        if found.Absent? {
          newRows := newRows + [NewRow(key, actual, now)];
        } else if diff > 0.0 {
          newRows := newRows[found.id := newRows[found.id].(qty := actual)];
        } else {
          if Abs(diff) > newRows[found.id].qty {
            return Err(Validation);
          }
          newRows := newRows[found.id := newRows[found.id].(qty := actual)];
        }
        newLogs := newLogs + [CountLog(item.sku, diff > 0.0, Abs(diff))];
      }
      assert items[..|items|] == items;
      rows, logs := newRows, newLogs;
      r := Ok(|items|);
    }
  }

  /** The first failing item decides the outcome. */
  lemma {:induction false} ErrorStops(b: Book, warehouse: nat, location: nat, items: seq<CountItem>, i: nat, now: int)
    requires i < |items|
    ensures CountAll(b, warehouse, location, items[..i + 1], now).Err? ==>
              CountAll(b, warehouse, location, items, now) == CountAll(b, warehouse, location, items[..i + 1], now)
  {
    if i + 1 == |items| {
      assert items[..i + 1] == items;
    } else {
      ErrorStops(b, warehouse, location, items[..|items| - 1], i, now);
      assert items[..|items| - 1][..i + 1] == items[..i + 1];
    }
  }

  // ---- The ledger accounts for every change --------------------------------------------------

  function LogSum(logs: seq<CountLog>, sku: string): real {
    if logs == [] then 0.0
    else
      var l := logs[|logs| - 1];
      LogSum(logs[..|logs| - 1], sku) + (if l.sku != sku then 0.0 else if l.isIn then l.quantity else -l.quantity)
  }

  lemma LogAppend(logs: seq<CountLog>, l: CountLog, sku: string)
    ensures LogSum(logs + [l], sku) == LogSum(logs, sku) + (if l.sku != sku then 0.0 else if l.isIn then l.quantity else -l.quantity)
  {
    assert (logs + [l])[..|logs|] == logs;
  }

  lemma CountOneLedger(b: Book, warehouse: nat, location: nat, item: CountItem, now: int, sku: string)
    requires CountOne(b, warehouse, location, item, now).Ok?
    ensures var c := CountOne(b, warehouse, location, item, now).value;
            var scope := Scope(warehouse, Some(location), sku);
            Total(c.rows, scope) - Total(b.rows, scope) == LogSum(c.logs, sku) - LogSum(b.logs, sku)
  {
    var key, scope := Key(warehouse, location, item.sku), Scope(warehouse, Some(location), sku);
    var actual := RawCount(item).value;
    var diff := actual - SystemQty(b.rows, key);
    LogAppend(b.logs, CountLog(item.sku, diff > 0.0, Abs(diff)), sku);
    match Locate(b.rows, key)
    case Absent => TotalAppend(b.rows, NewRow(key, actual, now), scope);
    case One(id) => TotalUpdate(b.rows, id, b.rows[id].(qty := actual), scope);
  }

  /** For every SKU, the signed sum of the entries written by a count is exactly the change of its
      total stock at the location. */
  lemma {:induction false} LedgerMatchesChange(b: Book, warehouse: nat, location: nat, items: seq<CountItem>, now: int, sku: string)
    requires CountAll(b, warehouse, location, items, now).Ok?
    ensures var c := CountAll(b, warehouse, location, items, now).value;
            var scope := Scope(warehouse, Some(location), sku);
            Total(c.rows, scope) - Total(b.rows, scope) == LogSum(c.logs, sku) - LogSum(b.logs, sku)
  {
    if items != [] {
      var n := |items| - 1;
      LedgerMatchesChange(b, warehouse, location, items[..n], now, sku);
      CountOneLedger(CountAll(b, warehouse, location, items[..n], now).value, warehouse, location, items[n], now, sku);
    }
  }

  // ---- Every SKU ends within the tolerance of its last count -----------------------------------

  lemma {:induction false} LocateUpdate(rows: Rows, id: nat, r: Row, key: Key)
    requires id < |rows| && r.key == rows[id].key
    ensures Locate(rows[id := r], key) == Locate(rows, key)
  {
    var n := |rows| - 1;
    if id < n {
      LocateUpdate(rows[..n], id, r, key);
      assert rows[id := r][..n] == rows[..n][id := r];
    } else {
      assert rows[id := r][..n] == rows[..n];
    }
  }

  lemma LocateAppend(rows: Rows, r: Row, key: Key)
    ensures r.key != key ==> Locate(rows + [r], key) == Locate(rows, key)
    ensures r.key == key && Locate(rows, key).Absent? ==> Locate(rows + [r], key) == One(|rows|)
  {
    assert (rows + [r])[..|rows|] == rows;
  }

  /** One item puts its own SKU within the tolerance and leaves every other key alone. */
  lemma CountOneEffect(b: Book, warehouse: nat, location: nat, item: CountItem, now: int, key: Key)
    requires CountOne(b, warehouse, location, item, now).Ok?
    ensures var c := CountOne(b, warehouse, location, item, now).value;
            if key == Key(warehouse, location, item.sku) then -0.001 < RawCount(item).value - SystemQty(c.rows, key) < 0.001
            else SystemQty(c.rows, key) == SystemQty(b.rows, key)
  {
    var own, actual := Key(warehouse, location, item.sku), RawCount(item).value;
    LocateAppend(b.rows, NewRow(own, actual, now), key);
    match Locate(b.rows, own)
    case Absent =>
    case One(id) => LocateUpdate(b.rows, id, b.rows[id].(qty := actual), key);
  }

  /** The count an item gives: the first field unless it is missing or zero, then the second. */
  function CountGiven(item: CountItem): Option<real> {
    match item.actualQty
    case Some(qty) => if qty == 0.0 then item.actualQtyCount else Some(qty)
    case None => item.actualQtyCount
  }

  /** The system's quantity is within the tolerance of a count. */
  predicate Within(b: Book, key: Key, counted: Option<real>) {
    counted.Some? && -0.001 < counted.value - SystemQty(b.rows, key) < 0.001
  }

  lemma CountSetsOwn(b: Book, warehouse: nat, location: nat, item: CountItem, now: int, c: Book)
    requires CountOne(b, warehouse, location, item, now) == Ok(c)
    ensures Within(c, Key(warehouse, location, item.sku), CountGiven(item))
  {
    CountOneEffect(b, warehouse, location, item, now, Key(warehouse, location, item.sku));
  }

  lemma CountKeepsOthers(b: Book, warehouse: nat, location: nat, item: CountItem, now: int, c: Book,
                         sku: string, counted: Option<real>)
    requires CountOne(b, warehouse, location, item, now) == Ok(c) && item.sku != sku
    requires Within(b, Key(warehouse, location, sku), counted)
    ensures Within(c, Key(warehouse, location, sku), counted)
  {
    CountOneEffect(b, warehouse, location, item, now, Key(warehouse, location, sku));
  }

  /** After a successful count, each counted SKU is within 0.001 of the last count given for it,
      duplicates included. */
  lemma {:induction false} LastCountWins(b: Book, warehouse: nat, location: nat, items: seq<CountItem>, now: int, c: Book, i: nat)
    requires CountAll(b, warehouse, location, items, now) == Ok(c) && i < |items|
    requires forall j | i < j < |items| :: items[j].sku != items[i].sku
    ensures Within(c, Key(warehouse, location, items[i].sku), CountGiven(items[i]))
  {
    var n := |items| - 1;
    var before := CountAllNext(b, warehouse, location, items, now);
    if i < n {
      LastCountWins(b, warehouse, location, items[..n], now, before, i);
      assert items[..n][i] == items[i] && items[n].sku != items[i].sku;
      CountKeepsOthers(before, warehouse, location, items[n], now, c, items[i].sku, CountGiven(items[i]));
    } else {
      CountSetsOwn(before, warehouse, location, items[n], now, c);
    }
  }

  /** A successful count is a successful count of all but the last item, then of that item. */
  lemma CountAllNext(b: Book, warehouse: nat, location: nat, items: seq<CountItem>, now: int) returns (before: Book)
    requires items != [] && CountAll(b, warehouse, location, items, now).Ok?
    ensures CountAll(b, warehouse, location, items[..|items| - 1], now) == Ok(before)
    ensures CountOne(before, warehouse, location, items[|items| - 1], now) == CountAll(b, warehouse, location, items, now)
    ensures RawCount(items[|items| - 1]).Some?
  {
    before := CountAll(b, warehouse, location, items[..|items| - 1], now).value;
  }

  // ---- What a count leaves alone ---------------------------------------------------------------------

  ghost predicate IsCounted(items: seq<CountItem>, warehouse: nat, location: nat, key: Key) {
    exists i :: 0 <= i < |items| && Key(warehouse, location, items[i].sku) == key
  }

  /** Rows only change in quantity, and only those of counted SKUs; a new row is for a counted SKU, of
      batch COUNT, received now, with nothing locked. */
  ghost predicate OnlyCounts(before: Rows, after: Rows, warehouse: nat, location: nat, items: seq<CountItem>, now: int) {
    |before| <= |after| &&
    (forall k | 0 <= k < |before| ::
       after[k] == before[k].(qty := after[k].qty) &&
       (after[k].qty != before[k].qty ==> IsCounted(items, warehouse, location, before[k].key))) &&
    forall k | |before| <= k < |after| ::
      IsCounted(items, warehouse, location, after[k].key) &&
      after[k] == Row(after[k].key, COUNT_BATCH, after[k].qty, 0.0, Some(0), None, Some(now))
  }

  /** Each new entry names a counted SKU and a positive quantity, never below the tolerance. */
  ghost predicate OnlyEntries(before: seq<CountLog>, after: seq<CountLog>, items: seq<CountItem>) {
    before <= after &&
    forall k | |before| <= k < |after| ::
      after[k].quantity >= 0.001 && exists i :: 0 <= i < |items| && items[i].sku == after[k].sku
  }

  lemma CountedMore(items: seq<CountItem>, n: nat, warehouse: nat, location: nat, key: Key)
    requires n <= |items| && IsCounted(items[..n], warehouse, location, key)
    ensures IsCounted(items, warehouse, location, key)
  {
    var i :| 0 <= i < n && Key(warehouse, location, items[..n][i].sku) == key;
    assert Key(warehouse, location, items[i].sku) == key;
  }

  lemma CountOneRows(b: Book, warehouse: nat, location: nat, item: CountItem, now: int, c: Book)
    requires CountOne(b, warehouse, location, item, now) == Ok(c)
    ensures OnlyCounts(b.rows, c.rows, warehouse, location, [item], now) && OnlyEntries(b.logs, c.logs, [item])
  {
    assert [item][0] == item;
    assert IsCounted([item], warehouse, location, Key(warehouse, location, item.sku));
  }

  lemma OnlyCountsNext(a: Rows, b: Rows, c: Rows, warehouse: nat, location: nat, items: seq<CountItem>, now: int)
    requires items != [] && OnlyCounts(a, b, warehouse, location, items[..|items| - 1], now)
    requires OnlyCounts(b, c, warehouse, location, [items[|items| - 1]], now)
    ensures OnlyCounts(a, c, warehouse, location, items, now)
  {
    var n := |items| - 1;
    forall key | IsCounted(items[..n], warehouse, location, key) ensures IsCounted(items, warehouse, location, key) {
      CountedMore(items, n, warehouse, location, key);
    }
    forall key | IsCounted([items[n]], warehouse, location, key) ensures IsCounted(items, warehouse, location, key) {
      assert Key(warehouse, location, items[n].sku) == key;
    }
  }

  lemma OnlyEntriesNext(a: seq<CountLog>, b: seq<CountLog>, c: seq<CountLog>, items: seq<CountItem>)
    requires items != [] && OnlyEntries(a, b, items[..|items| - 1]) && OnlyEntries(b, c, [items[|items| - 1]])
    ensures OnlyEntries(a, c, items)
  {
    var n := |items| - 1;
    forall k | |a| <= k < |c| ensures c[k].quantity >= 0.001 && exists i :: 0 <= i < |items| && items[i].sku == c[k].sku {
      if k < |b| {
        assert c[k] == b[k];
        var i :| 0 <= i < n && items[..n][i].sku == b[k].sku;
        assert items[i].sku == c[k].sku;
      } else {
        assert items[n].sku == c[k].sku;
      }
    }
  }

  /** A count touches nothing but the quantities of the SKUs it counts. */
  lemma {:induction false} CountTouchesOnlyCounted(b: Book, warehouse: nat, location: nat, items: seq<CountItem>, now: int, c: Book)
    requires CountAll(b, warehouse, location, items, now) == Ok(c)
    ensures OnlyCounts(b.rows, c.rows, warehouse, location, items, now) && OnlyEntries(b.logs, c.logs, items)
  {
    if items != [] {
      var n := |items| - 1;
      var before := CountAllNext(b, warehouse, location, items, now);
      CountTouchesOnlyCounted(b, warehouse, location, items[..n], now, before);
      CountOneRows(before, warehouse, location, items[n], now, c);
      OnlyCountsNext(b.rows, before.rows, c.rows, warehouse, location, items, now);
      OnlyEntriesNext(b.logs, before.logs, c.logs, items);
    }
  }

  // ---- Negative stock ------------------------------------------------------------------------------

  /** One accepted item keeps quantities non-negative exactly unless it is a count of -0.001 or less
      for a SKU without a row. */
  lemma CountOneNonNegativeIff(b: Book, warehouse: nat, location: nat, item: CountItem, now: int)
    requires NonNegativeRows(b.rows) && CountOne(b, warehouse, location, item, now).Ok?
    ensures NonNegativeRows(CountOne(b, warehouse, location, item, now).value.rows) <==>
            !(Locate(b.rows, Key(warehouse, location, item.sku)).Absent? && RawCount(item).value <= -0.001)
  {
    var key, actual := Key(warehouse, location, item.sku), RawCount(item).value;
    var c := CountOne(b, warehouse, location, item, now).value;
    match Locate(b.rows, key)
    case Absent =>
      if actual <= -TOLERANCE {
        assert c.rows[|b.rows|].qty < 0.0;
      }
    case One(id) =>
      assert b.rows[id].qty >= 0.0;
  }

  /** So non-negative counts never produce negative stock. */
  lemma {:induction false} CountsKeepStockNonNegative(b: Book, warehouse: nat, location: nat, items: seq<CountItem>, now: int)
    requires NonNegativeRows(b.rows) && CountAll(b, warehouse, location, items, now).Ok?
    requires forall i | 0 <= i < |items| :: RawCount(items[i]).Some? ==> RawCount(items[i]).value >= 0.0
    ensures NonNegativeRows(CountAll(b, warehouse, location, items, now).value.rows)
  {
    if items != [] {
      var n := |items| - 1;
      CountsKeepStockNonNegative(b, warehouse, location, items[..n], now);
      CountOneNonNegativeIff(CountAll(b, warehouse, location, items[..n], now).value, warehouse, location, items[n], now);
    }
  }

  // ---- Which requests are accepted -----------------------------------------------------------------

  ghost predicate HasTwoRows(rows: Rows, key: Key) {
    exists j, k :: 0 <= j < k < |rows| && rows[j].key == key && rows[k].key == key
  }

  lemma {:induction false} ManyMeansTwo(rows: Rows, key: Key)
    requires Locate(rows, key).Many?
    ensures HasTwoRows(rows, key)
  {
    var n := |rows| - 1;
    var before := Locate(rows[..n], key);
    if rows[n].key != key {
      ManyMeansTwo(rows[..n], key);
      var j, k :| 0 <= j < k < n && rows[..n][j].key == key && rows[..n][k].key == key;
      assert rows[j].key == key && rows[k].key == key;
    } else {
      var j :| 0 <= j < n && rows[..n][j].key == key;
      assert rows[j].key == key;
    }
  }

  /** Why one item is refused: two rows for its SKU, no count, or a negative count below the stock of
      its row by the tolerance or more. */
  lemma CountOneRefusedIff(b: Book, warehouse: nat, location: nat, item: CountItem, now: int)
    ensures var r, key, given := CountOne(b, warehouse, location, item, now), Key(warehouse, location, item.sku), CountGiven(item);
            (r == Err(Database) <==> given.Some? && HasTwoRows(b.rows, key)) &&
            (r == Err(Validation) <==>
             given.None? ||
             (!HasTwoRows(b.rows, key) && given.value < 0.0 &&
              exists k :: 0 <= k < |b.rows| && b.rows[k].key == key && given.value <= b.rows[k].qty - 0.001)) &&
            (r.Err? ==> r.error in {Database, Validation})
  {
    var key := Key(warehouse, location, item.sku);
    if Locate(b.rows, key).Many? {
      ManyMeansTwo(b.rows, key);
    }
  }

  /** Any list of present, non-negative counts is accepted for a location with at most one row per
      counted SKU. */
  lemma {:induction false} CountsAreAccepted(b: Book, warehouse: nat, location: nat, items: seq<CountItem>, now: int)
    requires NonNegativeRows(b.rows)
    requires forall sku :: AtMostOne(b.rows, Key(warehouse, location, sku))
    requires forall i | 0 <= i < |items| :: RawCount(items[i]).Some? && RawCount(items[i]).value >= 0.0
    ensures CountAll(b, warehouse, location, items, now).Ok?
    ensures forall sku :: AtMostOne(CountAll(b, warehouse, location, items, now).value.rows, Key(warehouse, location, sku))
  {
    if items != [] {
      var n := |items| - 1;
      CountsAreAccepted(b, warehouse, location, items[..n], now);
      CountsKeepStockNonNegative(b, warehouse, location, items[..n], now);
      var before := CountAll(b, warehouse, location, items[..n], now).value;
      var own, actual := Key(warehouse, location, items[n].sku), RawCount(items[n]).value;
      assert AtMostOne(before.rows, own);
      forall sku ensures AtMostOne(CountOne(before, warehouse, location, items[n], now).value.rows, Key(warehouse, location, sku)) {
        assert AtMostOne(before.rows, Key(warehouse, location, sku));
        LocateAppend(before.rows, NewRow(own, actual, now), Key(warehouse, location, sku));
        match Locate(before.rows, own)
        case Absent =>
        case One(id) => LocateUpdate(before.rows, id, before.rows[id].(qty := actual), Key(warehouse, location, sku));
      }
    }
  }

  /** The guard that refuses an item: nothing or exactly zero in the first field, nothing in the second. */
  predicate CountsAsMissing(item: CountItem) {
    item.actualQty in {None, Some(0.0)} && item.actualQtyCount.None?
  }

  /** Where no SKU has two rows and no count is negative, a request is accepted if and only if none
      of its items counts as missing; a true count of zero in the first field alone does, wherever
      it stands in the list. */
  lemma AcceptedIffNoneMissing(b: Book, warehouse: nat, location: nat, items: seq<CountItem>, now: int)
    requires NonNegativeRows(b.rows)
    requires forall sku :: AtMostOne(b.rows, Key(warehouse, location, sku))
    requires forall i | 0 <= i < |items| && RawCount(items[i]).Some? :: RawCount(items[i]).value >= 0.0
    ensures CountAll(b, warehouse, location, items, now).Ok? <==> forall i | 0 <= i < |items| :: !CountsAsMissing(items[i])
    ensures CountAll(b, warehouse, location, items, now).Err? ==> CountAll(b, warehouse, location, items, now).error == Validation
  {
    if i: nat :| FirstMissing(items, i) {
      CountsAreAccepted(b, warehouse, location, items[..i], now);
      assert items[..i + 1][..i] == items[..i];
      assert CountAll(b, warehouse, location, items[..i + 1], now) == Err(Validation);
      ErrorStops(b, warehouse, location, items, i, now);
    } else {
      NoneMissing(items, |items|);
      CountsAreAccepted(b, warehouse, location, items, now);
    }
  }

  ghost predicate FirstMissing(items: seq<CountItem>, i: nat) {
    i < |items| && CountsAsMissing(items[i]) && forall j | 0 <= j < i :: !CountsAsMissing(items[j])
  }

  lemma {:induction false} NoneMissing(items: seq<CountItem>, n: nat)
    requires n <= |items| && forall i: nat :: !FirstMissing(items, i)
    ensures forall i | 0 <= i < n :: !CountsAsMissing(items[i])
  {
    if n > 0 {
      NoneMissing(items, n - 1);
      assert !FirstMissing(items, n - 1);
    }
  }
}
