/** Importing orders from a CSV file: a loop that stops attempting rows once the plan limit is hit. */
module CsvImport {
  import opened Common
  import opened OrderLifecycle
  import opened LedgerServices
  import L = Ledger
  import Effects = LedgerEffects
  import Inv = LedgerInvariants

  const MAX_IMPORT_ROWS := 500
  const MAX_IMPORT_FILE_SIZE_BYTES := 2 * 1024 * 1024

  /** A parsed row: what validation makes of it, and for a good row the id and references it would be given. */
  datatype Row =
    | Malformed(errors: seq<string>)
    | BadItems(message: string)
    | Good(order: nat, details: Details, referencesFound: bool)

  datatype Reason = FailsValidation(errors: seq<string>) | HasBadItems(message: string) | CreateFails(error: Error)

  datatype FailedRow = FailedRow(row: nat, reason: Reason)

  datatype Report = Report(totalRows: nat, imported: nat, failed: seq<FailedRow>, skippedDueToPlanLimit: nat)

  const PLAN_LIMIT: Option<Reason> := Some(CreateFails(PlanLimitExceeded))

  // ---- The loop that keeps trying every row ----

  /** One attempt: the tables afterwards, and why the row failed if it did. */
  function TryRow(db: L.Db, c: nat, row: Row): (L.Db, Option<Reason>) {
    match row
    case Malformed(errors) => (db, Some(FailsValidation(errors)))
    case BadItems(message) => (db, Some(HasBadItems(message)))
    case Good(o, details, found) =>
      match L.CreateOrder(db, c, o, details, found)
      case Success(after) => (after, None)
      case Failure(error) => (db, Some(CreateFails(error)))
  }

  function TryAll(db: L.Db, c: nat, rows: seq<Row>): (r: (L.Db, seq<Option<Reason>>))
    ensures |r.1| == |rows|
    decreases |rows|
  {
    if rows == [] then (db, [])
    else
      var (before, reasons) := TryAll(db, c, rows[..|rows| - 1]);
      var (after, reason) := TryRow(before, c, rows[|rows| - 1]);
      (after, reasons + [reason])
  }

  function CountImported(reasons: seq<Option<Reason>>): nat
    decreases |reasons|
  {
    if reasons == [] then 0
    else CountImported(reasons[..|reasons| - 1]) + if reasons[|reasons| - 1].None? then 1 else 0
  }

  /** Row numbers count from 1 and the header is row 1. */
  function FailedRows(reasons: seq<Option<Reason>>): seq<FailedRow>
    decreases |reasons|
  {
    if reasons == [] then []
    else
      var last := reasons[|reasons| - 1];
      FailedRows(reasons[..|reasons| - 1]) + if last.Some? then [FailedRow(|reasons| + 1, last.value)] else []
  }

  /** How many rows precede the first refusal for the plan limit. */
  function AttemptedRows(reasons: seq<Option<Reason>>): (k: nat)
    ensures k <= |reasons|
    ensures forall i :: 0 <= i < k ==> reasons[i] != PLAN_LIMIT
    ensures k < |reasons| ==> reasons[k] == PLAN_LIMIT
  {
    if reasons == [] || reasons[0] == PLAN_LIMIT then 0 else 1 + AttemptedRows(reasons[1..])
  }

  lemma TryOneMore(db: L.Db, c: nat, rows: seq<Row>, i: nat)
    requires i < |rows|
    ensures var (before, reasons) := TryAll(db, c, rows[..i]);
            var (after, reason) := TryRow(before, c, rows[i]);
            TryAll(db, c, rows[..i + 1]) == (after, reasons + [reason])
  {
    assert rows[..i + 1][..i] == rows[..i];
  }

  lemma CountOneMore(reasons: seq<Option<Reason>>, reason: Option<Reason>)
    ensures CountImported(reasons + [reason]) == CountImported(reasons) + if reason.None? then 1 else 0
    ensures FailedRows(reasons + [reason])
            == FailedRows(reasons) + if reason.Some? then [FailedRow(|reasons| + 2, reason.value)] else []
  {
    assert (reasons + [reason])[..|reasons|] == reasons;
  }

  lemma {:induction false} TryAllPrefix(db: L.Db, c: nat, rows: seq<Row>, k: nat)
    requires k <= |rows|
    ensures TryAll(db, c, rows).1[..k] == TryAll(db, c, rows[..k]).1
    decreases |rows|
  {
    if k < |rows| {
      TryAllPrefix(db, c, rows[..|rows| - 1], k);
      assert rows[..|rows| - 1][..k] == rows[..k];
    } else {
      assert rows[..k] == rows;
    }
  }

  /** At the limit no row can be imported, whatever it holds, and trying changes nothing. */
  lemma LimitRefusesEveryRow(db: L.Db, c: nat, row: Row)
    requires L.IncrementOrderCount(db, c) == Failure(PlanLimitExceeded)
    ensures TryRow(db, c, row).0 == db && TryRow(db, c, row).1.Some?
  {
  }

  lemma LimitReached(db: L.Db, c: nat, row: Row)
    requires TryRow(db, c, row).1 == PLAN_LIMIT
    ensures L.IncrementOrderCount(db, c) == Failure(PlanLimitExceeded) && TryRow(db, c, row).0 == db
  {
  }

  lemma StartOfTrial(db: L.Db, c: nat)
    ensures TryAll(db, c, []) == (db, []) && CountImported([]) == 0 && FailedRows([]) == []
  {
  }

  // ---- The import itself ----

  class ImportService {
    const orders: OrdersService

    constructor (orders: OrdersService)
      ensures this.orders == orders
    {
      this.orders := orders;
    }

    /** Makes exactly the orders of the rows that can make one, which are those that trying every row would make,
      * and reports the rows before the limit one by one and those from the limit on as skipped. A file that cannot
      * be imported at all changes nothing. */
    method ImportOrdersFromCsv(c: nat, fileSize: nat, parsed: Option<seq<Row>>) returns (r: Result<Report>)
      requires orders.Valid()
      modifies orders.db
      ensures r.Failure? <==> fileSize > 2_097_152 || parsed.None? || parsed.value == [] || |parsed.value| > 500
      ensures r.Failure? ==> r.error == BadRequest && orders.db.View() == old(orders.db.View())
      ensures r.Success? ==>
                var (after, reasons) := TryAll(old(orders.db.View()), c, parsed.value);
                var k := AttemptedRows(reasons);
                && orders.db.View() == after
                && TablesAfter(old(orders.db.View()), c, parsed.value, |parsed.value|, orders.db.View())
                && r.value.imported == Made(old(orders.db.View()), c, parsed.value, |parsed.value|)
                && r.value
                   == Report(|parsed.value|, CountImported(reasons), FailedRows(reasons[..k]), |parsed.value| - k)
    {
      if fileSize > MAX_IMPORT_FILE_SIZE_BYTES || parsed.None? {
        return Failure(BadRequest);
      }
      var records := parsed.value;
      if |records| == 0 || |records| > MAX_IMPORT_ROWS {
        return Failure(BadRequest);
      }
      ghost var before := orders.db.View();
      var report := ImportRows(c, records);
      RowsExactly(before, c, records, |records|);
      assert records[..|records|] == records;
      return Success(report);
    }

    /** Validates one row and, if it is good, creates its order. */
    method AttemptRow(c: nat, row: Row) returns (reason: Option<Reason>)
      requires orders.Valid()
      modifies orders.db
      ensures (orders.db.View(), reason) == TryRow(old(orders.db.View()), c, row)
    {
      match row {
        case Malformed(errors) =>
          reason := Some(FailsValidation(errors));
        case BadItems(message) =>
          reason := Some(HasBadItems(message));
        case Good(o, details, found) =>
          var outcome := orders.CreateOrder(c, o, details, found);
          reason := if outcome.Pass? then None else Some(CreateFails(outcome.error));
      }
    }

    method ImportRows(c: nat, records: seq<Row>) returns (report: Report)
      requires orders.Valid()
      modifies orders.db
      ensures var (after, reasons) := TryAll(old(orders.db.View()), c, records);
              var k := AttemptedRows(reasons);
              && orders.db.View() == after
              && report == Report(|records|, CountImported(reasons), FailedRows(reasons[..k]), |records| - k)
    {
      hide TryAll, TryRow, CountImported, FailedRows, L.IncrementOrderCount;
      var db := orders.db;
      ghost var start := db.View();
      assert records[..0] == [];
      StartOfTrial(start, c);
      var failed, imported, skipped, limitReached := [], 0, 0, false;
      ghost var reasons: seq<Option<Reason>> := [];
      for i := 0 to |records|
        invariant 0 <= skipped <= i
        invariant TryAll(start, c, records[..i]) == (db.View(), reasons)
        invariant imported == CountImported(reasons)
        invariant failed == FailedRows(reasons[..i - skipped])
        invariant forall j :: 0 <= j < i - skipped ==> reasons[j] != PLAN_LIMIT
        invariant limitReached <==> skipped > 0
        invariant limitReached ==> reasons[i - skipped] == PLAN_LIMIT
        invariant limitReached ==> L.IncrementOrderCount(db.View(), c) == Failure(PlanLimitExceeded)
      {
        TryOneMore(start, c, records, i);
        ghost var next := TryRow(db.View(), c, records[i]).1;
        CountOneMore(reasons, next);
        assert (reasons + [next])[..i - skipped] == reasons[..i - skipped];
        assert reasons[..i] == reasons && (reasons + [next])[..i + 1] == reasons + [next];
        if limitReached {
          LimitRefusesEveryRow(db.View(), c, records[i]);
          skipped := skipped + 1;
        } else {
          ghost var before := db.View();
          var reason := AttemptRow(c, records[i]);
          if reason.None? {
            imported := imported + 1;
          } else if reason == PLAN_LIMIT {
            LimitReached(before, c, records[i]);
            limitReached := true;
            skipped := skipped + 1;
          } else {
            failed := failed + [FailedRow(i + 2, reason.value)];
          }
        }
        reasons := reasons + [next];
      }
      assert records[..|records|] == records;
      report := Report(|records|, imported, failed, skipped);
    }
  }

  // ---- What the report adds up to ----

  lemma {:induction false} NothingImportedAfterLimit(db: L.Db, c: nat, rows: seq<Row>, k: nat)
    requires k < |rows| && TryAll(db, c, rows).1[k] == PLAN_LIMIT
    ensures CountImported(TryAll(db, c, rows).1) == CountImported(TryAll(db, c, rows).1[..k])
    ensures L.IncrementOrderCount(TryAll(db, c, rows).0, c) == Failure(PlanLimitExceeded)
    decreases |rows|
  {
    var n := |rows| - 1;
    var reasons := TryAll(db, c, rows).1;
    assert reasons[..n] == TryAll(db, c, rows[..n]).1;
    if k == n {
      LimitReached(TryAll(db, c, rows[..n]).0, c, rows[n]);
    } else {
      NothingImportedAfterLimit(db, c, rows[..n], k);
      LimitRefusesEveryRow(TryAll(db, c, rows[..n]).0, c, rows[n]);
      assert reasons[..n][..k] == reasons[..k];
    }
  }

  lemma {:induction false} EveryRowIsImportedOrFailed(reasons: seq<Option<Reason>>)
    ensures CountImported(reasons) + |FailedRows(reasons)| == |reasons|
    decreases |reasons|
  {
    if reasons != [] {
      EveryRowIsImportedOrFailed(reasons[..|reasons| - 1]);
    }
  }

  /** The list names rows that failed, with their reasons, in increasing order. */
  ghost predicate ListsFailures(failed: seq<FailedRow>, reasons: seq<Option<Reason>>) {
    && (forall i :: 0 <= i < |failed| ==>
          2 <= failed[i].row < |reasons| + 2 && reasons[failed[i].row - 2] == Some(failed[i].reason))
    && (forall i, j :: 0 <= i < j < |failed| ==> failed[i].row < failed[j].row)
  }

  lemma {:induction false} FailedRowNumbers(reasons: seq<Option<Reason>>)
    ensures ListsFailures(FailedRows(reasons), reasons)
    decreases |reasons|
  {
    if reasons != [] {
      var front := reasons[..|reasons| - 1];
      FailedRowNumbers(front);
      var (f, g) := (FailedRows(reasons), FailedRows(front));
      forall i | 0 <= i < |g|
        ensures f[i] == g[i] && 2 <= f[i].row < |front| + 2 && reasons[f[i].row - 2] == Some(f[i].reason)
      {
        assert front[g[i].row - 2] == Some(g[i].reason);
      }
    }
  }

  /**
   * The report of an import accounts for every row: imported, failed and skipped rows add up to the total, the skipped
   * ones are the last rows and none of them would have been imported, and the failed ones are listed in order.
   */
  lemma ReportAddsUp(db: L.Db, c: nat, rows: seq<Row>)
    ensures var (after, reasons) := TryAll(db, c, rows);
            var k := AttemptedRows(reasons);
            var failed := FailedRows(reasons[..k]);
            && CountImported(reasons) + |failed| + (|rows| - k) == |rows|
            && (forall i :: k <= i < |rows| ==> reasons[i].Some?)
            && ListsFailures(failed, reasons[..k])
  {
    var reasons := TryAll(db, c, rows).1;
    var k := AttemptedRows(reasons);
    EveryRowIsImportedOrFailed(reasons[..k]);
    FailedRowNumbers(reasons[..k]);
    if k < |rows| {
      NothingImportedAfterLimit(db, c, rows, k);
      forall i | k <= i < |rows| ensures reasons[i].Some? {
        SkippedRowFails(db, c, rows, k, i);
      }
    } else {
      assert reasons[..k] == reasons;
    }
  }

  lemma SkippedRowFails(db: L.Db, c: nat, rows: seq<Row>, k: nat, i: nat)
    requires k <= i < |rows| && TryAll(db, c, rows).1[k] == PLAN_LIMIT
    ensures TryAll(db, c, rows).1[i].Some?
  {
    if k < i {
      TryAllPrefix(db, c, rows, i);
      TryAllPrefix(db, c, rows, i + 1);
      var before := TryAll(db, c, rows[..i]);
      assert before.1[k] == TryAll(db, c, rows).1[..i][k];
      NothingImportedAfterLimit(db, c, rows[..i], k);
      LimitRefusesEveryRow(before.0, c, rows[i]);
      assert rows[..i + 1][..i] == rows[..i];
      assert TryAll(db, c, rows).1[..i + 1][i] == TryAll(db, c, rows[..i + 1]).1[i];
    }
  }

  ghost function OrderTotal(db: L.Db, c: nat): nat {
    |Inv.OrdersOf(db.orders, c)|
  }

  /** `after` is `before` with `n` more orders of company `c`, and its counter moved as far. */
  ghost predicate Grown(before: L.Db, after: L.Db, c: nat, n: nat)
    requires c in before.usages
  {
    && OrderTotal(after, c) == OrderTotal(before, c) + n
    && after.usages
       == before.usages[c := before.usages[c].(ordersThisPeriod := before.usages[c].ordersThisPeriod + n)]
    && after == before.(orders := after.orders, usages := after.usages)
    && (forall o :: o in before.orders ==> o in after.orders && after.orders[o] == before.orders[o])
  }

  lemma RowGrowth(db: L.Db, c: nat, row: Row)
    requires c in db.usages
    ensures Grown(db, TryRow(db, c, row).0, c, if TryRow(db, c, row).1.None? then 1 else 0)
  {
    if row.Good? && TryRow(db, c, row).1.None? {
      Inv.OrdersOfSet(db.orders, row.order, NewOrder(c, row.details), c);
    } else {
      assert db.usages == db.usages[c := db.usages[c]];
    }
  }

  lemma GrownTwice(a: L.Db, b: L.Db, d: L.Db, c: nat, m: nat, n: nat)
    requires c in a.usages && c in b.usages && Grown(a, b, c, m) && Grown(b, d, c, n)
    ensures Grown(a, d, c, m + n)
  {
    hide OrderTotal;
  }

  /** The number of imported rows is the growth of the company's orders and of its counter, and of nobody else's. */
  lemma {:induction false} ImportGrowth(db: L.Db, c: nat, rows: seq<Row>)
    requires c in db.usages
    ensures Grown(db, TryAll(db, c, rows).0, c, CountImported(TryAll(db, c, rows).1))
    decreases |rows|
  {
    hide TryRow, TryAll, CountImported, Grown;
    if rows == [] {
      StartOfTrial(db, c);
      GrownByNothing(db, c);
    } else {
      var n := |rows| - 1;
      assert rows[..n + 1] == rows;
      ImportGrowth(db, c, rows[..n]);
      TryOneMore(db, c, rows, n);
      var (before, reasons) := TryAll(db, c, rows[..n]);
      var (after, reason) := TryRow(before, c, rows[n]);
      CountOneMore(reasons, reason);
      StillUsed(db, before, c, CountImported(reasons));
      RowGrowth(before, c, rows[n]);
      GrownTwice(db, before, after, c, CountImported(reasons), if reason.None? then 1 else 0);
    }
  }

  lemma GrownByNothing(db: L.Db, c: nat)
    requires c in db.usages
    ensures Grown(db, db, c, 0)
  {
    assert db.usages == db.usages[c := db.usages[c]];
  }

  lemma StillUsed(before: L.Db, after: L.Db, c: nat, n: nat)
    requires c in before.usages && Grown(before, after, c, n)
    ensures c in after.usages
  {
  }

  // ---- Which rows are imported ----

  /** With that many more orders the company's counter would still be below its plan's limit. */
  predicate RoomAfter(db: L.Db, c: nat, taken: nat) {
    c in db.usages && c in db.plans &&
    match db.plans[c]
    case Free => db.usages[c].ordersThisPeriod + taken < 10
    case Starter => db.usages[c].ordersThisPeriod + taken < 500
    case Pro => true
  }

  /** Row i makes an order: it is good, its references were found, its id is neither in the table nor taken by an
    * earlier row that made one, and the earlier ones left room under the plan. */
  ghost predicate Makes(db: L.Db, c: nat, rows: seq<Row>, i: nat)
    requires i < |rows|
    decreases i, 1
  {
    && rows[i].Good? && rows[i].referencesFound
    && rows[i].order !in db.orders
    && (forall j: nat :: j < i && Makes(db, c, rows, j) ==> rows[j].Good? && rows[j].order != rows[i].order)
    && RoomAfter(db, c, Made(db, c, rows, i))
  }

  /** How many of the first n rows make an order. */
  ghost function Made(db: L.Db, c: nat, rows: seq<Row>, n: nat): nat
    requires n <= |rows|
    decreases n, 0
  {
    if n == 0 then 0 else Made(db, c, rows, n - 1) + if Makes(db, c, rows, n - 1) then 1 else 0
  }

  function RowOrder(c: nat, row: Row): Order
    requires row.Good?
  {
    Order(c, OrderStatus.Pending, None, row.details, [Mark(OrderStatus.Pending, row.details.pickup)])
  }

  /** What was in the orders table, and the orders that the first n rows make. */
  ghost predicate OrdersAfter(db: L.Db, c: nat, rows: seq<Row>, n: nat, after: map<nat, Order>)
    requires n <= |rows|
  {
    && (forall o :: o in after ==> o in db.orders || MadeBy(db, c, rows, n, o))
    && (forall o :: o in db.orders ==> o in after && after[o] == db.orders[o])
    && (forall i: nat :: i < n && Makes(db, c, rows, i) ==>
          rows[i].order in after && after[rows[i].order] == RowOrder(c, rows[i]))
  }

  ghost predicate MadeBy(db: L.Db, c: nat, rows: seq<Row>, n: nat, o: nat)
    requires n <= |rows|
  {
    exists i: nat :: i < n && Makes(db, c, rows, i) && rows[i].order == o
  }

  /** The tables once the first n rows have had their turn: the orders those rows make, and the count of them. */
  ghost predicate TablesAfter(db: L.Db, c: nat, rows: seq<Row>, n: nat, after: L.Db)
    requires n <= |rows|
  {
    && after == db.(orders := after.orders, usages := after.usages)
    && after.usages == (if c in db.usages then
                          db.usages[c := L.Usage(db.usages[c].ordersThisPeriod + Made(db, c, rows, n),
                                                 db.usages[c].teamMembersCount)]
                        else db.usages)
    && OrdersAfter(db, c, rows, n, after.orders)
  }

  /** Why a row that makes no order fails. */
  ghost predicate FailsFor(db: L.Db, c: nat, rows: seq<Row>, i: nat, reason: Reason)
    requires i < |rows|
  {
    match rows[i]
    case Malformed(errors) => reason == FailsValidation(errors)
    case BadItems(message) => reason == HasBadItems(message)
    case Good(_, _, _) =>
      reason == CreateFails(if c !in db.usages || c !in db.plans then NotFound
                            else if !RoomAfter(db, c, Made(db, c, rows, i)) then PlanLimitExceeded
                            else Conflict)
  }

  lemma OrdersStay(db: L.Db, c: nat, rows: seq<Row>, n: nat, orders: map<nat, Order>)
    requires n < |rows| && OrdersAfter(db, c, rows, n, orders) && !Makes(db, c, rows, n)
    ensures OrdersAfter(db, c, rows, n + 1, orders)
  {
    hide Makes;
  }

  lemma OrdersGrow(db: L.Db, c: nat, rows: seq<Row>, n: nat, orders: map<nat, Order>)
    requires n < |rows| && OrdersAfter(db, c, rows, n, orders) && Makes(db, c, rows, n)
    requires rows[n].Good? && rows[n].order !in orders
    ensures OrdersAfter(db, c, rows, n + 1, orders[rows[n].order := RowOrder(c, rows[n])])
  {
    hide Makes, RowOrder;
    var after := orders[rows[n].order := RowOrder(c, rows[n])];
    forall o | o in after && o !in db.orders ensures MadeBy(db, c, rows, n + 1, o) {
      if o in orders {
        assert MadeBy(db, c, rows, n, o);
      }
    }
  }

  lemma RowExactly(db: L.Db, c: nat, rows: seq<Row>, n: nat, before: L.Db)
    requires n < |rows| && TablesAfter(db, c, rows, n, before)
    ensures var (after, reason) := TryRow(before, c, rows[n]);
            && TablesAfter(db, c, rows, n + 1, after)
            && (reason.None? <==> Makes(db, c, rows, n))
            && (reason.Some? ==> FailsFor(db, c, rows, n, reason.value))
  {
    var row := rows[n];
    var (after, reason) := TryRow(before, c, row);
    if row.Good? {
      Effects.CreateOrderExactly(before, c, row.order, row.details, row.referencesFound);
      hide L.CreateOrder;
      assert Effects.RoomForOrder(before, c) <==> RoomAfter(db, c, Made(db, c, rows, n));
      assert row.order in before.orders <==>
             row.order in db.orders || MadeBy(db, c, rows, n, row.order);
    }
    if Makes(db, c, rows, n) {
      OrdersGrow(db, c, rows, n, before.orders);
    } else {
      OrdersStay(db, c, rows, n, before.orders);
    }
    hide OrdersAfter;
  }

  /** Row by row, on the tables: an import of the rows makes exactly the orders of the rows that can make one, with
    * their own details, counts them, and fails every other row for its own reason. */
  lemma {:induction false} RowsExactly(db: L.Db, c: nat, rows: seq<Row>, n: nat)
    requires n <= |rows|
    ensures var (after, reasons) := TryAll(db, c, rows[..n]);
            && TablesAfter(db, c, rows, n, after)
            && |reasons| == n && CountImported(reasons) == Made(db, c, rows, n)
            && (forall i: nat :: i < n ==>
                  && (reasons[i].None? <==> Makes(db, c, rows, i))
                  && (reasons[i].Some? ==> FailsFor(db, c, rows, i, reasons[i].value)))
  {
    hide Makes, FailsFor, TryRow, TryAll, CountImported, TablesAfter;
    if n == 0 {
      NoRowsYet(db, c, rows);
    } else {
      RowsExactly(db, c, rows, n - 1);
      var (before, reasons) := TryAll(db, c, rows[..n - 1]);
      TryOneMore(db, c, rows, n - 1);
      RowExactly(db, c, rows, n - 1, before);
      CountOneMore(reasons, TryRow(before, c, rows[n - 1]).1);
    }
  }

  lemma NoRowsYet(db: L.Db, c: nat, rows: seq<Row>)
    ensures rows[..0] == [] && TryAll(db, c, []) == (db, []) && CountImported([]) == 0
    ensures TablesAfter(db, c, rows, 0, db)
  {
    if c in db.usages {
      assert db.usages[c := db.usages[c]] == db.usages;
    }
  }

  /** How many more orders the company's plan has room for, of n. */
  function RoomOf(db: L.Db, c: nat, n: nat): nat
    requires c in db.usages && c in db.plans
  {
    var used := db.usages[c].ordersThisPeriod;
    match db.plans[c]
    case Free => if used + n <= 10 then n else Max(0, 10 - used)
    case Starter => if used + n <= 500 then n else Max(0, 500 - used)
    case Pro => n
  }

  /** Of n good rows with new ids and references as many are imported as the plan has room for, and all if that is
    * more. */
  lemma GoodFileExactly(db: L.Db, c: nat, rows: seq<Row>)
    requires c in db.usages && c in db.plans
    requires forall i :: 0 <= i < |rows| ==> rows[i].Good? && rows[i].referencesFound && rows[i].order !in db.orders
    requires forall i, j :: 0 <= i < j < |rows| ==> rows[i].order != rows[j].order
    ensures CountImported(TryAll(db, c, rows).1) == RoomOf(db, c, |rows|)
  {
    GoodRowsMake(db, c, rows, |rows|);
    RowsExactly(db, c, rows, |rows|);
    assert rows[..|rows|] == rows;
  }

  lemma {:induction false} GoodRowsMake(db: L.Db, c: nat, rows: seq<Row>, n: nat)
    requires n <= |rows| && c in db.usages && c in db.plans
    requires forall i :: 0 <= i < |rows| ==> rows[i].Good? && rows[i].referencesFound && rows[i].order !in db.orders
    requires forall i, j :: 0 <= i < j < |rows| ==> rows[i].order != rows[j].order
    ensures Made(db, c, rows, n) == RoomOf(db, c, n)
  {
    if n > 0 {
      GoodRowsMake(db, c, rows, n - 1);
      assert Makes(db, c, rows, n - 1) <==> RoomAfter(db, c, Made(db, c, rows, n - 1));
    }
  }
}
