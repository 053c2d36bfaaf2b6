/** The read-only views over a snapshot of the two tables: the low-stock
    alert list, the asset valuation, the monthly shipment pivot and the
    per-client return rate. None of them changes either table. */
module Reports {
  import opened Tables
  import opened Aggregates
  import opened Posting

  // ---------------------------------------------------------------------
  // Low-stock alert

  /** A title is flagged when its stock is at or below its safety stock. */
  predicate IsLow(b: Book) {
    b.qty <= b.safety
  }

  /** The flagged rows, in table order. */
  function Alerts(rows: seq<Book>): seq<Book> {
    if rows == [] then []
    else
      var last := rows[|rows| - 1];
      Alerts(rows[..|rows| - 1]) + (if IsLow(last) then [last] else [])
  }

  /** Walk the table once and collect every flagged row. */
  method LowStockAlerts(rows: seq<Book>) returns (alerts: seq<Book>)
    ensures alerts == Alerts(rows)
    ensures forall b :: b in alerts <==> b in rows && b.qty <= b.safety
  {
    alerts := [];
    var i := 0;
    while i < |rows|
      invariant 0 <= i <= |rows|
      invariant alerts == Alerts(rows[..i])
    {
      assert rows[..i + 1][..i] == rows[..i];
      if rows[i].qty <= rows[i].safety {
        alerts := alerts + [rows[i]];
      }
      i := i + 1;
    }
    assert rows[..i] == rows;
    AlertsExactly(rows);
  }

  /** A row is in the alert list exactly when it is in the table and at or
      below its threshold. */
  lemma {:induction false} AlertsExactly(rows: seq<Book>)
    ensures forall b :: b in Alerts(rows) <==> b in rows && IsLow(b)
  {
    if rows != [] {
      var init := rows[..|rows| - 1];
      AlertsExactly(init);
      assert rows == init + [rows[|rows| - 1]];
    }
  }

  /** The alert list keeps table order: the alerts of two stretches of the
      table, one after the other. */
  lemma {:induction false} AlertsConcat(a: seq<Book>, b: seq<Book>)
    ensures Alerts(a + b) == Alerts(a) + Alerts(b)
  {
    if b == [] {
      assert a + b == a;
    } else {
      var init := b[..|b| - 1];
      assert (a + b)[..|a + b| - 1] == a + init;
      AlertsConcat(a, init);
    }
  }

  // ---------------------------------------------------------------------
  // Asset valuation

  /** The value column: quantity on hand times unit price, row by row. */
  function Valuation(rows: seq<Book>): seq<int> {
    seq(|rows|, i requires 0 <= i < |rows| => rows[i].qty * rows[i].price)
  }

  /** The total asset value of the inventory, row by row; it is the sum of
      the value column. */
  function TotalAsset(rows: seq<Book>): (r: int)
    ensures r == Sum(Valuation(rows))
  {
    if rows == [] then 0
    else
      assert Valuation(rows)[1..] == Valuation(rows[1..]);
      rows[0].qty * rows[0].price + TotalAsset(rows[1..])
  }

  lemma TotalAssetConcat(a: seq<Book>, b: seq<Book>)
    ensures TotalAsset(a + b) == TotalAsset(a) + TotalAsset(b)
  {
    assert Valuation(a + b) == Valuation(a) + Valuation(b);
    SumConcat(Valuation(a), Valuation(b));
  }

  /** With no negative stock and no negative price the total is not negative. */
  lemma {:induction false} TotalAssetNonNegative(rows: seq<Book>)
    requires NonNegative(rows)
    requires forall i :: 0 <= i < |rows| ==> rows[i].price >= 0
    ensures TotalAsset(rows) >= 0
  {
    if rows != [] {
      TotalAssetNonNegative(rows[1..]);
      assert rows[0].qty * rows[0].price >= 0;
    }
  }

  /** Overwriting one row's quantity changes the total by the change in
      quantity times that row's price. */
  lemma {:induction false} TotalAssetUpdate(rows: seq<Book>, i: nat, q: int)
    requires i < |rows|
    ensures TotalAsset(rows[i := rows[i].(qty := q)])
            == TotalAsset(rows) + (q - rows[i].qty) * rows[i].price
  {
    var rows' := rows[i := rows[i].(qty := q)];
    if i == 0 {
      assert rows'[1..] == rows[1..];
      assert q * rows[0].price == rows[0].qty * rows[0].price + (q - rows[0].qty) * rows[0].price;
    } else {
      assert rows'[1..] == rows[1..][i - 1 := rows[i].(qty := q)];
      TotalAssetUpdate(rows[1..], i - 1, q);
    }
  }

  /** A successful posting revalues the inventory by exactly the moved
      quantity times the unit price of the row it moved. */
  lemma PostingRevalues(s: Snapshot, p: Submission)
    requires Admissible(s.inventory, p)
    ensures var r := Step(s, p);
            r.outcome.Posted? ==>
              TotalAsset(r.next.inventory)
              == TotalAsset(s.inventory)
                 + Signed(p.kind, p.quantity) * s.inventory[FirstIndex(s.inventory, p.title)].price
  {
    var r := Step(s, p);
    if r.outcome.Posted? {
      var i := FirstIndex(s.inventory, p.title);
      TotalAssetUpdate(s.inventory, i, r.outcome.after);
    }
  }

  // ---------------------------------------------------------------------
  // Monthly shipment pivot

  predicate IsDigit(c: char) {
    '0' <= c <= '9'
  }

  /** The shape the posting form writes: `YYYY-MM-DD HH:MM:SS`. */
  predicate IsTimestamp(ts: string) {
    && |ts| == 19
    && ts[4] == '-' && ts[7] == '-' && ts[10] == ' ' && ts[13] == ':' && ts[16] == ':'
    && forall k :: 0 <= k < 19 && k !in {4, 7, 10, 13, 16} ==> IsDigit(ts[k])
  }

  /** The `YYYY-MM` month of a timestamp: for the form's own shape, the year
      field, a dash and the month field. */
  function Month(timestamp: string): (m: string)
    ensures IsTimestamp(timestamp) ==>
              && |m| == 7 && m[..4] == timestamp[..4] && m[4] == '-' && m[5..] == timestamp[5..7]
              && forall k :: 0 <= k < 7 && k != 4 ==> IsDigit(m[k])
  {
    if |timestamp| >= 7 then timestamp[..7] else timestamp
  }

  /** Two postings land in the same pivot row exactly when they share year and
      month; the day and the time of day do not matter. */
  lemma SameMonth(t1: string, t2: string)
    requires IsTimestamp(t1) && IsTimestamp(t2)
    ensures Month(t1) == Month(t2) <==> t1[..4] == t2[..4] && t1[5..7] == t2[5..7]
  {
    if t1[..4] == t2[..4] && t1[5..7] == t2[5..7] {
      assert Month(t1) == t1[..4] + "-" + t1[5..7];
      assert Month(t2) == t2[..4] + "-" + t2[5..7];
    }
  }

  function MonthOf(r: Record): string { Month(r.timestamp) }

  /** Rows are months, columns titles, cells the shipped quantity (zero
      where a title had no shipment that month). */
  datatype Pivot = Pivot(months: seq<string>, titles: seq<string>, cells: seq<seq<int>>)

  datatype SalesReport = NoTransactions | NoSales | Sales(pivot: Pivot)

  /** One row per month: the per-title totals of that month's records. */
  function Grid(sales: seq<Record>, months: seq<string>, titles: seq<string>): (g: seq<seq<int>>)
    ensures |g| == |months|
    ensures forall i :: 0 <= i < |months| ==> g[i] == Tally(Where(sales, MonthOf, months[i]), TitleOf, titles)
  {
    if months == [] then []
    else [Tally(Where(sales, MonthOf, months[0]), TitleOf, titles)] + Grid(sales, months[1..], titles)
  }

  /** The pivot of a set of shipments: each month and each title listed once,
      every shipment counted, and each cell the month's total for the title. */
  function PivotOf(sales: seq<Record>): (p: Pivot)
    ensures Distinct(p.months) && Distinct(p.titles)
    ensures forall e :: e in sales ==> MonthOf(e) in p.months && e.title in p.titles
    ensures |p.cells| == |p.months|
    ensures forall i :: 0 <= i < |p.months| ==> |p.cells[i]| == |p.titles|
    ensures forall i, j :: 0 <= i < |p.months| && 0 <= j < |p.titles| ==>
              p.cells[i][j] == QtyTotal(Where(Where(sales, MonthOf, p.months[i]), TitleOf, p.titles[j]))
  {
    var months := Keys(sales, MonthOf);
    var titles := Keys(sales, TitleOf);
    forall e | e in sales ensures e.title in titles {
      assert TitleOf(e) in titles;
    }
    Pivot(months, titles, Grid(sales, months, titles))
  }

  /** The monthly sales tab: nothing without history, nothing without a
      shipment, otherwise the pivot of the shipments. */
  function MonthlySales(history: seq<Record>): (r: SalesReport)
    ensures r == NoTransactions <==> history == []
    ensures r == NoSales <==> history != [] && forall e :: e in history ==> e.kind != Ship
    ensures r.Sales? ==> r.pivot == PivotOf(Where(history, KindOf, Ship))
  {
    WhereEmpty(history, KindOf, Ship);
    if history == [] then NoTransactions
    else
      var sales := Where(history, KindOf, Ship);
      if sales == [] then NoSales else Sales(PivotOf(sales))
  }

  /** The sum of every cell of a grid. */
  function GridTotal(g: seq<seq<int>>): int {
    if g == [] then 0 else Sum(g[0]) + GridTotal(g[1..])
  }

  /** Every month and every title of the pivot has at least one shipment:
      no empty row or column is invented. */
  lemma MonthlySalesKeysOccur(history: seq<Record>)
    requires exists i :: 0 <= i < |history| && history[i].kind == Ship
    ensures var p := MonthlySales(history).pivot;
            var sales := Where(history, KindOf, Ship);
            && (forall i :: 0 <= i < |p.months| ==> Where(sales, MonthOf, p.months[i]) != [])
            && (forall j :: 0 <= j < |p.titles| ==> Where(sales, TitleOf, p.titles[j]) != [])
  {
    var sales := Where(history, KindOf, Ship);
    KeysOccur(sales, MonthOf);
    KeysOccur(sales, TitleOf);
  }

  /** All cells of the pivot add up to the total quantity shipped. */
  lemma MonthlySalesTotal(history: seq<Record>)
    requires exists i :: 0 <= i < |history| && history[i].kind == Ship
    ensures GridTotal(MonthlySales(history).pivot.cells) == QtyTotal(Where(history, KindOf, Ship))
  {
    var sales := Where(history, KindOf, Ship);
    var months := Keys(sales, MonthOf);
    GridByMonth(sales, months, Keys(sales, TitleOf));
    TallyPartition(sales, MonthOf, months);
  }

  /** Each month row sums to that month's total, as long as the columns list
      every title once. */
  lemma {:induction false} GridByMonth(sales: seq<Record>, months: seq<string>, titles: seq<string>)
    requires Distinct(titles)
    requires forall e :: e in sales ==> e.title in titles
    ensures GridTotal(Grid(sales, months, titles)) == Sum(Tally(sales, MonthOf, months))
  {
    if months != [] {
      var inMonth := Where(sales, MonthOf, months[0]);
      TallyPartition(inMonth, TitleOf, titles);
      GridByMonth(sales, months[1..], titles);
      assert Grid(sales, months, titles)[1..] == Grid(sales, months[1..], titles);
      assert Tally(sales, MonthOf, months)[1..] == Tally(sales, MonthOf, months[1..]);
    }
  }

  /** Receipts and returns do not show up in the sales tab: dropping one from
      anywhere in the history changes nothing, except that a history left
      empty shows no transactions instead of no sales. */
  lemma MonthlySalesIgnoresNonShipments(a: seq<Record>, e: Record, b: seq<Record>)
    requires e.kind != Ship
    ensures MonthlySales(a + [e] + b) == if a + b == [] then NoSales else MonthlySales(a + b)
  {
    WhereConcat(a + [e], b, KindOf, Ship);
    WhereConcat(a, [e], KindOf, Ship);
    WhereConcat(a, b, KindOf, Ship);
    assert Where([e], KindOf, Ship) == [];
    assert Where(a + [e], KindOf, Ship) == Where(a, KindOf, Ship);
  }

  // ---------------------------------------------------------------------
  // Return rate by client

  /** Returned as a percentage of shipped; 0 for a client with nothing shipped. */
  function Rate(shipped: int, returned: int): (pct: real)
    ensures shipped > 0 ==> pct * (shipped as real) == (returned as real) * 100.0
    ensures shipped <= 0 ==> pct == 0.0
    ensures shipped > 0 && 0 <= returned <= shipped ==> 0.0 <= pct <= 100.0
  {
    if shipped > 0 then (returned as real) / (shipped as real) * 100.0 else 0.0
  }

  /** A client that shipped 100 and took back 5 has a rate of 5%; a client
      with returns but no shipments shows 0. */
  lemma RateExamples()
    ensures Rate(100, 5) == 5.0
    ensures Rate(0, 3) == 0.0
  {
  }

  datatype ClientRate = ClientRate(client: string, shipped: int, returned: int, rate: real)

  datatype RateReport = NoHistory | NoShipments | Rates(rows: seq<ClientRate>)

  /** One row per client of the history: shipped and returned totals and the rate. */
  function RateTable(history: seq<Record>): (rows: seq<ClientRate>)
    ensures forall e :: e in history ==> e.client in Clients(rows)
    ensures Distinct(Clients(rows))
    ensures forall k :: 0 <= k < |rows| ==>
              var row := rows[k];
              && row.shipped == QtyTotal(Where(Where(history, KindOf, Ship), ClientOf, row.client))
              && row.returned == QtyTotal(Where(Where(history, KindOf, Return), ClientOf, row.client))
              && row.rate == Rate(row.shipped, row.returned)
  {
    var clients := Keys(history, ClientOf);
    var shipped := Tally(Where(history, KindOf, Ship), ClientOf, clients);
    var returned := Tally(Where(history, KindOf, Return), ClientOf, clients);
    var rows := seq(|clients|, k requires 0 <= k < |clients| =>
                      ClientRate(clients[k], shipped[k], returned[k], Rate(shipped[k], returned[k])));
    assert Clients(rows) == clients;
    assert forall e :: e in history ==> ClientOf(e) in clients;
    rows
  }

  function Clients(rows: seq<ClientRate>): seq<string> {
    seq(|rows|, k requires 0 <= k < |rows| => rows[k].client)
  }

  /** Every client of the table has at least one record in the history. */
  lemma RateTableClientsOccur(history: seq<Record>)
    ensures var rows := RateTable(history);
            forall k :: 0 <= k < |rows| ==> Where(history, ClientOf, rows[k].client) != []
  {
    KeysOccur(history, ClientOf);
    assert Clients(RateTable(history)) == Keys(history, ClientOf);
  }

  /** The return-rate tab, shown only when some shipment exists. */
  function ReturnRates(history: seq<Record>): (r: RateReport)
    ensures r == NoHistory <==> history == []
    ensures r == NoShipments <==> history != [] && forall e :: e in history ==> e.kind != Ship
    ensures r.Rates? ==> r.rows == RateTable(history)
  {
    if history == [] then NoHistory
    else
      WhereEmpty(history, KindOf, Ship);
      if Where(history, KindOf, Ship) == [] then NoShipments else Rates(RateTable(history))
  }

  function ShippedColumn(rows: seq<ClientRate>): seq<int> {
    seq(|rows|, k requires 0 <= k < |rows| => rows[k].shipped)
  }

  function ReturnedColumn(rows: seq<ClientRate>): seq<int> {
    seq(|rows|, k requires 0 <= k < |rows| => rows[k].returned)
  }

  /** The table's columns add up to everything shipped and everything
      returned: no shipment or return is lost or counted twice. */
  lemma RateTableTotals(history: seq<Record>)
    ensures Sum(ShippedColumn(RateTable(history))) == QtyTotal(Where(history, KindOf, Ship))
    ensures Sum(ReturnedColumn(RateTable(history))) == QtyTotal(Where(history, KindOf, Return))
  {
    var clients := Keys(history, ClientOf);
    var rows := RateTable(history);
    assert ShippedColumn(rows) == Tally(Where(history, KindOf, Ship), ClientOf, clients);
    assert ReturnedColumn(rows) == Tally(Where(history, KindOf, Return), ClientOf, clients);
    TallyPartition(Where(history, KindOf, Ship), ClientOf, clients);
    TallyPartition(Where(history, KindOf, Return), ClientOf, clients);
  }
}
