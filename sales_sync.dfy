/**
 * The run of the Square-to-MySQL integration script: one order search, the
 * flattened list saved into `sold_items` and dumped as CSV, over a time window
 * computed once from the current time.
 */
module SalesSync {
  import opened Common
  import opened SoldItems
  import Decimal

  // ---------------------------------------------------------------------------
  // CSV export (`save_to_csv`)
  // ---------------------------------------------------------------------------

  /** The header row the CSV writer emits first. */
  const CsvHeader: seq<string> := ["order_id", "sku", "quantity", "created_at"]

  /** The fields of one record, in header order; the quantity as `str` renders it. */
  function CsvRow(r: SaleRecord): seq<string> {
    [r.orderId, r.sku, Decimal.IntToString(r.quantity), r.createdAt]
  }

  /**
   * The rows `save_to_csv` writes: nothing at all (no file) for an empty list,
   * otherwise the header and then one row per record, in list order.
   */
  function SaveToCsv(soldItems: seq<SaleRecord>): (file: Option<seq<seq<string>>>)
    ensures file.None? <==> soldItems == []
    ensures file.Some? ==> |file.value| == |soldItems| + 1 && file.value[0] == CsvHeader
  {
    if soldItems == [] then None
    else Some([CsvHeader] + seq(|soldItems|, i requires 0 <= i < |soldItems| => CsvRow(soldItems[i])))
  }

  /** Reads one data row back into a record; None when it does not have the shape CsvRow gives. */
  function ReadRow(row: seq<string>): Option<SaleRecord> {
    if |row| == 4 && Decimal.IsIntString(row[2]) then
      Some(SaleRecord(row[0], row[1], Decimal.ParseInt(row[2]), row[3]))
    else None
  }

  /** Reads data rows back, in order; None when any of them is malformed. */
  function ReadRows(rows: seq<seq<string>>): Option<seq<SaleRecord>> {
    if rows == [] then Some([])
    else
      match (ReadRow(rows[0]), ReadRows(rows[1..]))
      case (Some(r), Some(rest)) => Some([r] + rest)
      case _ => None
  }

  /** Reads a whole file back: the header, then the data rows. */
  function ReadCsv(file: seq<seq<string>>): Option<seq<SaleRecord>> {
    if file == [] || file[0] != CsvHeader then None else ReadRows(file[1..])
  }

  lemma ReadCsvRow(r: SaleRecord)
    ensures ReadRow(CsvRow(r)) == Some(r)
  {
    Decimal.ParseIntToString(r.quantity);
  }

  lemma {:induction false} ReadRowsOfRecords(items: seq<SaleRecord>)
    ensures ReadRows(seq(|items|, i requires 0 <= i < |items| => CsvRow(items[i]))) == Some(items)
  {
    var rows := seq(|items|, i requires 0 <= i < |items| => CsvRow(items[i]));
    if items != [] {
      ReadCsvRow(items[0]);
      assert rows[1..] == seq(|items[1..]|, i requires 0 <= i < |items[1..]| => CsvRow(items[1..][i]));
      ReadRowsOfRecords(items[1..]);
      assert items == [items[0]] + items[1..];
    }
  }

  /** The written file holds every record of the list, in order, and nothing else. */
  lemma CsvRoundTrip(soldItems: seq<SaleRecord>)
    requires soldItems != []
    ensures ReadCsv(SaveToCsv(soldItems).value) == Some(soldItems)
  {
    var file := SaveToCsv(soldItems).value;
    assert file[1..] == seq(|soldItems|, i requires 0 <= i < |soldItems| => CsvRow(soldItems[i]));
    ReadRowsOfRecords(soldItems);
  }

  // ---------------------------------------------------------------------------
  // One run (`fetch_sold_items`)
  // ---------------------------------------------------------------------------

  /** What the order search call answers: the orders found, or the API's errors. */
  datatype SearchResult = SearchSuccess(orders: seq<Order>) | SearchError(errors: seq<string>)

  /** How a run ends, and what it wrote. */
  datatype FetchReport =
    | FetchFailed(errors: seq<string>)
    | NoNewOrders
    | Synced(recovered: seq<SaleRecord>, csvName: string, csv: Option<seq<seq<string>>>)

  /** The records a run inserted into the table. */
  function Inserted(report: FetchReport): seq<SaleRecord> {
    if report.Synced? then report.recovered else []
  }

  /** The CSV file name: the run's prefix, '_', the local time of the export, and ".csv". */
  function CsvFileName(csvPrefix: string, timestamp: string): (name: string)
    ensures |name| == |csvPrefix| + |timestamp| + 5
    ensures name[..|csvPrefix| + 1] == csvPrefix + "_"
    ensures name[|csvPrefix| + 1..|name| - 4] == timestamp
    ensures name[|name| - 4..] == ".csv"
  {
    var name := csvPrefix + "_" + timestamp + ".csv";
    assert name[..|csvPrefix| + 1] == csvPrefix + "_";
    assert name[|csvPrefix| + 1..|name| - 4] == timestamp;
    assert name[|name| - 4..] == ".csv";
    name
  }

  /** Two exports under one prefix share a file name only when their timestamps are equal. */
  lemma CsvFileNameInjective(csvPrefix: string, t1: string, t2: string)
    requires CsvFileName(csvPrefix, t1) == CsvFileName(csvPrefix, t2)
    ensures t1 == t2
  {
    var name := CsvFileName(csvPrefix, t1);
    assert t1 == name[|csvPrefix| + 1..|name| - 4];
  }

  /** An hourly export and a recovery export never share a file name. */
  lemma CsvFileNamesOfModesDiffer(t1: string, t2: string)
    ensures CsvFileName("hourly", t1) != CsvFileName("recovered", t2)
  {
    var h, r := CsvFileName("hourly", t1), CsvFileName("recovered", t2);
    assert h[..7] == "hourly_" && r[..10] == "recovered_";
    assert h[0] == 'h' && r[0] == 'r';
  }

  /**
   * A run against a table holding the order ids `stored`, given the search's answer:
   * on an error nothing is saved; an empty flattened list saves nothing; otherwise the
   * flattened list goes through the insert loop and the whole list goes to the CSV.
   */
  function Fetch(stored: set<string>, result: SearchResult, csvPrefix: string, timestamp: string): FetchReport {
    match result
    case SearchError(errors) => FetchFailed(errors)
    case SearchSuccess(orders) =>
      var newSoldItems := Flatten(orders);
      if newSoldItems == [] then NoNewOrders
      else Synced(Dedupe(stored, newSoldItems), CsvFileName(csvPrefix, timestamp), SaveToCsv(newSoldItems))
  }

  /**
   * `fetch_sold_items` with the search call's answer passed in: saves into `table`
   * and reports what the run did.
   */
  method FetchSoldItems(table: SoldItemsTable, result: SearchResult, csvPrefix: string, timestamp: string)
    returns (report: FetchReport)
    requires table.Valid()
    modifies table
    ensures table.Valid()
    ensures report == Fetch(old(table.Ids()), result, csvPrefix, timestamp)
    ensures table.rows == old(table.rows) + Inserted(report)
  {
    match result {
      case SearchError(errors) =>
        report := FetchFailed(errors);
      case SearchSuccess(orders) =>
        var newSoldItems := FlattenOrders(orders);
        if newSoldItems != [] {
          var recoveredOrders := table.SaveSoldItems(newSoldItems);
          var filename := CsvFileName(csvPrefix, timestamp);
          var csv := SaveToCsv(newSoldItems);
          report := Synced(recoveredOrders, filename, csv);
        } else {
          report := NoNewOrders;
        }
    }
  }

  /** On a search error nothing is inserted and no file is written. */
  lemma FetchErrorSavesNothing(stored: set<string>, result: SearchResult, csvPrefix: string, timestamp: string)
    requires result.SearchError?
    ensures Fetch(stored, result, csvPrefix, timestamp) == FetchFailed(result.errors)
    ensures Inserted(Fetch(stored, result, csvPrefix, timestamp)) == []
  {
  }

  /**
   * Saving and exporting happen exactly when the search succeeded with a non-empty
   * flattened list; the file then lists that whole list, stored orders included,
   * while only the records with new order ids are inserted.
   */
  lemma FetchSavesFlattenedList(stored: set<string>, result: SearchResult, csvPrefix: string, timestamp: string)
    ensures var report := Fetch(stored, result, csvPrefix, timestamp);
            report.Synced? <==> result.SearchSuccess? && Flatten(result.orders) != []
    ensures var report := Fetch(stored, result, csvPrefix, timestamp);
            report.Synced? ==>
              && report.csv.Some?
              && ReadCsv(report.csv.value) == Some(Flatten(result.orders))
              && IsSubsequence(report.recovered, Flatten(result.orders))
              && DistinctIds(report.recovered)
              && IdsOf(report.recovered) == IdsOf(Flatten(result.orders)) - stored
  {
    if result.SearchSuccess? && Flatten(result.orders) != [] {
      var items := Flatten(result.orders);
      CsvRoundTrip(items);
      DedupeIsSubsequence(stored, items);
      DedupeDistinct(stored, items);
      DedupeIds(stored, items);
    }
  }

  /**
   * Re-running over the same search answer against the table the first run left
   * inserts nothing, whatever the second run's file name.
   */
  lemma FetchIdempotent(stored: set<string>, result: SearchResult, csvPrefix: string, t1: string, t2: string)
    ensures var stored' := stored + IdsOf(Inserted(Fetch(stored, result, csvPrefix, t1)));
            Inserted(Fetch(stored', result, csvPrefix, t2)) == []
  {
    if result.SearchSuccess? && Flatten(result.orders) != [] {
      DedupeIdempotent(stored, Flatten(result.orders));
    }
  }

  /** Orders A1 (2 units of "x") and A2 (3 units of "x") flatten to one record each. */
  lemma ScenarioFlatten()
    ensures Flatten([Order("A1", "t", [LineItem(Some("x"), Some(2))]), Order("A2", "t", [LineItem(Some("x"), Some(3))])])
            == [SaleRecord("A1", "x", 2, "t"), SaleRecord("A2", "x", 3, "t")]
  {
    var a1 := Order("A1", "t", [LineItem(Some("x"), Some(2))]);
    var a2 := Order("A2", "t", [LineItem(Some("x"), Some(3))]);
    assert [a1, a2][..1] == [a1];
    assert [a1][..0] == [];
    assert a1.lineItems[..0] == [] && a2.lineItems[..0] == [];
    assert Flatten([a1]) == [SaleRecord("A1", "x", 2, "t")];
  }

  /**
   * The table holds order A1; the search returns A1 (2 units) and A2 (3 units):
   * only A2's record is inserted, and the file lists both.
   */
  lemma FetchScenario()
    ensures var a1 := Order("A1", "t", [LineItem(Some("x"), Some(2))]);
            var a2 := Order("A2", "t", [LineItem(Some("x"), Some(3))]);
            var report := Fetch({"A1"}, SearchSuccess([a1, a2]), "hourly", "20250101_000000");
            && report.Synced?
            && report.recovered == [SaleRecord("A2", "x", 3, "t")]
            && report.csv.Some? && |report.csv.value| == 3
            && ReadCsv(report.csv.value) == Some([SaleRecord("A1", "x", 2, "t"), SaleRecord("A2", "x", 3, "t")])
  {
    var r1 := SaleRecord("A1", "x", 2, "t");
    var r2 := SaleRecord("A2", "x", 3, "t");
    ScenarioFlatten();
    assert [r1, r2][1..] == [r2];
    assert [r2][1..] == [];
    CsvRoundTrip([r1, r2]);
  }

  // ---------------------------------------------------------------------------
  // Time windows (`run_hourly`, `recover_missed_orders`)
  // ---------------------------------------------------------------------------

  const SecondsPerHour := 3600
  const SecondsPerDay := 86400

  /** A search window, in seconds since the epoch (UTC). */
  datatype Window = Window(start: int, end: int)

  /** The arguments a mode passes to a run. */
  datatype RunRequest = RunRequest(window: Window, csvPrefix: string)

  /** `run_hourly`: the hour that ends at `now`, exported under "hourly". */
  function HourlyRequest(now: int): (request: RunRequest)
    ensures request.window.end == now
    ensures request.window.end - request.window.start == SecondsPerHour
    ensures request.csvPrefix == "hourly"
  {
    RunRequest(Window(now - SecondsPerHour, now), "hourly")
  }

  /**
   * `recover_missed_orders`: the `daysBack` days that end at `now`, exported under
   * "recovered". Nothing checks `daysBack`: a negative count gives a window that starts
   * after it ends, and zero gives an empty one.
   */
  function RecoveryRequest(now: int, daysBack: int): (request: RunRequest)
    ensures request.window.end == now
    ensures request.window.end - request.window.start == daysBack * SecondsPerDay
    ensures daysBack < 0 <==> request.window.start > request.window.end
    ensures request.csvPrefix == "recovered"
  {
    RunRequest(Window(now - daysBack * SecondsPerDay, now), "recovered")
  }

  /** With at least one day back, the recovery window covers the hourly window ending at the same `now`. */
  lemma RecoveryCoversHourly(now: int, daysBack: int)
    requires daysBack >= 1
    ensures RecoveryRequest(now, daysBack).window.start <= HourlyRequest(now).window.start
    ensures RecoveryRequest(now, daysBack).window.end == HourlyRequest(now).window.end
  {
  }

  /** `run_hourly`: one run over the hourly window; `search` stands for the order search call. */
  method RunHourly(table: SoldItemsTable, now: int, search: Window -> SearchResult, timestamp: string)
    returns (report: FetchReport)
    requires table.Valid()
    modifies table
    ensures table.Valid()
    ensures report == Fetch(old(table.Ids()), search(Window(now - SecondsPerHour, now)), "hourly", timestamp)
    ensures table.rows == old(table.rows) + Inserted(report)
  {
    var request := HourlyRequest(now);
    report := FetchSoldItems(table, search(request.window), request.csvPrefix, timestamp);
  }

  /** `recover_missed_orders`: one run over the last `daysBack` days. */
  method RecoverMissedOrders(table: SoldItemsTable, now: int, daysBack: int,
                             search: Window -> SearchResult, timestamp: string)
    returns (report: FetchReport)
    requires table.Valid()
    modifies table
    ensures table.Valid()
    ensures report == Fetch(old(table.Ids()), search(Window(now - daysBack * SecondsPerDay, now)), "recovered", timestamp)
    ensures table.rows == old(table.rows) + Inserted(report)
  {
    var request := RecoveryRequest(now, daysBack);
    report := FetchSoldItems(table, search(request.window), request.csvPrefix, timestamp);
  }
}
