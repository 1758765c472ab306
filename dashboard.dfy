/**
 * The rental dashboard: the order-search URL, the order lines shown per order,
 * the units summary per product, and the week the report covers.
 */
module Dashboard {
  import opened Common

  // ---------------------------------------------------------------------------
  // Query URLs (`build_url_w_params`)
  // ---------------------------------------------------------------------------

  /** `sep.join(parts)`. */
  function Join(sep: char, parts: seq<string>): string {
    if parts == [] then ""
    else if |parts| == 1 then parts[0]
    else parts[0] + [sep] + Join(sep, parts[1..])
  }

  /** `key=value` for each pair, in order. */
  function QueryPairs(params: seq<(string, string)>): seq<string> {
    seq(|params|, i requires 0 <= i < |params| => params[i].0 + "=" + params[i].1)
  }

  /** Keys hold neither '&' nor '=', and values hold no '&'. */
  predicate SafeParams(params: seq<(string, string)>) {
    forall i :: 0 <= i < |params| ==>
      Excludes(params[i].0, '&') && Excludes(params[i].0, '=') && Excludes(params[i].1, '&')
  }

  /**
   * The URL with its query string: the base, '?', then the pairs joined by '&'. With no
   * pairs that is the base and a bare '?'; with safe pairs the text after the '?' reads
   * back to every pair, in order and with duplicates.
   */
  function BuildUrlWithParams(url: string, params: seq<(string, string)>): (full: string)
    ensures |full| > |url| && full[..|url| + 1] == url + "?"
    ensures params == [] ==> full == url + "?"
    ensures |params| >= 1 && SafeParams(params) ==> ParseQuery(full[|url| + 1..]) == Some(params)
  {
    var query := Join('&', QueryPairs(params));
    var full := url + "?" + query;
    assert full[..|url| + 1] == url + "?" && full[|url| + 1..] == query;
    if |params| >= 1 && SafeParams(params) then
      QueryRoundTrip(params);
      full
    else
      full
  }

  /** `s.split(sep)`: the pieces between separators (one piece when there is none). */
  function Split(sep: char, s: string): (parts: seq<string>)
    ensures |parts| >= 1
  {
    if s == [] then [""]
    else
      var rest := Split(sep, s[1..]);
      if s[0] == sep then [""] + rest
      else [[s[0]] + rest[0]] + rest[1..]
  }

  /** `s.partition("=")` when `s` holds a '=': the text before the first '=' and the text after it. */
  function SplitPair(s: string): Option<(string, string)> {
    if s == [] then None
    else if s[0] == '=' then Some(("", s[1..]))
    else
      match SplitPair(s[1..])
      case None => None
      case Some((k, v)) => Some(([s[0]] + k, v))
  }

  /** Reads a query string back into its pairs; `None` when some piece holds no '='. */
  function ParseQuery(query: string): Option<seq<(string, string)>> {
    var parts := Split('&', query);
    if forall i :: 0 <= i < |parts| ==> SplitPair(parts[i]).Some? then
      Some(seq(|parts|, i requires 0 <= i < |parts| => SplitPair(parts[i]).value))
    else
      None
  }

  predicate Excludes(s: string, c: char) {
    forall i :: 0 <= i < |s| ==> s[i] != c
  }

  lemma {:induction false} SplitNoSeparator(sep: char, s: string)
    requires Excludes(s, sep)
    ensures Split(sep, s) == [s]
  {
    if s != [] {
      SplitNoSeparator(sep, s[1..]);
      assert [s[0]] + s[1..] == s;
    }
  }

  lemma {:induction false} SplitConcat(sep: char, a: string, b: string)
    requires Excludes(a, sep)
    ensures Split(sep, a + [sep] + b) == [a] + Split(sep, b)
  {
    if a == [] {
      assert a + [sep] + b == [sep] + b;
      assert ([sep] + b)[1..] == b;
    } else {
      var s := a + [sep] + b;
      assert s[0] == a[0] && s[1..] == a[1..] + [sep] + b;
      SplitConcat(sep, a[1..], b);
      assert [a[0]] + a[1..] == a;
    }
  }

  /** Splitting a join gives the parts back when none of them holds the separator. */
  lemma {:induction false} SplitJoin(sep: char, parts: seq<string>)
    requires |parts| >= 1
    requires forall i :: 0 <= i < |parts| ==> Excludes(parts[i], sep)
    ensures Split(sep, Join(sep, parts)) == parts
  {
    if |parts| == 1 {
      SplitNoSeparator(sep, parts[0]);
    } else {
      SplitJoin(sep, parts[1..]);
      SplitConcat(sep, parts[0], Join(sep, parts[1..]));
      assert [parts[0]] + parts[1..] == parts;
    }
  }

  lemma {:induction false} SplitPairOf(k: string, v: string)
    requires Excludes(k, '=')
    ensures SplitPair(k + "=" + v) == Some((k, v))
  {
    if k != [] {
      var s := k + "=" + v;
      assert s[0] == k[0] && s[1..] == k[1..] + "=" + v;
      SplitPairOf(k[1..], v);
      assert [k[0]] + k[1..] == k;
    } else {
      assert k + "=" + v == ['='] + v;
    }
  }

  /** The query string reads back to every pair, in order and with duplicates, when the pairs are safe. */
  lemma QueryRoundTrip(params: seq<(string, string)>)
    requires |params| >= 1 && SafeParams(params)
    ensures ParseQuery(Join('&', QueryPairs(params))) == Some(params)
  {
    var pairs := QueryPairs(params);
    forall i | 0 <= i < |pairs|
      ensures Excludes(pairs[i], '&')
    {
      assert pairs[i] == params[i].0 + "=" + params[i].1;
    }
    SplitJoin('&', pairs);
    forall i | 0 <= i < |params|
      ensures SplitPair(pairs[i]) == Some(params[i])
    {
      SplitPairOf(params[i].0, params[i].1);
    }
    var read := seq(|pairs|, i requires 0 <= i < |pairs| => SplitPair(pairs[i]).value);
    assert read == params;
  }

  /** A piece that reads as a pair is that pair's key, '=', and value. */
  lemma {:induction false} SplitPairInverse(s: string)
    requires SplitPair(s).Some?
    ensures s == SplitPair(s).value.0 + "=" + SplitPair(s).value.1
  {
    if s[0] != '=' {
      SplitPairInverse(s[1..]);
      assert [s[0]] + s[1..] == s;
    } else {
      assert s == "" + "=" + s[1..];
    }
  }

  /** Joining the pieces of a split gives the text back. */
  lemma {:induction false} JoinSplit(sep: char, s: string)
    ensures Join(sep, Split(sep, s)) == s
  {
    if s != [] {
      var rest := Split(sep, s[1..]);
      JoinSplit(sep, s[1..]);
      if s[0] == sep {
        assert Join(sep, [""] + rest) == "" + [sep] + Join(sep, rest);
        assert [sep] + s[1..] == s;
      } else {
        var parts := [[s[0]] + rest[0]] + rest[1..];
        if |rest| == 1 {
          assert Join(sep, rest) == rest[0];
        } else {
          assert Join(sep, rest) == rest[0] + [sep] + Join(sep, rest[1..]);
          assert parts[1..] == rest[1..];
        }
        assert [s[0]] + s[1..] == s;
      }
    }
  }

  /** A query string is determined by the pairs it reads back to: two that read the same are equal. */
  lemma ParseQueryInjective(q1: string, q2: string)
    requires ParseQuery(q1).Some? && ParseQuery(q1) == ParseQuery(q2)
    ensures q1 == q2
  {
    var p1, p2 := Split('&', q1), Split('&', q2);
    assert |p1| == |ParseQuery(q1).value| == |p2|;
    forall i | 0 <= i < |p1|
      ensures p1[i] == p2[i]
    {
      assert ParseQuery(q1).value[i] == SplitPair(p1[i]).value;
      assert ParseQuery(q2).value[i] == SplitPair(p2[i]).value;
      SplitPairInverse(p1[i]);
      SplitPairInverse(p2[i]);
    }
    assert p1 == p2;
    JoinSplit('&', q1);
    JoinSplit('&', q2);
  }

  // ---------------------------------------------------------------------------
  // Order lines (`create_dashboard_data`)
  // ---------------------------------------------------------------------------

  /** A line of an order's `included` list: its title and quantity. */
  datatype IncludedLine = IncludedLine(title: string, quantity: int)

  /** An order from the rental API with the `included` lines of its details. */
  datatype RentalOrder = RentalOrder(id: string, number: int, properties: map<string, string>,
                                     included: seq<IncludedLine>)

  /** One row of the dashboard's order table. */
  datatype OrderLine = OrderLine(clientCode: string, orderNumber: int, jobSite: string,
                                 units: int, productName: string)

  /** `properties.get(key, '')`. */
  function Property(order: RentalOrder, key: string): string {
    if key in order.properties then order.properties[key] else ""
  }

  function LineOf(order: RentalOrder, line: IncludedLine): OrderLine {
    OrderLine(Property(order, "client_code"), order.number, Property(order, "job_site"),
              line.quantity, line.title)
  }

  /** The lines of one order for its `included` entries `lines`, in order. */
  function LinesOf(order: RentalOrder, lines: seq<IncludedLine>): seq<OrderLine> {
    if lines == [] then []
    else LinesOf(order, lines[..|lines| - 1]) + [LineOf(order, lines[|lines| - 1])]
  }

  /** All dashboard lines: orders in order, then each order's included lines in order. */
  function DashboardLines(orders: seq<RentalOrder>): seq<OrderLine> {
    if orders == [] then []
    else
      var last := orders[|orders| - 1];
      DashboardLines(orders[..|orders| - 1]) + LinesOf(last, last.included)
  }

  lemma LinesOfPrefix(order: RentalOrder, lines: seq<IncludedLine>, j: nat)
    requires j < |lines|
    ensures LinesOf(order, lines[..j + 1]) == LinesOf(order, lines[..j]) + [LineOf(order, lines[j])]
  {
    assert lines[..j + 1][..j] == lines[..j];
  }

  lemma DashboardLinesPrefix(orders: seq<RentalOrder>, i: nat)
    requires i < |orders|
    ensures DashboardLines(orders[..i + 1]) == DashboardLines(orders[..i]) + LinesOf(orders[i], orders[i].included)
  {
    assert orders[..i + 1][..i] == orders[..i];
  }

  /** `create_dashboard_data`, with the fetched orders and their details passed in. */
  method CreateDashboardData(orders: seq<RentalOrder>) returns (orderLines: seq<OrderLine>)
    ensures orderLines == DashboardLines(orders)
  {
    orderLines := [];
    for i := 0 to |orders|
      invariant orderLines == DashboardLines(orders[..i])
    {
      var order := orders[i];
      var orderNumber := order.number;
      var jobSite := Property(order, "job_site");
      var clientCode := Property(order, "client_code");
      ghost var before := orderLines;
      for j := 0 to |order.included|
        invariant orderLines == before + LinesOf(order, order.included[..j])
      {
        var line := order.included[j];
        LinesOfPrefix(order, order.included, j);
        orderLines := orderLines + [OrderLine(clientCode, orderNumber, jobSite, line.quantity, line.title)];
      }
      assert order.included[..|order.included|] == order.included;
      DashboardLinesPrefix(orders, i);
    }
    assert orders[..|orders|] == orders;
  }

  /** An order contributes one line per included entry, carrying its own number and properties. */
  lemma {:induction false} LinesOfShape(order: RentalOrder, lines: seq<IncludedLine>)
    ensures |LinesOf(order, lines)| == |lines|
    ensures forall j :: 0 <= j < |lines| ==> LinesOf(order, lines)[j] == LineOf(order, lines[j])
  {
    if lines != [] {
      LinesOfShape(order, lines[..|lines| - 1]);
    }
  }

  /** The number of included entries over all orders. */
  function TotalIncluded(orders: seq<RentalOrder>): nat {
    if orders == [] then 0 else TotalIncluded(orders[..|orders| - 1]) + |orders[|orders| - 1].included|
  }

  lemma {:induction false} DashboardLinesAppend(a: seq<RentalOrder>, b: seq<RentalOrder>)
    ensures DashboardLines(a + b) == DashboardLines(a) + DashboardLines(b)
    decreases |b|
  {
    if b == [] {
      assert a + b == a;
    } else {
      var b', last := b[..|b| - 1], b[|b| - 1];
      assert (a + b)[..|a + b| - 1] == a + b';
      assert (a + b)[|a + b| - 1] == last;
      calc {
        DashboardLines(a + b);
        DashboardLines(a + b') + LinesOf(last, last.included);
        { DashboardLinesAppend(a, b'); }
        (DashboardLines(a) + DashboardLines(b')) + LinesOf(last, last.included);
        DashboardLines(a) + (DashboardLines(b') + LinesOf(last, last.included));
        DashboardLines(a) + DashboardLines(b);
      }
    }
  }

  /** One line per included entry, over all orders. */
  lemma {:induction false} DashboardLinesCount(orders: seq<RentalOrder>)
    ensures |DashboardLines(orders)| == TotalIncluded(orders)
  {
    if orders != [] {
      DashboardLinesCount(orders[..|orders| - 1]);
      LinesOfShape(orders[|orders| - 1], orders[|orders| - 1].included);
    }
  }

  /**
   * Orders in sequence: the lines of order i follow those of every earlier order and
   * precede those of every later one.
   */
  lemma DashboardLinesSplit(orders: seq<RentalOrder>, i: nat)
    requires i < |orders|
    ensures DashboardLines(orders) ==
            DashboardLines(orders[..i]) + LinesOf(orders[i], orders[i].included) + DashboardLines(orders[i + 1..])
  {
    assert orders == orders[..i + 1] + orders[i + 1..];
    DashboardLinesAppend(orders[..i + 1], orders[i + 1..]);
    DashboardLinesPrefix(orders, i);
  }

  // ---------------------------------------------------------------------------
  // Units per product (`process_data`)
  // ---------------------------------------------------------------------------

  /** One entry of the product summary. */
  datatype ProductSummary = ProductSummary(name: string, units: int)

  /** Product names in the order they first occur: the key order of the summing dict. */
  function FirstOccurrences(data: seq<OrderLine>): seq<string> {
    if data == [] then []
    else
      var names := FirstOccurrences(data[..|data| - 1]);
      var name := data[|data| - 1].productName;
      if name in names then names else names + [name]
  }

  /** Units over the lines of `data` named `name`. */
  function UnitsOf(data: seq<OrderLine>, name: string): int {
    if data == [] then 0
    else UnitsOf(data[..|data| - 1], name) + (if data[|data| - 1].productName == name then data[|data| - 1].units else 0)
  }

  /** Units over all lines of `data`. */
  function TotalUnits(data: seq<OrderLine>): int {
    if data == [] then 0 else TotalUnits(data[..|data| - 1]) + data[|data| - 1].units
  }

  /** Units over the summary's entries. */
  function SummaryUnits(summary: seq<ProductSummary>): int {
    if summary == [] then 0 else SummaryUnits(summary[..|summary| - 1]) + summary[|summary| - 1].units
  }

  /** The summary: one entry per name, in first-occurrence order, with that name's units. */
  function Summary(data: seq<OrderLine>): seq<ProductSummary> {
    var names := FirstOccurrences(data);
    seq(|names|, i requires 0 <= i < |names| => ProductSummary(names[i], UnitsOf(data, names[i])))
  }

  predicate Distinct(names: seq<string>) {
    forall i, j :: 0 <= i < j < |names| ==> names[i] != names[j]
  }

  function NamesOf(data: seq<OrderLine>): set<string> {
    set line | line in data :: line.productName
  }

  /** The position of the first line named `name`, or `|data|` when there is none. */
  function FirstIndex(data: seq<OrderLine>, name: string): (k: nat)
    ensures k <= |data|
    ensures k < |data| ==> data[k].productName == name
    ensures forall i :: 0 <= i < k ==> data[i].productName != name
  {
    if data == [] then 0
    else
      var init := data[..|data| - 1];
      var k := FirstIndex(init, name);
      if k < |init| then k
      else if data[|data| - 1].productName == name then |init|
      else |data|
  }

  /** `names` are listed by the position of their first line in `data`. */
  predicate InFirstIndexOrder(data: seq<OrderLine>, names: seq<string>) {
    forall i, j :: 0 <= i < j < |names| ==> FirstIndex(data, names[i]) < FirstIndex(data, names[j])
  }

  /** The keys are exactly the names with a first line, listed by the position of that line. */
  lemma {:induction false} FirstOccurrencesOrder(data: seq<OrderLine>)
    ensures forall n :: n in FirstOccurrences(data) <==> FirstIndex(data, n) < |data|
    ensures InFirstIndexOrder(data, FirstOccurrences(data))
  {
    if data != [] {
      var init := data[..|data| - 1];
      var last := data[|data| - 1].productName;
      var prev := FirstOccurrences(init);
      FirstOccurrencesOrder(init);
      forall n | n in prev
        ensures FirstIndex(data, n) == FirstIndex(init, n)
      {
      }
      if last !in prev {
        var names := prev + [last];
        assert FirstIndex(init, last) == |init| && FirstIndex(data, last) == |init|;
        forall i, j | 0 <= i < j < |names|
          ensures FirstIndex(data, names[i]) < FirstIndex(data, names[j])
        {
          assert names[i] == prev[i];
          if j < |prev| {
            assert names[j] == prev[j];
          }
        }
      }
    }
  }

  /** Each product name of the input occurs once among the keys, and no other name does. */
  lemma {:induction false} FirstOccurrencesNames(data: seq<OrderLine>)
    ensures Distinct(FirstOccurrences(data))
    ensures forall n :: n in FirstOccurrences(data) <==> n in NamesOf(data)
  {
    if data != [] {
      var init := data[..|data| - 1];
      FirstOccurrencesNames(init);
      forall n
        ensures n in NamesOf(data) <==> n in NamesOf(init) || n == data[|data| - 1].productName
      {
        if n in NamesOf(data) {
          var line :| line in data && line.productName == n;
          if line != data[|data| - 1] {
            assert line in init;
          }
        }
        if n in NamesOf(init) {
          var line :| line in init && line.productName == n;
          assert line in data;
        }
      }
    }
  }

  /** A name that does not occur has no units. */
  lemma {:induction false} UnitsOfAbsent(data: seq<OrderLine>, name: string)
    requires name !in FirstOccurrences(data)
    ensures UnitsOf(data, name) == 0
  {
    if data != [] {
      var init := data[..|data| - 1];
      assert name !in FirstOccurrences(init);
      UnitsOfAbsent(init, name);
    }
  }

  /** The units of `names` over `data`, one name at a time. */
  function UnitsOver(names: seq<string>, data: seq<OrderLine>): int {
    if names == [] then 0 else UnitsOver(names[..|names| - 1], data) + UnitsOf(data, names[|names| - 1])
  }

  /** Adding a line to the data adds its units once, to the one name it carries, if listed. */
  lemma {:induction false} UnitsOverPush(names: seq<string>, data: seq<OrderLine>, line: OrderLine)
    requires Distinct(names)
    ensures UnitsOver(names, data + [line]) ==
            UnitsOver(names, data) + (if line.productName in names then line.units else 0)
  {
    var d := data + [line];
    assert d[..|d| - 1] == data;
    if names != [] {
      var init := names[..|names| - 1];
      UnitsOverPush(init, data, line);
      assert names == init + [names[|names| - 1]];
      assert line.productName in names <==> line.productName in init || line.productName == names[|names| - 1];
      if line.productName == names[|names| - 1] {
        assert line.productName !in init;
      }
    }
  }

  lemma {:induction false} UnitsOverPushName(names: seq<string>, name: string, data: seq<OrderLine>)
    ensures UnitsOver(names + [name], data) == UnitsOver(names, data) + UnitsOf(data, name)
  {
    assert (names + [name])[..|names|] == names;
  }

  /** The summary's units add up to the units of all the input lines. */
  lemma {:induction false} SummaryPreservesTotal(data: seq<OrderLine>)
    ensures UnitsOver(FirstOccurrences(data), data) == TotalUnits(data)
  {
    if data != [] {
      var init := data[..|data| - 1];
      var line := data[|data| - 1];
      var names := FirstOccurrences(init);
      assert data == init + [line];
      SummaryPreservesTotal(init);
      FirstOccurrencesNames(init);
      UnitsOverPush(names, init, line);
      if line.productName !in names {
        UnitsOverPushName(names, line.productName, data);
        UnitsOfAbsent(init, line.productName);
      }
    }
  }

  lemma {:induction false} SummaryUnitsOver(data: seq<OrderLine>, names: seq<string>)
    ensures var entries := seq(|names|, i requires 0 <= i < |names| => ProductSummary(names[i], UnitsOf(data, names[i])));
            SummaryUnits(entries) == UnitsOver(names, data)
  {
    if names != [] {
      var entries := seq(|names|, i requires 0 <= i < |names| => ProductSummary(names[i], UnitsOf(data, names[i])));
      var init := names[..|names| - 1];
      SummaryUnitsOver(data, init);
      assert entries[..|entries| - 1] ==
             seq(|init|, i requires 0 <= i < |init| => ProductSummary(init[i], UnitsOf(data, init[i])));
    }
  }

  /**
   * The summary lists each product name of the input exactly once, in first-occurrence
   * order, with the sum of that name's units, and no other name; its units add up to
   * the input's.
   */
  lemma SummaryCorrect(data: seq<OrderLine>)
    ensures var summary := Summary(data);
            && (forall i, j :: 0 <= i < j < |summary| ==> summary[i].name != summary[j].name)
            && (forall n :: n in NamesOf(data) <==> exists i :: 0 <= i < |summary| && summary[i].name == n)
            && (forall i, j :: 0 <= i < j < |summary| ==>
                  FirstIndex(data, summary[i].name) < FirstIndex(data, summary[j].name))
            && (forall i :: 0 <= i < |summary| ==> FirstIndex(data, summary[i].name) < |data|)
            && (forall i :: 0 <= i < |summary| ==> summary[i].units == UnitsOf(data, summary[i].name))
            && SummaryUnits(summary) == TotalUnits(data)
  {
    SummaryNames(data);
    SummaryOrder(data);
    SummaryPreservesTotal(data);
    SummaryUnitsOver(data, FirstOccurrences(data));
  }

  lemma SummaryNames(data: seq<OrderLine>)
    ensures var summary := Summary(data);
            && (forall i, j :: 0 <= i < j < |summary| ==> summary[i].name != summary[j].name)
            && (forall n :: n in NamesOf(data) <==> exists i :: 0 <= i < |summary| && summary[i].name == n)
  {
    var names := FirstOccurrences(data);
    var summary := Summary(data);
    FirstOccurrencesNames(data);
    forall n | n in NamesOf(data)
      ensures exists i :: 0 <= i < |summary| && summary[i].name == n
    {
      var i :| 0 <= i < |names| && names[i] == n;
      assert summary[i].name == n;
    }
  }

  lemma SummaryOrder(data: seq<OrderLine>)
    ensures var summary := Summary(data);
            && (forall i, j :: 0 <= i < j < |summary| ==>
                  FirstIndex(data, summary[i].name) < FirstIndex(data, summary[j].name))
            && (forall i :: 0 <= i < |summary| ==> FirstIndex(data, summary[i].name) < |data|)
  {
    var names := FirstOccurrences(data);
    var summary := Summary(data);
    FirstOccurrencesOrder(data);
    assert forall i :: 0 <= i < |summary| ==> summary[i].name == names[i];
  }

  /** `process_data`: sums units per name in a dict, then lists the dict's entries. */
  method ProcessData(data: seq<OrderLine>) returns (summaryList: seq<ProductSummary>)
    ensures summaryList == Summary(data)
  {
    var keys: seq<string> := [];
    var summary: map<string, int> := map[];
    for i := 0 to |data|
      invariant keys == FirstOccurrences(data[..i])
      invariant forall n :: n in summary <==> n in keys
      invariant forall n :: n in summary ==> summary[n] == UnitsOf(data[..i], n)
    {
      var line := data[i];
      assert data[..i + 1][..i] == data[..i];
      if line.productName in summary {
        summary := summary[line.productName := summary[line.productName] + line.units];
      } else {
        UnitsOfAbsent(data[..i], line.productName);
        keys := keys + [line.productName];
        summary := summary[line.productName := line.units];
      }
    }
    assert data[..|data|] == data;
    summaryList := [];
    for k := 0 to |keys|
      invariant |summaryList| == k
      invariant forall j :: 0 <= j < k ==> summaryList[j] == ProductSummary(keys[j], summary[keys[j]])
    {
      summaryList := summaryList + [ProductSummary(keys[k], summary[keys[k]])];
    }
  }

  // ---------------------------------------------------------------------------
  // The report week (`dashboard`)
  // ---------------------------------------------------------------------------

  /** Days the report looks back before locating its week. */
  const LookBackDays := 21

  /** A day's weekday on a proleptic Gregorian day number (day 1 is a Monday): 0 is Monday. */
  function Weekday(day: int): (w: int)
    ensures 0 <= w < 7
  {
    (day + 6) % 7
  }

  /** A span of days, both ends included. */
  datatype Week = Week(start: int, end: int)

  /**
   * The week reported on `today`: Monday to Sunday of the week that holds `today - 21`.
   * It starts on a Monday, ends six days later, and holds that day.
   */
  function ReportWeek(today: int): (w: Week)
    ensures Weekday(w.start) == 0
    ensures w.end == w.start + 6
    ensures w.start <= today - LookBackDays <= w.end
  {
    var day := today - LookBackDays;
    var k := (day + 6) / 7;
    assert day + 6 == 7 * k + Weekday(day);
    assert day - Weekday(day) + 6 == 7 * k;
    Week(day - Weekday(day), day - (Weekday(day) - 6))
  }

  /** A Monday no more than six days before a day is that day's week start. */
  lemma WeekStartUnique(today: int, monday: int)
    requires Weekday(monday) == 0
    requires monday <= today - LookBackDays < monday + 7
    ensures ReportWeek(today).start == monday
  {
    var day := today - LookBackDays;
    var m := (monday + 6) / 7;
    assert monday + 6 == 7 * m;
    var k := (day + 6) / 7;
    assert day + 6 == 7 * k + Weekday(day);
    assert 7 * m <= 7 * k + Weekday(day) < 7 * m + 7;
    assert k == m;
  }
}
