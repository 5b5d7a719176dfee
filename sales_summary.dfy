/**
 * The sales summary (`create_sales_summary`): one row per (category, month)
 * with the revenue, the units, the average per distinct order and the first
 * day of the month as a date.
 */
module SalesSummary {
  import opened Wrappers
  import opened Dates
  import opened Sorting
  import opened Strings
  import opened Grouping
  import opened SalesCleaner

  /** The group key. */
  datatype SummaryKey = SummaryKey(category: string, month: string)

  /** One row of the summary table. */
  datatype SummaryRow = SummaryRow(
    category: string,
    month: string,
    totalSales: real,
    totalQuantity: int,
    averageOrderValue: real,
    periodDate: Date)

  function SummaryKeyOf(s: Sale): SummaryKey { SummaryKey(s.category, s.month) }
  function RowKey(row: SummaryRow): SummaryKey { SummaryKey(row.category, row.month) }

  // ---------------------------------------------------------------------
  // Key order: groups come out sorted on (category, month)

  predicate KeyLe(a: SummaryKey, b: SummaryKey) {
    PairLe(a.category, a.month, b.category, b.month)
  }

  lemma KeyLeIsTotalPreorder()
    ensures IsTotalPreorder(KeyLe)
  {
    forall a: SummaryKey, b: SummaryKey ensures KeyLe(a, b) || KeyLe(b, a) {
      PairLeTotal(a.category, a.month, b.category, b.month);
    }
    forall a: SummaryKey, b: SummaryKey, c: SummaryKey | KeyLe(a, b) && KeyLe(b, c) ensures KeyLe(a, c) {
      PairLeTransitive(a.category, a.month, b.category, b.month, c.category, c.month);
    }
  }

  /** The distinct keys of the table in ascending key order, each once. */
  function SummaryKeys(sales: seq<Sale>): (keys: seq<SummaryKey>)
    ensures forall k :: k in keys <==> k in DistinctKeys(sales, SummaryKeyOf)
    ensures forall i, j :: 0 <= i < j < |keys| ==> KeyLe(keys[i], keys[j]) && keys[i] != keys[j]
  {
    KeyLeIsTotalPreorder();
    var ks := DistinctKeys(sales, SummaryKeyOf);
    var sorted := Sort(ks, KeyLe);
    assert forall k :: k in sorted <==> k in multiset(sorted);
    assert forall k :: k in ks <==> k in multiset(ks);
    PermutationDistinct(ks, sorted);
    sorted
  }

  // ---------------------------------------------------------------------
  // The summary

  /** total / count, with 0 in place of a division by a zero count. */
  function AverageOrderValue(totalSales: real, orderCount: nat): (avg: real)
    ensures orderCount == 0 ==> avg == 0.0
    ensures orderCount > 0 ==> avg * (orderCount as real) == totalSales
  {
    if orderCount == 0 then 0.0 else totalSales / (orderCount as real)
  }

  /** A single order's average is its total. */
  lemma AverageOfOneOrder(total: real)
    ensures AverageOrderValue(total, 1) == total
  {
  }

  /** `to_datetime(month + "-01")`. */
  function PeriodDate(month: string): Option<Date> {
    ParseDate(month + "-01")
  }

  /** The summary row of one group. */
  function GroupRow(k: SummaryKey, group: seq<Sale>, period: Date): SummaryRow {
    var total := SumReal(group, TotalPriceOf);
    SummaryRow(k.category, k.month, total, SumInt(group, QuantityOf),
               AverageOrderValue(total, |Image(group, OrderIdOf)|), period)
  }

  /**
   * The rows of the given keys in order; the whole conversion fails, naming
   * a month, when one month plus "-01" is not a date.
   */
  function BuildRows(keys: seq<SummaryKey>, groups: map<SummaryKey, seq<Sale>>): (r: Result<seq<SummaryRow>, string>)
    requires forall i :: 0 <= i < |keys| ==> keys[i] in groups
    ensures r.Ok? <==> forall i :: 0 <= i < |keys| ==> PeriodDate(keys[i].month).Some?
    ensures r.Err? ==> exists i :: 0 <= i < |keys| && keys[i].month == r.error && PeriodDate(r.error).None?
    ensures r.Ok? ==> |r.value| == |keys| && forall i :: 0 <= i < |keys| ==>
      r.value[i] == GroupRow(keys[i], groups[keys[i]], PeriodDate(keys[i].month).value)
  {
    if |keys| == 0 then Ok([])
    else
      var k := keys[0];
      match PeriodDate(k.month)
      case None => Err(k.month)
      case Some(period) =>
        var rest := BuildRows(keys[1..], groups);
        if rest.Err? then
          Err(rest.error)
        else
          Ok([GroupRow(k, groups[k], period)] + rest.value)
  }

  /** `create_sales_summary`: grouped on (category, month), one row per group. */
  function Summarize(sales: seq<Sale>): Result<seq<SummaryRow>, string> {
    var groups := GroupBy(sales, SummaryKeyOf);
    var keys := SummaryKeys(sales);
    assert forall i :: 0 <= i < |keys| ==> keys[i] in keys;
    BuildRows(keys, groups)
  }

  // ---------------------------------------------------------------------
  // What the summary holds

  /** The row of key k, stated against the group's reference membership. */
  predicate SummarizesGroup(sales: seq<Sale>, row: SummaryRow) {
    var members := Members(sales, SummaryKeyOf, RowKey(row));
    && |members| > 0
    && row.totalSales == SumReal(members, TotalPriceOf)
    && row.totalQuantity == SumInt(members, QuantityOf)
    && row.averageOrderValue == AverageOrderValue(row.totalSales, |Image(members, OrderIdOf)|)
    && PeriodDate(row.month) == Some(row.periodDate)
  }

  /** The summary fails exactly when some line's month plus "-01" is not a date. */
  lemma SummarizeOk(sales: seq<Sale>)
    ensures Summarize(sales).Ok? <==> forall i :: 0 <= i < |sales| ==> PeriodDate(sales[i].month).Some?
  {
    var keys := SummaryKeys(sales);
    if forall j :: 0 <= j < |keys| ==> PeriodDate(keys[j].month).Some? {
      forall i | 0 <= i < |sales| ensures PeriodDate(sales[i].month).Some? {
        assert SummaryKeyOf(sales[i]) in keys;
      }
    } else {
      var j :| 0 <= j < |keys| && PeriodDate(keys[j].month).None?;
      assert keys[j] in keys;
    }
  }

  /** Row j is the summary of the j-th key. */
  lemma SummarizeRowKeys(sales: seq<Sale>)
    requires Summarize(sales).Ok?
    ensures var rows, keys := Summarize(sales).value, SummaryKeys(sales);
      |rows| == |keys| && forall j :: 0 <= j < |rows| ==> RowKey(rows[j]) == keys[j] && SummarizesGroup(sales, rows[j])
  {
    var rows, keys := Summarize(sales).value, SummaryKeys(sales);
    var groups := GroupBy(sales, SummaryKeyOf);
    forall j | 0 <= j < |rows| ensures RowKey(rows[j]) == keys[j] && SummarizesGroup(sales, rows[j]) {
      assert keys[j] in DistinctKeys(sales, SummaryKeyOf);
      assert rows[j] == GroupRow(keys[j], groups[keys[j]], PeriodDate(keys[j].month).value);
    }
  }

  /**
   * A summary that succeeds has one row per distinct (category, month), in
   * strictly ascending key order, each summing its own group.
   */
  lemma SummarizeSpec(sales: seq<Sale>)
    requires Summarize(sales).Ok?
    ensures var rows := Summarize(sales).value;
      && (forall i :: 0 <= i < |sales| ==> exists j :: 0 <= j < |rows| && RowKey(rows[j]) == SummaryKeyOf(sales[i]))
      && (forall j, j' :: 0 <= j < j' < |rows| ==> KeyLe(RowKey(rows[j]), RowKey(rows[j'])) && RowKey(rows[j]) != RowKey(rows[j']))
      && (forall j :: 0 <= j < |rows| ==> SummarizesGroup(sales, rows[j]))
  {
    var rows, keys := Summarize(sales).value, SummaryKeys(sales);
    SummarizeRowKeys(sales);
    forall i | 0 <= i < |sales|
      ensures exists j :: 0 <= j < |rows| && RowKey(rows[j]) == SummaryKeyOf(sales[i])
    {
      var k := SummaryKeyOf(sales[i]);
      assert k in DistinctKeys(sales, SummaryKeyOf);
      assert k in keys;
      var j := SeqIndex(keys, k);
      assert RowKey(rows[j]) == keys[j];
    }
    forall j, j' | 0 <= j < j' < |rows|
      ensures KeyLe(RowKey(rows[j]), RowKey(rows[j'])) && RowKey(rows[j]) != RowKey(rows[j'])
    {
      assert RowKey(rows[j]) == keys[j] && RowKey(rows[j']) == keys[j'];
    }
  }

  /** Every group has at least one distinct order, so the zero-count default never applies. */
  lemma OrderCountPositive(sales: seq<Sale>, row: SummaryRow)
    requires SummarizesGroup(sales, row)
    ensures |Image(Members(sales, SummaryKeyOf, RowKey(row)), OrderIdOf)| >= 1
    ensures row.averageOrderValue * (|Image(Members(sales, SummaryKeyOf, RowKey(row)), OrderIdOf)| as real) == row.totalSales
  {
    var members := Members(sales, SummaryKeyOf, RowKey(row));
    assert OrderIdOf(members[0]) in Image(members, OrderIdOf);
  }

  /** A line dated in September 1677, whose month starts before the first timestamp. */
  predicate InFirstTimestampMonth(s: Sale) {
    s.orderDate.year == 1677 && s.orderDate.month == 9
  }

  /**
   * On the cleaner's output the summary fails exactly when a line is dated
   * in September 1677, whose first day precedes the first timestamp; when it
   * succeeds every period date is the first day of the row's month.
   */
  lemma SummarizeCleanSales(raw: seq<RawSale>)
    ensures Summarize(CleanSales(raw)).Ok? <==>
      forall i :: 0 <= i < |CleanSales(raw)| ==> !InFirstTimestampMonth(CleanSales(raw)[i])
    ensures Summarize(CleanSales(raw)).Ok? ==> forall row :: row in Summarize(CleanSales(raw)).value ==>
      row.periodDate.day == 1 && IsValid(row.periodDate) && FormatMonth(row.periodDate) == row.month
  {
    var sales := CleanSales(raw);
    CleanSalesRows(raw);
    forall i | 0 <= i < |sales| ensures DatedLine(sales[i]) {
      var idx := SurvivorIndices(raw);
      assert CleanRowFields(raw[idx[i]], sales[i]);
    }
    SummarizeDatedLines(sales);
  }

  /** The date facts of a cleaned line. */
  predicate DatedLine(s: Sale) {
    IsValid(s.orderDate) && InTimestampRange(s.orderDate) && s.month == FormatMonth(s.orderDate)
  }

  /** The summary of lines with timestamp dates and their months. */
  lemma SummarizeDatedLines(sales: seq<Sale>)
    requires forall i :: 0 <= i < |sales| ==> DatedLine(sales[i])
    ensures Summarize(sales).Ok? <==> forall i :: 0 <= i < |sales| ==> !InFirstTimestampMonth(sales[i])
    ensures Summarize(sales).Ok? ==> forall row :: row in Summarize(sales).value ==>
      row.periodDate.day == 1 && IsValid(row.periodDate) && FormatMonth(row.periodDate) == row.month
  {
    forall i | 0 <= i < |sales| ensures PeriodDate(sales[i].month).Some? <==> !InFirstTimestampMonth(sales[i]) {
      ParseMonthStart(sales[i].orderDate);
      MonthStartInRange(sales[i].orderDate);
    }
    SummarizeOk(sales);
    if Summarize(sales).Ok? {
      SummarizePeriods(sales);
    }
  }

  lemma SummarizePeriods(sales: seq<Sale>)
    requires forall i :: 0 <= i < |sales| ==> DatedLine(sales[i])
    requires Summarize(sales).Ok?
    ensures forall row :: row in Summarize(sales).value ==>
      row.periodDate.day == 1 && IsValid(row.periodDate) && FormatMonth(row.periodDate) == row.month
  {
    SummarizeRowKeys(sales);
    var rows := Summarize(sales).value;
    forall row | row in rows
      ensures row.periodDate.day == 1 && IsValid(row.periodDate) && FormatMonth(row.periodDate) == row.month
    {
      var j := SeqIndex(rows, row);
      var members := Members(sales, SummaryKeyOf, RowKey(row));
      assert members[0] in members;
      var i :| 0 <= i < |sales| && SummaryKeyOf(sales[i]) == RowKey(row);
      ParseMonthStart(sales[i].orderDate);
      var d := sales[i].orderDate;
      assert row.periodDate == Date(d.year, d.month, 1);
    }
  }

  // ---------------------------------------------------------------------
  // The aggregation case of the test suite

  /**
   * Two Tech lines of order 1 in 2024-01 (100.0 and 200.0, one and two
   * units) and a Books line of order 2 in 2024-02; the columns the summary
   * does not read carry placeholder values.
   */
  predicate IsExampleSales(sales: seq<Sale>) {
    && |sales| == 3
    && sales[0] == Sale(1, "C1", None, None, 1, 100.0, Date(2024, 1, 1), "Tech", 100.0, "2024-01")
    && sales[1] == Sale(1, "C1", None, None, 2, 100.0, Date(2024, 1, 1), "Tech", 200.0, "2024-01")
    && sales[2] == Sale(2, "C2", None, None, 1, 50.0, Date(2024, 2, 1), "Books", 50.0, "2024-02")
  }

  /** The Tech row is 300.0 in sales, 3 units, 300.0 per order, dated 2024-01-01. */
  lemma SummarizeExample(sales: seq<Sale>)
    requires IsExampleSales(sales)
    ensures Summarize(sales).Ok?
    ensures var rows := Summarize(sales).value;
      (exists j :: 0 <= j < |rows| && rows[j].category == "Tech")
      && forall j :: 0 <= j < |rows| && rows[j].category == "Tech" ==>
           rows[j].totalSales == 300.0 && rows[j].totalQuantity == 3 && rows[j].averageOrderValue == 300.0
           && rows[j].periodDate == Date(2024, 1, 1)
  {
    ExampleMonthsParse(sales);
    SummarizeOk(sales);
    ExampleHasTechRow(sales);
    ExampleTechRows(sales);
  }

  lemma ExampleHasTechRow(sales: seq<Sale>)
    requires IsExampleSales(sales)
    requires Summarize(sales).Ok?
    ensures var rows := Summarize(sales).value;
      (exists j :: 0 <= j < |rows| && rows[j].category == "Tech")
  {
    SummarizeRowKeys(sales);
    var rows, keys := Summarize(sales).value, SummaryKeys(sales);
    var tech := SummaryKeyOf(sales[0]);
    assert tech in DistinctKeys(sales, SummaryKeyOf);
    var j := SeqIndex(keys, tech);
    assert RowKey(rows[j]) == tech;
  }

  lemma ExampleTechRows(sales: seq<Sale>)
    requires IsExampleSales(sales) && Summarize(sales).Ok?
    ensures var rows := Summarize(sales).value;
      forall j :: 0 <= j < |rows| && rows[j].category == "Tech" ==>
        rows[j].totalSales == 300.0 && rows[j].totalQuantity == 3 && rows[j].averageOrderValue == 300.0
        && rows[j].periodDate == Date(2024, 1, 1)
  {
    SummarizeSpec(sales);
    var rows := Summarize(sales).value;
    forall j | 0 <= j < |rows| && rows[j].category == "Tech"
      ensures rows[j].totalSales == 300.0 && rows[j].totalQuantity == 3 && rows[j].averageOrderValue == 300.0
              && rows[j].periodDate == Date(2024, 1, 1)
    {
      ExampleTechRow(sales, rows[j]);
    }
  }

  /** Any row summarising a Tech group of the example is the 2024-01 one. */
  lemma ExampleTechRow(sales: seq<Sale>, row: SummaryRow)
    requires IsExampleSales(sales)
    requires SummarizesGroup(sales, row) && row.category == "Tech"
    ensures row.totalSales == 300.0 && row.totalQuantity == 3 && row.averageOrderValue == 300.0
    ensures row.periodDate == Date(2024, 1, 1)
  {
    var i :| 0 <= i < |sales| && SummaryKeyOf(sales[i]) == RowKey(row);
    ExampleTechMonth(sales, i);
    var tech := SummaryKey("Tech", "2024-01");
    assert RowKey(row) == tech;
    var members := Members(sales, SummaryKeyOf, tech);
    ExampleTechGroup(sales);
    assert row.totalSales == 300.0 && row.totalQuantity == 3;
    assert row.averageOrderValue == AverageOrderValue(300.0, 1);
    AverageOfOneOrder(300.0);
    assert row.month == sales[0].month;
    ExampleMonthsParse(sales);
  }

  /** The example's Tech lines are all in 2024-01. */
  lemma ExampleTechMonth(sales: seq<Sale>, i: int)
    requires IsExampleSales(sales) && 0 <= i < 3 && sales[i].category == "Tech"
    ensures sales[i].month == "2024-01"
  {
    assert sales[2].category == "Books" && |"Books"| != |"Tech"|;
  }

  lemma ExampleMonthsParse(sales: seq<Sale>)
    requires IsExampleSales(sales)
    ensures forall i :: 0 <= i < |sales| ==> PeriodDate(sales[i].month).Some?
    ensures PeriodDate(sales[0].month) == Some(Date(2024, 1, 1))
  {
    assert FormatMonth(Date(2024, 1, 1)) == "2024-01";
    assert FormatMonth(Date(2024, 2, 1)) == "2024-02";
    ParseMonthStart(Date(2024, 1, 1));
    ParseMonthStart(Date(2024, 2, 1));
  }

  lemma ExampleTechGroup(sales: seq<Sale>)
    requires IsExampleSales(sales)
    ensures var members := Members(sales, SummaryKeyOf, SummaryKey("Tech", "2024-01"));
      SumReal(members, TotalPriceOf) == 300.0 && SumInt(members, QuantityOf) == 3
      && |Image(members, OrderIdOf)| == 1
  {
    var tech := SummaryKey("Tech", "2024-01");
    MembersAppend([], sales[0], SummaryKeyOf, tech);
    MembersAppend([sales[0]], sales[1], SummaryKeyOf, tech);
    MembersAppend([sales[0], sales[1]], sales[2], SummaryKeyOf, tech);
    assert [sales[0]] == [] + [sales[0]] && [sales[0], sales[1]] == [sales[0]] + [sales[1]];
    assert sales == [sales[0], sales[1]] + [sales[2]];
    var members := Members(sales, SummaryKeyOf, tech);
    assert members == [sales[0], sales[1]];
    SumRealAppend([], sales[0], TotalPriceOf);
    SumRealAppend([sales[0]], sales[1], TotalPriceOf);
    SumIntAppend([], sales[0], QuantityOf);
    SumIntAppend([sales[0]], sales[1], QuantityOf);
    assert Image(members, OrderIdOf) == {1};
  }
}
