/**
 * The average check per region (`create_avg_check_by_region`): the lines of
 * an order are summed to its order total, every order is joined to the
 * customer rows carrying its customer id (one joined row per match, a single
 * row in "Unknown" when nothing matches or the match has no region), and the
 * joined rows are reduced per region to their mean order total and their
 * number of distinct order ids, the highest mean first.
 */
module RegionCheck {
  import opened Wrappers
  import opened Sorting
  import opened Grouping
  import opened SalesCleaner
  import CustomerCleaner

  /** The group key of the order totals. */
  datatype OrderKey = OrderKey(orderId: int, customerId: string)

  /** One order's total. */
  datatype OrderTotal = OrderTotal(orderId: int, customerId: string, orderTotal: real)

  /** The two customer columns the join reads; either cell may be missing. */
  datatype CustomerRegion = CustomerRegion(customerId: Option<string>, region: Option<string>)

  /** An order total with the region it was joined to. */
  datatype RegionOrder = RegionOrder(orderId: int, customerId: string, orderTotal: real, region: string)

  /** One row of the result. */
  datatype RegionCheckRow = RegionCheckRow(region: string, avgCheck: real, ordersCount: int)

  const UnknownRegion: string := CustomerCleaner.UnknownRegion

  function OrderKeyOf(s: Sale): OrderKey { OrderKey(s.orderId, s.customerId) }
  function TotalKey(o: OrderTotal): OrderKey { OrderKey(o.orderId, o.customerId) }
  function CustomerIdOf(c: CustomerRegion): Option<string> { c.customerId }
  function OrderOf(e: RegionOrder): OrderTotal { OrderTotal(e.orderId, e.customerId, e.orderTotal) }
  function RegionOf(e: RegionOrder): string { e.region }
  function OrderTotalOf(e: RegionOrder): real { e.orderTotal }
  function JoinedOrderIdOf(e: RegionOrder): int { e.orderId }

  // ---------------------------------------------------------------------
  // Order totals

  /** The total of one (order id, customer id) pair: the sum of its line totals. */
  function KeyTotal(sales: seq<Sale>, k: OrderKey): OrderTotal {
    OrderTotal(k.orderId, k.customerId, SumReal(Members(sales, OrderKeyOf, k), TotalPriceOf))
  }

  /** `groupby([order_id, customer_id])["total_price"].sum()`, from the group map. */
  function OrderTotals(sales: seq<Sale>): (totals: seq<OrderTotal>)
    ensures |totals| == |DistinctKeys(sales, OrderKeyOf)|
    ensures forall i :: 0 <= i < |totals| ==> TotalKey(totals[i]) == DistinctKeys(sales, OrderKeyOf)[i]
    ensures forall i :: 0 <= i < |totals| ==> totals[i] == KeyTotal(sales, DistinctKeys(sales, OrderKeyOf)[i])
  {
    var groups := GroupBy(sales, OrderKeyOf);
    var keys := DistinctKeys(sales, OrderKeyOf);
    forall i | 0 <= i < |keys| ensures keys[i] in groups {
      assert keys[i] in keys;
    }
    seq(|keys|, i requires 0 <= i < |keys| =>
      OrderTotal(keys[i].orderId, keys[i].customerId, SumReal(groups[keys[i]], TotalPriceOf)))
  }

  /** Each total is the sum of the line totals of a (order id, customer id) pair of the table. */
  lemma OrderTotalsSums(sales: seq<Sale>)
    ensures forall o :: o in OrderTotals(sales) ==>
      (exists j :: 0 <= j < |sales| && OrderKeyOf(sales[j]) == TotalKey(o))
      && o.orderTotal == SumReal(Members(sales, OrderKeyOf, TotalKey(o)), TotalPriceOf)
  {
    var totals, keys := OrderTotals(sales), DistinctKeys(sales, OrderKeyOf);
    forall o | o in totals
      ensures exists j :: 0 <= j < |sales| && OrderKeyOf(sales[j]) == TotalKey(o)
      ensures o.orderTotal == SumReal(Members(sales, OrderKeyOf, TotalKey(o)), TotalPriceOf)
    {
      var i := SeqIndex(totals, o);
      var k := keys[i];
      assert o == KeyTotal(sales, k) && TotalKey(o) == k;
      assert k in keys;
    }
  }

  /** Every (order id, customer id) pair of the table has its total. */
  lemma OrderTotalsCover(sales: seq<Sale>)
    ensures forall j :: 0 <= j < |sales| ==>
      exists o :: o in OrderTotals(sales) && TotalKey(o) == OrderKeyOf(sales[j])
  {
    var totals, keys := OrderTotals(sales), DistinctKeys(sales, OrderKeyOf);
    forall j | 0 <= j < |sales|
      ensures exists o :: o in totals && TotalKey(o) == OrderKeyOf(sales[j])
    {
      var k := OrderKeyOf(sales[j]);
      assert k in keys;
      var i := SeqIndex(keys, k);
      assert TotalKey(totals[i]) == k;
      assert totals[i] in totals;
    }
  }

  /** No two totals share a pair, so none is repeated. */
  lemma DistinctOrderTotals(sales: seq<Sale>)
    ensures forall i, j :: 0 <= i < j < |OrderTotals(sales)| ==>
      TotalKey(OrderTotals(sales)[i]) != TotalKey(OrderTotals(sales)[j])
    ensures Distinct(OrderTotals(sales))
  {
    var totals := OrderTotals(sales);
    var keys := DistinctKeys(sales, OrderKeyOf);
    forall i, j | 0 <= i < j < |totals| ensures TotalKey(totals[i]) != TotalKey(totals[j]) {
      assert TotalKey(totals[i]) == keys[i] && TotalKey(totals[j]) == keys[j];
    }
  }

  // ---------------------------------------------------------------------
  // The left join on customer_id

  /** The region a matching customer row contributes; a missing one is filled in as "Unknown". */
  function RegionOrUnknown(c: CustomerRegion): string {
    c.region.GetOr(UnknownRegion)
  }

  function WithRegion(o: OrderTotal, region: string): (e: RegionOrder)
    ensures OrderOf(e) == o && e.region == region
  {
    RegionOrder(o.orderId, o.customerId, o.orderTotal, region)
  }

  /** The customer rows an order matches: those with its customer id, in table order. */
  function Matches(o: OrderTotal, customers: seq<CustomerRegion>): seq<CustomerRegion> {
    Members(customers, CustomerIdOf, Some(o.customerId))
  }

  /** The joined rows of one order: one per matching customer row, or one in "Unknown". */
  function JoinOne(o: OrderTotal, customers: seq<CustomerRegion>): (rows: seq<RegionOrder>)
    ensures |rows| == (if |Matches(o, customers)| == 0 then 1 else |Matches(o, customers)|)
    ensures forall i :: 0 <= i < |rows| ==> OrderOf(rows[i]) == o
  {
    var m := Matches(o, customers);
    if |m| == 0 then [WithRegion(o, UnknownRegion)]
    else seq(|m|, i requires 0 <= i < |m| => WithRegion(o, RegionOrUnknown(m[i])))
  }

  /** `order_totals.merge(customers, on="customer_id", how="left")` with the region filled in. */
  function Join(orders: seq<OrderTotal>, customers: seq<CustomerRegion>): (rows: seq<RegionOrder>)
    ensures |rows| >= |orders|
  {
    if |orders| == 0 then []
    else Join(orders[..|orders| - 1], customers) + JoinOne(orders[|orders| - 1], customers)
  }

  /**
   * The rows of one order carry the region of each customer row with its
   * id, and "Unknown" for a match without a region: one row per matching
   * customer row, in table order, so a region counts as often as its
   * matches. An order no customer row matches keeps exactly one row, in
   * "Unknown".
   */
  lemma JoinOneSpec(o: OrderTotal, customers: seq<CustomerRegion>)
    ensures (forall c :: c in customers ==> c.customerId != Some(o.customerId)) ==>
      JoinOne(o, customers) == [WithRegion(o, UnknownRegion)]
    ensures |Matches(o, customers)| > 0 ==>
      |JoinOne(o, customers)| == |Matches(o, customers)|
      && forall i :: 0 <= i < |Matches(o, customers)| ==>
        JoinOne(o, customers)[i] == WithRegion(o, RegionOrUnknown(Matches(o, customers)[i]))
    ensures forall c :: c in customers && c.customerId == Some(o.customerId) ==>
      WithRegion(o, RegionOrUnknown(c)) in JoinOne(o, customers)
    ensures forall e :: e in JoinOne(o, customers) ==>
      e.region == UnknownRegion
      || exists c :: c in customers && c.customerId == Some(o.customerId) && c.region == Some(e.region)
  {
    var m, rows := Matches(o, customers), JoinOne(o, customers);
    MembersIn(customers, CustomerIdOf, Some(o.customerId));
    if |m| > 0 {
      forall c | c in customers && c.customerId == Some(o.customerId)
        ensures WithRegion(o, RegionOrUnknown(c)) in rows
      {
        assert c in m;
        var i := SeqIndex(m, c);
        assert rows[i] == WithRegion(o, RegionOrUnknown(c));
      }
      forall e | e in rows
        ensures e.region == UnknownRegion
          || exists c :: c in customers && c.customerId == Some(o.customerId) && c.region == Some(e.region)
      {
        var i := SeqIndex(rows, e);
        assert m[i] in m;
      }
    } else {
      assert forall c :: c in customers ==> c.customerId != Some(o.customerId);
    }
  }

  /**
   * Each order keeps its own joined rows, in customer table order, and no
   * others: exactly max(1, the number of matching customer rows) of them.
   */
  lemma {:induction false} JoinRowsOfOrder(orders: seq<OrderTotal>, customers: seq<CustomerRegion>, o: OrderTotal)
    requires Distinct(orders) && o in orders
    ensures Members(Join(orders, customers), OrderOf, o) == JoinOne(o, customers)
  {
    var n := |orders| - 1;
    var init, last := orders[..n], orders[n];
    assert orders == init + [last];
    if last == o {
      assert o !in init by {
        forall i | 0 <= i < n ensures init[i] != o {
          assert init[i] == orders[i];
        }
      }
      JoinRowsOfLast(init, last, customers);
    } else {
      assert o in init;
      assert Distinct(init) by {
        assert forall i, j :: 0 <= i < j < n ==> init[i] == orders[i] && init[j] == orders[j];
      }
      JoinRowsOfOrder(init, customers, o);
      JoinRowsOfEarlier(init, last, customers, o);
    }
  }

  /** A new last order contributes exactly its own rows. */
  lemma JoinRowsOfLast(init: seq<OrderTotal>, last: OrderTotal, customers: seq<CustomerRegion>)
    requires last !in init
    ensures Members(Join(init + [last], customers), OrderOf, last) == JoinOne(last, customers)
  {
    var orders := init + [last];
    assert orders[..|init|] == init;
    var rest, rows := Join(init, customers), JoinOne(last, customers);
    assert Join(orders, customers) == rest + rows;
    MembersConcat(rest, rows, OrderOf, last);
    MembersAll(rows, OrderOf, last);
    JoinRowsNotOfOrder(init, customers, last);
    assert [] + rows == rows;
  }

  /** Another last order leaves the rows of an earlier order as they were. */
  lemma JoinRowsOfEarlier(init: seq<OrderTotal>, last: OrderTotal, customers: seq<CustomerRegion>, o: OrderTotal)
    requires o != last
    ensures Members(Join(init + [last], customers), OrderOf, o) == Members(Join(init, customers), OrderOf, o)
  {
    var orders := init + [last];
    assert orders[..|init|] == init;
    var rest, rows := Join(init, customers), JoinOne(last, customers);
    assert Join(orders, customers) == rest + rows;
    MembersConcat(rest, rows, OrderOf, o);
    MembersNone(rows, OrderOf, o);
    assert Members(rest, OrderOf, o) + [] == Members(rest, OrderOf, o);
  }

  /** An order that is not joined has no joined rows. */
  lemma {:induction false} JoinRowsNotOfOrder(orders: seq<OrderTotal>, customers: seq<CustomerRegion>, o: OrderTotal)
    requires o !in orders
    ensures Members(Join(orders, customers), OrderOf, o) == []
  {
    if |orders| > 0 {
      var n := |orders| - 1;
      var init, last := orders[..n], orders[n];
      assert orders == init + [last];
      JoinRowsNotOfOrder(init, customers, o);
      var rest, rows := Join(init, customers), JoinOne(last, customers);
      assert Join(orders, customers) == rest + rows;
      MembersConcat(rest, rows, OrderOf, o);
      assert last != o;
      MembersNone(rows, OrderOf, o);
    }
  }

  /** Every joined row belongs to a joined order, and no order is dropped by the join. */
  lemma JoinOrders(orders: seq<OrderTotal>, customers: seq<CustomerRegion>)
    requires Distinct(orders)
    ensures forall e :: e in Join(orders, customers) ==> OrderOf(e) in orders
    ensures forall o :: o in orders ==> exists e :: e in Join(orders, customers) && OrderOf(e) == o
  {
    var joined := Join(orders, customers);
    JoinFromOrders(orders, customers);
    forall o | o in orders ensures exists e :: e in joined && OrderOf(e) == o {
      JoinRowsOfOrder(orders, customers, o);
      MembersIn(joined, OrderOf, o);
      assert JoinOne(o, customers)[0] in Members(joined, OrderOf, o);
    }
  }

  /** Every joined row belongs to a joined order. */
  lemma {:induction false} JoinFromOrders(orders: seq<OrderTotal>, customers: seq<CustomerRegion>)
    ensures forall e :: e in Join(orders, customers) ==> OrderOf(e) in orders
  {
    if |orders| > 0 {
      var n := |orders| - 1;
      var init, last := orders[..n], orders[n];
      JoinFromOrders(init, customers);
      assert orders == init + [last];
      forall e | e in JoinOne(last, customers) ensures OrderOf(e) == last {
        var i := SeqIndex(JoinOne(last, customers), e);
      }
    }
  }

  /** No two customer rows share a present customer id. */
  predicate UniqueCustomerIds(customers: seq<CustomerRegion>) {
    forall i, j :: 0 <= i < j < |customers| && customers[i].customerId.Some? ==>
      customers[i].customerId != customers[j].customerId
  }

  /** With unique customer ids an order matches at most one customer row. */
  lemma {:induction false} UniqueMatch(o: OrderTotal, customers: seq<CustomerRegion>)
    requires UniqueCustomerIds(customers)
    ensures |Matches(o, customers)| <= 1
  {
    if |customers| > 0 {
      var n := |customers| - 1;
      var init := customers[..n];
      assert UniqueCustomerIds(init) by {
        assert forall i :: 0 <= i < n ==> init[i] == customers[i];
      }
      UniqueMatch(o, init);
      MembersAppend(init, customers[n], CustomerIdOf, Some(o.customerId));
      assert customers == init + [customers[n]];
      if customers[n].customerId == Some(o.customerId) {
        assert forall i :: 0 <= i < n ==> init[i].customerId != Some(o.customerId);
      }
    }
  }

  /**
   * With unique customer ids the join keeps the orders one for one, in
   * order, each with its customer's region or "Unknown".
   */
  lemma {:induction false} JoinUnique(orders: seq<OrderTotal>, customers: seq<CustomerRegion>)
    requires UniqueCustomerIds(customers)
    ensures |Join(orders, customers)| == |orders|
    ensures forall i :: 0 <= i < |orders| ==>
      Join(orders, customers)[i] == JoinOne(orders[i], customers)[0]
  {
    if |orders| > 0 {
      var n := |orders| - 1;
      var init := orders[..n];
      JoinUnique(init, customers);
      UniqueMatch(orders[n], customers);
      var rest, one := Join(init, customers), JoinOne(orders[n], customers);
      assert |one| == 1 && |rest| == n;
      assert Join(orders, customers) == rest + one;
      forall i | 0 <= i < |orders|
        ensures Join(orders, customers)[i] == JoinOne(orders[i], customers)[0]
      {
        if i < n {
          assert rest[i] == JoinOne(init[i], customers)[0];
          assert init[i] == orders[i];
          assert (rest + one)[i] == rest[i];
        } else {
          assert i == n;
          assert (rest + one)[n] == one[0];
        }
      }
    }
  }

  /** The single joined row of an order when customer ids are unique. */
  lemma JoinUniqueRegion(o: OrderTotal, customers: seq<CustomerRegion>)
    requires UniqueCustomerIds(customers)
    ensures |JoinOne(o, customers)| == 1 && OrderOf(JoinOne(o, customers)[0]) == o
    ensures forall c :: c in customers && c.customerId == Some(o.customerId) ==>
      JoinOne(o, customers)[0].region == RegionOrUnknown(c)
    ensures (forall c :: c in customers ==> c.customerId != Some(o.customerId)) ==>
      JoinOne(o, customers)[0].region == UnknownRegion
  {
    UniqueMatch(o, customers);
    JoinOneSpec(o, customers);
    var rows := JoinOne(o, customers);
    assert rows == [rows[0]];
  }

  // ---------------------------------------------------------------------
  // Per region, highest average first

  /** The mean order total and the number of distinct order ids of one region's rows. */
  function RegionSummary(region: string, group: seq<RegionOrder>): RegionCheckRow
    requires |group| > 0
  {
    RegionCheckRow(region, Mean(group, OrderTotalOf), |Image(group, JoinedOrderIdOf)|)
  }

  /** `groupby("region").agg(avg_check=mean, orders_count=nunique)`, from the group map. */
  function RegionRows(joined: seq<RegionOrder>): (rows: seq<RegionCheckRow>)
    ensures |rows| == |DistinctKeys(joined, RegionOf)|
    ensures forall i :: 0 <= i < |rows| ==>
      (rows[i].region == DistinctKeys(joined, RegionOf)[i]
       && |Members(joined, RegionOf, rows[i].region)| > 0
       && rows[i] == RegionSummary(rows[i].region, Members(joined, RegionOf, rows[i].region)))
  {
    var groups := GroupBy(joined, RegionOf);
    var keys := DistinctKeys(joined, RegionOf);
    forall i | 0 <= i < |keys| ensures keys[i] in groups {
      assert keys[i] in keys;
    }
    seq(|keys|, i requires 0 <= i < |keys| => RegionSummary(keys[i], groups[keys[i]]))
  }

  /** a may come first: its average check is at least b's. */
  predicate ChecksBefore(a: RegionCheckRow, b: RegionCheckRow) {
    a.avgCheck >= b.avgCheck
  }

  lemma ChecksBeforeIsTotalPreorder()
    ensures IsTotalPreorder(ChecksBefore)
  {
  }

  /** The joined rows of the order totals. */
  function JoinedOrders(sales: seq<Sale>, customers: seq<CustomerRegion>): seq<RegionOrder> {
    Join(OrderTotals(sales), customers)
  }

  /** The result table: the region rows sorted by average check, descending. */
  function AvgCheckByRegion(sales: seq<Sale>, customers: seq<CustomerRegion>): (result: seq<RegionCheckRow>)
    ensures multiset(result) == multiset(RegionRows(JoinedOrders(sales, customers)))
    ensures forall i, j :: 0 <= i < j < |result| ==> result[i].avgCheck >= result[j].avgCheck
  {
    ChecksBeforeIsTotalPreorder();
    var sorted := Sort(RegionRows(JoinedOrders(sales, customers)), ChecksBefore);
    assert SortedBy(sorted, ChecksBefore);
    sorted
  }

  /** Each row of the result is one region's mean order total and number of distinct order ids. */
  lemma AvgCheckRows(sales: seq<Sale>, customers: seq<CustomerRegion>)
    ensures var joined := JoinedOrders(sales, customers);
      forall r :: r in AvgCheckByRegion(sales, customers) ==>
        && (exists e :: e in joined && e.region == r.region)
        && |Members(joined, RegionOf, r.region)| > 0
        && r.avgCheck == Mean(Members(joined, RegionOf, r.region), OrderTotalOf)
        && r.ordersCount == |Image(Members(joined, RegionOf, r.region), JoinedOrderIdOf)|
  {
    var joined, result := JoinedOrders(sales, customers), AvgCheckByRegion(sales, customers);
    var rows, keys := RegionRows(joined), DistinctKeys(joined, RegionOf);
    forall r | r in result
      ensures (exists e :: e in joined && e.region == r.region)
        && |Members(joined, RegionOf, r.region)| > 0
        && r.avgCheck == Mean(Members(joined, RegionOf, r.region), OrderTotalOf)
        && r.ordersCount == |Image(Members(joined, RegionOf, r.region), JoinedOrderIdOf)|
    {
      var k := SeqIndex(result, r);
      var m := MultisetIndex(rows, result, k);
      assert r == rows[m];
      assert r.region == keys[m];
      assert keys[m] in keys;
      var j :| 0 <= j < |joined| && RegionOf(joined[j]) == keys[m];
      assert joined[j] in joined;
    }
  }

  /** Every region of the joined table has a row in the result. */
  lemma AvgCheckCovers(sales: seq<Sale>, customers: seq<CustomerRegion>)
    ensures forall e :: e in JoinedOrders(sales, customers) ==>
      exists r :: r in AvgCheckByRegion(sales, customers) && r.region == e.region
  {
    var joined, result := JoinedOrders(sales, customers), AvgCheckByRegion(sales, customers);
    var rows, keys := RegionRows(joined), DistinctKeys(joined, RegionOf);
    forall e | e in joined ensures exists r :: r in result && r.region == e.region {
      var j := SeqIndex(joined, e);
      RowKeyIn(joined, RegionOf, j);
      var m := SeqIndex(keys, RegionOf(e));
      assert rows[m].region == e.region;
      var k := MultisetIndex(result, rows, m);
      assert result[k] in result;
    }
  }

  /** No region has two rows in the result. */
  lemma AvgCheckRegionsDistinct(sales: seq<Sale>, customers: seq<CustomerRegion>)
    ensures var result := AvgCheckByRegion(sales, customers);
      forall i, j :: 0 <= i < j < |result| ==> result[i].region != result[j].region
  {
    var joined, result := JoinedOrders(sales, customers), AvgCheckByRegion(sales, customers);
    var rows, keys := RegionRows(joined), DistinctKeys(joined, RegionOf);
    RegionRowsDistinct(joined, result);
    forall i, j | 0 <= i < j < |result| ensures result[i].region != result[j].region {
      var mi := MultisetIndex(rows, result, i);
      var mj := MultisetIndex(rows, result, j);
      assert result[i].region == keys[mi] && result[j].region == keys[mj];
      assert result[i] != result[j];
    }
  }

  /** The region rows repeat no row, their regions being distinct; neither does a permutation of them. */
  lemma RegionRowsDistinct(joined: seq<RegionOrder>, result: seq<RegionCheckRow>)
    requires multiset(result) == multiset(RegionRows(joined))
    ensures Distinct(result)
  {
    var rows := RegionRows(joined);
    forall i, j | 0 <= i < j < |rows| ensures rows[i] != rows[j] {
      assert rows[i].region == DistinctKeys(joined, RegionOf)[i];
    }
    PermutationDistinct(rows, result);
  }

  /**
   * An order that no customer row matches is not dropped: it is counted in
   * the "Unknown" group, which therefore has a row in the result.
   */
  lemma UnmatchedOrderIsUnknown(sales: seq<Sale>, customers: seq<CustomerRegion>, o: OrderTotal)
    requires o in OrderTotals(sales)
    requires forall c :: c in customers ==> c.customerId != Some(o.customerId)
    ensures WithRegion(o, UnknownRegion) in Members(JoinedOrders(sales, customers), RegionOf, UnknownRegion)
    ensures exists r :: r in AvgCheckByRegion(sales, customers) && r.region == UnknownRegion
  {
    var joined := JoinedOrders(sales, customers);
    DistinctOrderTotals(sales);
    JoinRowsOfOrder(OrderTotals(sales), customers, o);
    JoinOneSpec(o, customers);
    MembersIn(joined, OrderOf, o);
    assert WithRegion(o, UnknownRegion) in Members(joined, OrderOf, o);
    MembersIn(joined, RegionOf, UnknownRegion);
    AvgCheckCovers(sales, customers);
  }

  /** An order whose matching customer row has no region is counted in "Unknown" as well. */
  lemma RegionlessMatchIsUnknown(sales: seq<Sale>, customers: seq<CustomerRegion>, o: OrderTotal, c: CustomerRegion)
    requires o in OrderTotals(sales)
    requires c in customers && c.customerId == Some(o.customerId) && c.region.None?
    ensures WithRegion(o, UnknownRegion) in Members(JoinedOrders(sales, customers), RegionOf, UnknownRegion)
  {
    var joined := JoinedOrders(sales, customers);
    DistinctOrderTotals(sales);
    JoinRowsOfOrder(OrderTotals(sales), customers, o);
    JoinOneSpec(o, customers);
    MembersIn(joined, OrderOf, o);
    assert WithRegion(o, RegionOrUnknown(c)) in Members(joined, OrderOf, o);
    MembersIn(joined, RegionOf, UnknownRegion);
  }
}
