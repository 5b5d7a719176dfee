/**
 * The product ranking (`create_product_ranking`): units and revenue per
 * (product id, product name), best sellers first, the first top_n rows with
 * their rank positions 1, 2, ...
 */
module ProductRanking {
  import opened Wrappers
  import opened Sorting
  import opened Strings
  import opened Grouping
  import opened SalesCleaner

  /** The group key; a line missing either part belongs to no group. */
  datatype ProductKey = ProductKey(productId: string, productName: string)

  /** One product's aggregate. */
  datatype ProductTotals = ProductTotals(productId: string, productName: string, totalSold: int, totalRevenue: real)

  /** One row of the ranking. */
  datatype RankedProduct = RankedProduct(
    productId: string,
    productName: string,
    totalSold: int,
    totalRevenue: real,
    rankPosition: int)

  /** The group of a line; None when product_id or product_name is missing (dropped by groupby). */
  function ProductKeyOf(s: Sale): Option<ProductKey> {
    if s.productId.Some? && s.productName.Some? then Some(ProductKey(s.productId.value, s.productName.value)) else None
  }

  function TotalsKey(t: ProductTotals): ProductKey { ProductKey(t.productId, t.productName) }
  function TotalsOf(r: RankedProduct): ProductTotals { ProductTotals(r.productId, r.productName, r.totalSold, r.totalRevenue) }

  // ---------------------------------------------------------------------
  // Totals per product

  /** The keys that name a product, in their order. */
  function NamedKeys(ks: seq<Option<ProductKey>>): (named: seq<ProductKey>)
    ensures forall k :: k in named <==> Some(k) in ks
    ensures Distinct(ks) ==> Distinct(named)
  {
    if |ks| == 0 then []
    else
      var rest := NamedKeys(ks[1..]);
      assert forall k :: Some(k) in ks[1..] ==> Some(k) in ks;
      assert ks == [ks[0]] + ks[1..];
      if ks[0].Some? then [ks[0].value] + rest else rest
  }

  /** groupby's key order: by product id, then by product name. */
  predicate KeyLe(a: ProductKey, b: ProductKey) {
    PairLe(a.productId, a.productName, b.productId, b.productName)
  }

  lemma KeyLeIsTotalPreorder()
    ensures IsTotalPreorder(KeyLe)
  {
    forall a: ProductKey, b: ProductKey ensures KeyLe(a, b) || KeyLe(b, a) {
      PairLeTotal(a.productId, a.productName, b.productId, b.productName);
    }
    forall a: ProductKey, b: ProductKey, c: ProductKey | KeyLe(a, b) && KeyLe(b, c) ensures KeyLe(a, c) {
      PairLeTransitive(a.productId, a.productName, b.productId, b.productName, c.productId, c.productName);
    }
  }

  /** The products of the table, each once, in ascending key order. */
  function ProductKeys(sales: seq<Sale>): (keys: seq<ProductKey>)
    ensures Distinct(keys)
    ensures forall k :: k in keys <==> exists j :: 0 <= j < |sales| && ProductKeyOf(sales[j]) == Some(k)
    ensures forall k :: k in keys <==> Some(k) in DistinctKeys(sales, ProductKeyOf)
    ensures forall i, j :: 0 <= i < j < |keys| ==> KeyLe(keys[i], keys[j])
  {
    KeyLeIsTotalPreorder();
    var ks := DistinctKeys(sales, ProductKeyOf);
    assert forall k :: Some(k) in ks <==> exists j :: 0 <= j < |sales| && ProductKeyOf(sales[j]) == Some(k);
    var named := NamedKeys(ks);
    var sorted := Sort(named, KeyLe);
    assert forall k :: k in sorted <==> k in multiset(sorted);
    assert forall k :: k in named <==> k in multiset(named);
    PermutationDistinct(named, sorted);
    sorted
  }

  /** The aggregate of one product: the sums over its group. */
  function ProductGroupTotals(k: ProductKey, group: seq<Sale>): ProductTotals {
    ProductTotals(k.productId, k.productName, SumInt(group, QuantityOf), SumReal(group, TotalPriceOf))
  }

  /** `groupby([product_id, product_name]).agg(total_sold, total_revenue)`, from the group map. */
  function Totals(sales: seq<Sale>): (totals: seq<ProductTotals>)
    ensures |totals| == |ProductKeys(sales)|
    ensures forall i :: 0 <= i < |totals| ==>
      (TotalsKey(totals[i]) == ProductKeys(sales)[i]
       && totals[i] == ProductGroupTotals(ProductKeys(sales)[i], Members(sales, ProductKeyOf, Some(ProductKeys(sales)[i]))))
  {
    var groups := GroupBy(sales, ProductKeyOf);
    var keys := ProductKeys(sales);
    forall i | 0 <= i < |keys| ensures Some(keys[i]) in groups {
      assert keys[i] in keys;
    }
    seq(|keys|, i requires 0 <= i < |keys| => ProductGroupTotals(keys[i], groups[Some(keys[i])]))
  }

  /** One row per product of the table, each summing that product's lines. */
  lemma TotalsSpec(sales: seq<Sale>)
    ensures forall t :: t in Totals(sales) ==>
      (exists j :: 0 <= j < |sales| && ProductKeyOf(sales[j]) == Some(TotalsKey(t)))
      && t.totalSold == SumInt(Members(sales, ProductKeyOf, Some(TotalsKey(t))), QuantityOf)
      && t.totalRevenue == SumReal(Members(sales, ProductKeyOf, Some(TotalsKey(t))), TotalPriceOf)
    ensures forall j :: 0 <= j < |sales| && ProductKeyOf(sales[j]).Some? ==>
      exists t :: t in Totals(sales) && Some(TotalsKey(t)) == ProductKeyOf(sales[j])
    ensures forall i, i' :: 0 <= i < i' < |Totals(sales)| ==> TotalsKey(Totals(sales)[i]) != TotalsKey(Totals(sales)[i'])
  {
    var totals, keys := Totals(sales), ProductKeys(sales);
    forall t | t in totals
      ensures exists j :: 0 <= j < |sales| && ProductKeyOf(sales[j]) == Some(TotalsKey(t))
    {
      var i := SeqIndex(totals, t);
      assert keys[i] in keys;
    }
    forall j | 0 <= j < |sales| && ProductKeyOf(sales[j]).Some?
      ensures exists t :: t in totals && Some(TotalsKey(t)) == ProductKeyOf(sales[j])
    {
      var k := ProductKeyOf(sales[j]).value;
      assert k in keys;
      var i := SeqIndex(keys, k);
      assert totals[i] in totals;
    }
  }

  // ---------------------------------------------------------------------
  // Order, head and rank

  /** a may come first: more units, or as many units and at least the revenue. */
  predicate RanksBefore(a: ProductTotals, b: ProductTotals) {
    a.totalSold > b.totalSold || (a.totalSold == b.totalSold && a.totalRevenue >= b.totalRevenue)
  }

  lemma RanksBeforeIsTotalPreorder()
    ensures IsTotalPreorder(RanksBefore)
  {
  }

  /** `head(n)`: the first n rows, or for a negative n all but the last -n. */
  function Head<T>(s: seq<T>, n: int): (h: seq<T>)
    ensures |h| == (if n >= 0 then (if n < |s| then n else |s|) else (if |s| + n > 0 then |s| + n else 0))
    ensures h == s[..|h|]
  {
    if n >= 0 then (if n < |s| then s[..n] else s)
    else (if |s| + n > 0 then s[..|s| + n] else [])
  }

  /** The totals, best first. */
  function SortedTotals(sales: seq<Sale>): (sorted: seq<ProductTotals>)
    ensures multiset(sorted) == multiset(Totals(sales))
    ensures SortedBy(sorted, RanksBefore)
  {
    RanksBeforeIsTotalPreorder();
    Sort(Totals(sales), RanksBefore)
  }

  /** a's product comes no later than b's in key order. */
  predicate KeyBefore(a: ProductTotals, b: ProductTotals) {
    KeyLe(TotalsKey(a), TotalsKey(b))
  }

  /** The sort is stable on totals built in key order: products that tie stay in key order. */
  lemma SortedTotalsTies(sales: seq<Sale>)
    ensures TiesOrderedBy(SortedTotals(sales), RanksBefore, KeyBefore)
  {
    var totals, keys := Totals(sales), ProductKeys(sales);
    forall i, j | 0 <= i < j < |totals| ensures KeyBefore(totals[i], totals[j]) {
      assert TotalsKey(totals[i]) == keys[i] && TotalsKey(totals[j]) == keys[j];
    }
    RanksBeforeIsTotalPreorder();
    SortKeepsTies(totals, RanksBefore, KeyBefore);
  }

  /** The ranking table: the head of the sorted totals, numbered from 1. */
  function RankProducts(sales: seq<Sale>, topN: int): seq<RankedProduct> {
    var top := Head(SortedTotals(sales), topN);
    seq(|top|, i requires 0 <= i < |top| =>
      RankedProduct(top[i].productId, top[i].productName, top[i].totalSold, top[i].totalRevenue, i + 1))
  }

  // ---------------------------------------------------------------------
  // What the ranking holds

  /** The ranking is the head of the sorted totals, numbered from 1. */
  lemma RankIsHead(sales: seq<Sale>, topN: int)
    ensures var r, sorted := RankProducts(sales, topN), SortedTotals(sales);
      |r| <= |sorted|
      && (forall i :: 0 <= i < |r| ==> TotalsOf(r[i]) == sorted[i] && r[i].rankPosition == i + 1)
      && |r| == (if topN >= 0 then (if topN < |sorted| then topN else |sorted|) else (if |sorted| + topN > 0 then |sorted| + topN else 0))
  {
  }

  /** The totals repeat no row, their keys being distinct. */
  lemma DistinctTotals(sales: seq<Sale>)
    ensures Distinct(Totals(sales))
  {
    var totals := Totals(sales);
    forall i, j | 0 <= i < j < |totals| ensures totals[i] != totals[j] {
      assert TotalsKey(totals[i]) == ProductKeys(sales)[i];
    }
  }

  /** min(top_n, #products) rows for a non-negative top_n; all but the last -top_n otherwise. */
  lemma RankLength(sales: seq<Sale>, topN: int)
    ensures var r, n := RankProducts(sales, topN), |Totals(sales)|;
      && (topN >= 0 ==> |r| == (if topN < n then topN else n))
      && (topN < 0 ==> |r| == (if n + topN > 0 then n + topN else 0))
  {
    var totals, sorted := Totals(sales), SortedTotals(sales);
    RankIsHead(sales, topN);
    assert |sorted| == |totals| by {
      assert |multiset(sorted)| == |multiset(totals)|;
    }
  }

  /** The `top_n` of a call that does not give one. */
  const DefaultTopN: int := 5

  /** Without a `top_n` the ranking shows the five best products, or all of them when there are fewer. */
  lemma RankDefaultLength(sales: seq<Sale>)
    ensures var r, n := RankProducts(sales, DefaultTopN), |Totals(sales)|;
      |r| == (if n < 5 then n else 5)
  {
    RankLength(sales, DefaultTopN);
  }

  /**
   * Rank positions count from 1, best first, products that tie in key order;
   * every row is one product's totals, none twice.
   */
  lemma RankRows(sales: seq<Sale>, topN: int)
    ensures var r := RankProducts(sales, topN);
      && (forall i :: 0 <= i < |r| ==> r[i].rankPosition == i + 1)
      && (forall i, j :: 0 <= i < j < |r| ==> RanksBefore(TotalsOf(r[i]), TotalsOf(r[j])))
      && (forall i, j :: 0 <= i < j < |r| && RanksBefore(TotalsOf(r[j]), TotalsOf(r[i])) ==>
            KeyBefore(TotalsOf(r[i]), TotalsOf(r[j])))
      && (forall i :: 0 <= i < |r| ==> TotalsOf(r[i]) in Totals(sales))
      && (forall i, j :: 0 <= i < j < |r| ==> TotalsOf(r[i]) != TotalsOf(r[j]))
  {
    var r, totals, sorted := RankProducts(sales, topN), Totals(sales), SortedTotals(sales);
    RankIsHead(sales, topN);
    SortedTotalsTies(sales);
    forall i | 0 <= i < |r| ensures TotalsOf(r[i]) in totals {
      assert sorted[i] in multiset(sorted);
    }
    DistinctTotals(sales);
    PermutationDistinct(totals, sorted);
  }

  /**
   * Every product left out ranks no higher than any product shown, and one
   * that ties with a product shown comes later in key order.
   */
  lemma RankTopN(sales: seq<Sale>, topN: int)
    ensures var r := RankProducts(sales, topN);
      forall t :: t in Totals(sales) && (forall i :: 0 <= i < |r| ==> TotalsOf(r[i]) != t) ==>
        forall i :: 0 <= i < |r| ==>
          RanksBefore(TotalsOf(r[i]), t) && (RanksBefore(t, TotalsOf(r[i])) ==> KeyBefore(TotalsOf(r[i]), t))
  {
    var r, totals, sorted := RankProducts(sales, topN), Totals(sales), SortedTotals(sales);
    RankIsHead(sales, topN);
    SortedTotalsTies(sales);
    forall t | t in totals && (forall i :: 0 <= i < |r| ==> TotalsOf(r[i]) != t)
      ensures forall i :: 0 <= i < |r| ==>
        RanksBefore(TotalsOf(r[i]), t) && (RanksBefore(t, TotalsOf(r[i])) ==> KeyBefore(TotalsOf(r[i]), t))
    {
      assert t in multiset(sorted);
      assert t !in sorted[..|r|] by {
        forall i | 0 <= i < |r| ensures sorted[..|r|][i] != t {
          assert sorted[..|r|][i] == TotalsOf(r[i]);
        }
      }
      PrefixTiesBeforeRest(sorted, RanksBefore, KeyBefore, |r|, t);
      forall i | 0 <= i < |r|
        ensures RanksBefore(TotalsOf(r[i]), t) && (RanksBefore(t, TotalsOf(r[i])) ==> KeyBefore(TotalsOf(r[i]), t))
      {
        assert TotalsOf(r[i]) == sorted[i];
      }
    }
  }

  /**
   * The first row of a non-empty ranking ranks before every product, and
   * comes first in key order among the products it ties with.
   */
  lemma RankFirst(sales: seq<Sale>, topN: int)
    requires |RankProducts(sales, topN)| > 0
    ensures var first := TotalsOf(RankProducts(sales, topN)[0]);
      forall t :: t in Totals(sales) ==> RanksBefore(first, t) && (RanksBefore(t, first) ==> KeyBefore(first, t))
  {
    var r := RankProducts(sales, topN);
    var first := TotalsOf(r[0]);
    RankRows(sales, topN);
    RankTopN(sales, topN);
    forall t | t in Totals(sales) ensures RanksBefore(first, t) && (RanksBefore(t, first) ==> KeyBefore(first, t)) {
      if i :| 0 <= i < |r| && TotalsOf(r[i]) == t {
        if i == 0 {
          KeyLeIsTotalPreorder();
          assert KeyLe(TotalsKey(t), TotalsKey(t));
        } else {
          assert RanksBefore(TotalsOf(r[0]), TotalsOf(r[i]));
        }
      }
    }
  }

  // ---------------------------------------------------------------------
  // The ranking case of the test suite

  /**
   * P1 sold 5 for 500.0, P2 sold 3 for 150.0, P3 sold 7 for 210.0; the
   * columns the ranking does not read carry placeholder values.
   */
  predicate IsExampleSales(sales: seq<Sale>) {
    && |sales| == 3
    && sales[0] == Sale(1, "C1", Some("P1"), Some("Prod1"), 5, 100.0, Dates.Date(2024, 1, 1), "Tech", 500.0, "2024-01")
    && sales[1] == Sale(2, "C1", Some("P2"), Some("Prod2"), 3, 50.0, Dates.Date(2024, 1, 1), "Tech", 150.0, "2024-01")
    && sales[2] == Sale(3, "C1", Some("P3"), Some("Prod3"), 7, 30.0, Dates.Date(2024, 1, 1), "Tech", 210.0, "2024-01")
  }

  /** Each product of the example has a single line. */
  lemma ExampleGroup(sales: seq<Sale>, j: int)
    requires IsExampleSales(sales) && 0 <= j < 3
    ensures Members(sales, ProductKeyOf, ProductKeyOf(sales[j])) == [sales[j]]
    ensures SumInt([sales[j]], QuantityOf) == sales[j].quantity
  {
    var k := ProductKeyOf(sales[j]);
    assert sales == [sales[0]] + [sales[1]] + [sales[2]];
    assert [sales[0]] == [] + [sales[0]];
    MembersAppend([], sales[0], ProductKeyOf, k);
    MembersAppend([sales[0]], sales[1], ProductKeyOf, k);
    MembersAppend([sales[0], sales[1]], sales[2], ProductKeyOf, k);
    SumIntAppend([], sales[j], QuantityOf);
    assert [] + [sales[j]] == [sales[j]];
  }

  /** Each total of the example is one line's quantity. */
  lemma ExampleTotal(sales: seq<Sale>, t: ProductTotals)
    requires IsExampleSales(sales) && t in Totals(sales)
    ensures || (TotalsKey(t) == ProductKey("P1", "Prod1") && t.totalSold == 5)
            || (TotalsKey(t) == ProductKey("P2", "Prod2") && t.totalSold == 3)
            || (TotalsKey(t) == ProductKey("P3", "Prod3") && t.totalSold == 7)
  {
    var totals, keys := Totals(sales), ProductKeys(sales);
    var i := SeqIndex(totals, t);
    assert keys[i] in keys;
    var j :| 0 <= j < |sales| && ProductKeyOf(sales[j]) == Some(keys[i]);
    ExampleGroup(sales, j);
    assert t == ProductGroupTotals(keys[i], [sales[j]]);
    assert t.totalSold == sales[j].quantity && Some(TotalsKey(t)) == ProductKeyOf(sales[j]);
    ExampleLine(sales, j);
  }

  /** The products and quantities of the example's three lines. */
  lemma ExampleLine(sales: seq<Sale>, j: int)
    requires IsExampleSales(sales) && 0 <= j < 3
    ensures || (ProductKeyOf(sales[j]) == Some(ProductKey("P1", "Prod1")) && sales[j].quantity == 5)
            || (ProductKeyOf(sales[j]) == Some(ProductKey("P2", "Prod2")) && sales[j].quantity == 3)
            || (ProductKeyOf(sales[j]) == Some(ProductKey("P3", "Prod3")) && sales[j].quantity == 7)
  {
  }

  /** The example has (at least) its three products; P3 sold 7. */
  lemma ExampleProductCount(sales: seq<Sale>)
    requires IsExampleSales(sales)
    ensures |Totals(sales)| >= 3
    ensures exists t :: t in Totals(sales) && t.productId == "P3" && t.totalSold == 7
  {
    var keys := ProductKeys(sales);
    var k0, k1, k2 := ProductKey("P1", "Prod1"), ProductKey("P2", "Prod2"), ProductKey("P3", "Prod3");
    assert ProductKeyOf(sales[0]) == Some(k0) && ProductKeyOf(sales[1]) == Some(k1) && ProductKeyOf(sales[2]) == Some(k2);
    assert k0 in keys && k1 in keys && k2 in keys;
    var i0 := SeqIndex(keys, k0);
    var i1 := SeqIndex(keys, k1);
    var i2 := SeqIndex(keys, k2);
    var totals := Totals(sales);
    ExampleGroup(sales, 2);
    assert totals[i2] == ProductGroupTotals(k2, [sales[2]]);
    assert totals[i2].productId == "P3" && totals[i2].totalSold == 7;
    assert totals[i2] in totals;
    assert i0 != i1 && i1 != i2 && i0 != i2;
    assert |totals| == |keys|;
  }

  /** With top_n = 2 the ranking has two rows, P3 first, ranked 1 and 2. */
  lemma RankProductsExample(sales: seq<Sale>)
    requires IsExampleSales(sales)
    ensures |RankProducts(sales, 2)| == 2
    ensures RankProducts(sales, 2)[0].productId == "P3"
    ensures RankProducts(sales, 2)[0].rankPosition == 1 && RankProducts(sales, 2)[1].rankPosition == 2
  {
    var totals, r := Totals(sales), RankProducts(sales, 2);
    ExampleProductCount(sales);
    RankLength(sales, 2);
    assert |r| == 2;
    RankRows(sales, 2);
    assert r[0].rankPosition == 1 && r[1].rankPosition == 2;
    var first := TotalsOf(r[0]);
    assert first in totals;
    var p3 :| p3 in totals && p3.productId == "P3" && p3.totalSold == 7;
    RankFirst(sales, 2);
    assert first.totalSold >= 7;
    ExampleTotal(sales, first);
    assert TotalsKey(first) == ProductKey("P3", "Prod3");
  }

  // ---------------------------------------------------------------------
  // Products that tie at the cut

  /** P2 and then P1, each a single line of 5 units for 10.0. */
  predicate IsTieSales(sales: seq<Sale>) {
    && |sales| == 2
    && sales[0] == Sale(1, "C1", Some("P2"), Some("Prod2"), 5, 2.0, Dates.Date(2024, 1, 1), "Tech", 10.0, "2024-01")
    && sales[1] == Sale(2, "C1", Some("P1"), Some("Prod1"), 5, 2.0, Dates.Date(2024, 1, 1), "Tech", 10.0, "2024-01")
  }

  /** Each product of the tie case has a single line. */
  lemma TieGroup(sales: seq<Sale>, j: int)
    requires IsTieSales(sales) && 0 <= j < 2
    ensures Members(sales, ProductKeyOf, ProductKeyOf(sales[j])) == [sales[j]]
    ensures SumInt([sales[j]], QuantityOf) == 5 && SumReal([sales[j]], TotalPriceOf) == 10.0
  {
    var k := ProductKeyOf(sales[j]);
    assert sales == [sales[0]] + [sales[1]];
    assert [sales[0]] == [] + [sales[0]];
    MembersAppend([], sales[0], ProductKeyOf, k);
    MembersAppend([sales[0]], sales[1], ProductKeyOf, k);
    SumIntAppend([], sales[j], QuantityOf);
    SumRealAppend([], sales[j], TotalPriceOf);
    assert [] + [sales[j]] == [sales[j]];
  }

  /** Each total of the tie case is one of the two products, with 5 units for 10.0. */
  lemma TieTotal(sales: seq<Sale>, t: ProductTotals)
    requires IsTieSales(sales) && t in Totals(sales)
    ensures TotalsKey(t) == ProductKey("P1", "Prod1") || TotalsKey(t) == ProductKey("P2", "Prod2")
    ensures t.totalSold == 5 && t.totalRevenue == 10.0
  {
    var totals, keys := Totals(sales), ProductKeys(sales);
    var i := SeqIndex(totals, t);
    assert keys[i] in keys;
    var j :| 0 <= j < |sales| && ProductKeyOf(sales[j]) == Some(keys[i]);
    TieGroup(sales, j);
    assert t == ProductGroupTotals(keys[i], [sales[j]]);
  }

  /** P1 comes strictly before P2 in key order. */
  lemma P1BeforeP2()
    ensures !KeyLe(ProductKey("P2", "Prod2"), ProductKey("P1", "Prod1"))
  {
    assert "P2"[1..] == "2" && "P1"[1..] == "1";
  }

  /** With top_n = 1 the product that comes first in key order, P1, is kept. */
  lemma RankTieExample(sales: seq<Sale>)
    requires IsTieSales(sales)
    ensures |RankProducts(sales, 1)| == 1 && RankProducts(sales, 1)[0].productId == "P1"
  {
    var r, totals, keys := RankProducts(sales, 1), Totals(sales), ProductKeys(sales);
    var p1 := ProductKey("P1", "Prod1");
    assert ProductKeyOf(sales[1]) == Some(p1);
    assert p1 in keys;
    var i := SeqIndex(keys, p1);
    var t := totals[i];
    assert t in totals && TotalsKey(t) == p1;
    RankLength(sales, 1);
    RankRows(sales, 1);
    var first := TotalsOf(r[0]);
    TieTotal(sales, first);
    TieTotal(sales, t);
    if TotalsKey(first) != p1 {
      RankFirst(sales, 1);
      assert KeyBefore(first, t);
      assert TotalsKey(first) == ProductKey("P2", "Prod2");
      P1BeforeP2();
      assert false;
    }
  }
}
