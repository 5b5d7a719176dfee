/**
 * The sales cleaner (`transform_sales`): parses order dates, derives the
 * line total and the month, drops repeated order lines, drops lines with a
 * missing critical field and defaults the category.
 */
module SalesCleaner {
  import opened Wrappers
  import opened Dates
  import opened Sorting

  /** A sales line as read: every cell may be missing. */
  datatype RawSale = RawSale(
    orderId: Option<int>,
    customerId: Option<string>,
    productId: Option<string>,
    productName: Option<string>,
    quantity: Option<int>,
    unitPrice: Option<real>,
    orderDate: Option<string>,
    category: Option<string>)

  /** A sales line after the date is parsed and the derived columns are added. */
  datatype EnrichedSale = EnrichedSale(
    orderId: Option<int>,
    customerId: Option<string>,
    productId: Option<string>,
    productName: Option<string>,
    quantity: Option<int>,
    unitPrice: Option<real>,
    orderDate: Option<Date>,
    category: Option<string>,
    totalPrice: Option<real>,
    month: Option<string>)

  /** A cleaned sales line: the critical fields are present, the category is defaulted. */
  datatype Sale = Sale(
    orderId: int,
    customerId: string,
    productId: Option<string>,
    productName: Option<string>,
    quantity: int,
    unitPrice: real,
    orderDate: Date,
    category: string,
    totalPrice: real,
    month: string)

  // Column accessors, the columns the aggregators reduce
  function OrderIdOf(s: Sale): int { s.orderId }
  function QuantityOf(s: Sale): int { s.quantity }
  function TotalPriceOf(s: Sale): real { s.totalPrice }

  /** The columns on which two lines count as the same order line. */
  datatype DedupKey = DedupKey(orderId: Option<int>, productId: Option<string>, quantity: Option<int>, unitPrice: Option<real>)

  const UnknownCategory: string := "Unknown"

  // ---------------------------------------------------------------------
  // The stages, in the order the cleaner applies them

  /** quantity * unit_price; missing when either factor is missing. */
  function LineTotal(quantity: Option<int>, unitPrice: Option<real>): Option<real> {
    if quantity.Some? && unitPrice.Some? then Some(quantity.value as real * unitPrice.value) else None
  }

  /** Date parsing and the derived columns of one line. */
  function Enrich(r: RawSale): EnrichedSale {
    var date := if r.orderDate.Some? then ParseDate(r.orderDate.value) else None;
    EnrichedSale(r.orderId, r.customerId, r.productId, r.productName, r.quantity, r.unitPrice,
                 date, r.category, LineTotal(r.quantity, r.unitPrice),
                 if date.Some? then Some(FormatMonth(date.value)) else None)
  }

  /** The derived columns agree with the columns they are computed from. */
  predicate Consistent(e: EnrichedSale) {
    && e.totalPrice == LineTotal(e.quantity, e.unitPrice)
    && (e.orderDate.Some? ==>
          IsValid(e.orderDate.value) && InTimestampRange(e.orderDate.value)
          && e.month == Some(FormatMonth(e.orderDate.value)))
  }

  predicate AllConsistent(rows: seq<EnrichedSale>) {
    forall i :: 0 <= i < |rows| ==> Consistent(rows[i])
  }

  function EnrichAll(raw: seq<RawSale>): (rows: seq<EnrichedSale>)
    ensures |rows| == |raw| && AllConsistent(rows)
  {
    seq(|raw|, i requires 0 <= i < |raw| => Enrich(raw[i]))
  }

  function KeyOf(e: EnrichedSale): DedupKey {
    DedupKey(e.orderId, e.productId, e.quantity, e.unitPrice)
  }

  /** The keys already seen in rows. */
  function KeySet(rows: seq<EnrichedSale>): set<DedupKey> {
    if |rows| == 0 then {} else KeySet(rows[..|rows| - 1]) + {KeyOf(rows[|rows| - 1])}
  }

  /** `drop_duplicates(keep="first")` on the key columns; missing cells compare equal. */
  function DropDuplicates(rows: seq<EnrichedSale>): (unique: seq<EnrichedSale>)
    ensures AllConsistent(rows) ==> AllConsistent(unique)
  {
    if |rows| == 0 then []
    else
      var init, last := rows[..|rows| - 1], rows[|rows| - 1];
      DropDuplicates(init) + (if KeyOf(last) in KeySet(init) then [] else [last])
  }

  predicate HasCriticalFields(e: EnrichedSale) {
    e.orderId.Some? && e.customerId.Some? && e.orderDate.Some? && e.quantity.Some? && e.unitPrice.Some?
  }

  /** Drops the lines with a missing order id, customer id, order date, quantity or unit price. */
  function DropIncomplete(rows: seq<EnrichedSale>): (kept: seq<EnrichedSale>)
    ensures forall i :: 0 <= i < |kept| ==> HasCriticalFields(kept[i])
    ensures AllConsistent(rows) ==> AllConsistent(kept)
  {
    if |rows| == 0 then []
    else
      var init, last := rows[..|rows| - 1], rows[|rows| - 1];
      DropIncomplete(init) + (if HasCriticalFields(last) then [last] else [])
  }

  /** Defaults the category of one complete line. */
  function Finalize(e: EnrichedSale): Sale
    requires HasCriticalFields(e) && Consistent(e)
  {
    Sale(e.orderId.value, e.customerId.value, e.productId, e.productName, e.quantity.value,
         e.unitPrice.value, e.orderDate.value, e.category.GetOr(UnknownCategory),
         e.totalPrice.value, e.month.value)
  }

  function FillCategory(rows: seq<EnrichedSale>): (sales: seq<Sale>)
    requires forall i :: 0 <= i < |rows| ==> HasCriticalFields(rows[i])
    requires AllConsistent(rows)
    ensures |sales| == |rows|
  {
    seq(|rows|, i requires 0 <= i < |rows| => Finalize(rows[i]))
  }

  function Kept(raw: seq<RawSale>): (kept: seq<EnrichedSale>)
    ensures forall i :: 0 <= i < |kept| ==> HasCriticalFields(kept[i])
    ensures AllConsistent(kept)
  {
    DropIncomplete(DropDuplicates(EnrichAll(raw)))
  }

  /** What the cleaner returns: the stages composed in `transform_sales`' order. */
  function CleanSales(raw: seq<RawSale>): seq<Sale> {
    FillCategory(Kept(raw))
  }

  /** The cleaner, rebuilding the table stage by stage. */
  method TransformSales(raw: seq<RawSale>) returns (out: seq<Sale>)
    ensures out == CleanSales(raw)
  {
    // order_date, total_price and month
    var rows := EnrichAll(raw);

    // repeated order lines: the first one stays
    var seen: set<DedupKey> := {};
    var unique: seq<EnrichedSale> := [];
    for i := 0 to |rows|
      invariant unique == DropDuplicates(rows[..i])
      invariant seen == KeySet(rows[..i])
    {
      DropDuplicatesStep(rows, i);
      var key := KeyOf(rows[i]);
      if key !in seen {
        unique := unique + [rows[i]];
        seen := seen + {key};
      }
    }
    assert rows[..|rows|] == rows;

    // lines with a missing critical field
    var complete: seq<EnrichedSale> := [];
    for i := 0 to |unique|
      invariant complete == DropIncomplete(unique[..i])
    {
      DropIncompleteStep(unique, i);
      if HasCriticalFields(unique[i]) {
        complete := complete + [unique[i]];
      }
    }
    assert unique[..|unique|] == unique;

    // category defaults to "Unknown"
    out := FillCategory(complete);
  }

  /** One more line for the repeated-line stage and its set of seen keys. */
  lemma DropDuplicatesStep(rows: seq<EnrichedSale>, i: int)
    requires 0 <= i < |rows|
    ensures DropDuplicates(rows[..i + 1])
            == DropDuplicates(rows[..i]) + (if KeyOf(rows[i]) in KeySet(rows[..i]) then [] else [rows[i]])
    ensures KeySet(rows[..i + 1]) == KeySet(rows[..i]) + {KeyOf(rows[i])}
  {
    assert rows[..i + 1][..i] == rows[..i];
  }

  /** One more line for the missing-field stage. */
  lemma DropIncompleteStep(rows: seq<EnrichedSale>, i: int)
    requires 0 <= i < |rows|
    ensures DropIncomplete(rows[..i + 1])
            == DropIncomplete(rows[..i]) + (if HasCriticalFields(rows[i]) then [rows[i]] else [])
  {
    assert rows[..i + 1][..i] == rows[..i];
  }

  // ---------------------------------------------------------------------
  // Reference characterisation: the first line of each key, if complete

  function RawKey(r: RawSale): DedupKey {
    DedupKey(r.orderId, r.productId, r.quantity, r.unitPrice)
  }

  function SaleKey(s: Sale): DedupKey {
    DedupKey(Some(s.orderId), s.productId, Some(s.quantity), Some(s.unitPrice))
  }

  /** No earlier line has the same key. */
  predicate IsFirstOfKey(raw: seq<RawSale>, i: int)
    requires 0 <= i < |raw|
  {
    forall j :: 0 <= j < i ==> RawKey(raw[j]) != RawKey(raw[i])
  }

  /** The line has every critical field once parsed. */
  predicate Admissible(r: RawSale) {
    HasCriticalFields(Enrich(r))
  }

  function CleanRow(r: RawSale): Sale
    requires Admissible(r)
  {
    Finalize(Enrich(r))
  }

  /** The positions of the lines that survive: first of their key and complete. */
  function SurvivorIndices(raw: seq<RawSale>): seq<int> {
    if |raw| == 0 then []
    else
      var n := |raw| - 1;
      SurvivorIndices(raw[..n]) + (if IsFirstOfKey(raw, n) && Admissible(raw[n]) then [n] else [])
  }

  predicate StrictlyIncreasing(idx: seq<int>) {
    forall a, b :: 0 <= a < b < |idx| ==> idx[a] < idx[b]
  }

  lemma {:induction false} KeySetMembers(rows: seq<EnrichedSale>, x: DedupKey)
    ensures x in KeySet(rows) <==> exists j :: 0 <= j < |rows| && KeyOf(rows[j]) == x
  {
    if |rows| > 0 {
      var init := rows[..|rows| - 1];
      KeySetMembers(init, x);
      assert forall j :: 0 <= j < |init| ==> init[j] == rows[j];
    }
  }

  /** The surviving positions are in range and strictly increasing. */
  lemma {:induction false} SurvivorIndicesIncreasing(raw: seq<RawSale>)
    ensures StrictlyIncreasing(SurvivorIndices(raw))
    ensures forall k :: 0 <= k < |SurvivorIndices(raw)| ==> 0 <= SurvivorIndices(raw)[k] < |raw|
  {
    if |raw| > 0 {
      SurvivorIndicesIncreasing(raw[..|raw| - 1]);
    }
  }

  /** Being first of its key does not depend on the lines after. */
  lemma FirstOfKeyPrefix(raw: seq<RawSale>, n: int, i: int)
    requires 0 <= i < n <= |raw|
    ensures IsFirstOfKey(raw[..n], i) <==> IsFirstOfKey(raw, i)
  {
    assert forall j :: 0 <= j < n ==> raw[..n][j] == raw[j];
  }

  /** A position survives exactly when its line is first of its key and complete. */
  lemma {:induction false} SurvivorIndex(raw: seq<RawSale>, i: int)
    requires 0 <= i < |raw|
    ensures i in SurvivorIndices(raw) <==> IsFirstOfKey(raw, i) && Admissible(raw[i])
  {
    var n := |raw| - 1;
    var init := raw[..n];
    var survives := IsFirstOfKey(raw, n) && Admissible(raw[n]);
    var tail := if survives then [n] else [];
    assert SurvivorIndices(raw) == SurvivorIndices(init) + tail;
    if i == n {
      SurvivorIndicesIncreasing(init);
      BelowAll(SurvivorIndices(init), n);
      assert (n in SurvivorIndices(raw)) == (n in tail) == survives;
    } else {
      SurvivorIndex(init, i);
      FirstOfKeyPrefix(raw, n, i);
      assert init[i] == raw[i];
      assert i !in tail;
    }
  }

  lemma BelowAll(idx: seq<int>, n: int)
    requires forall k :: 0 <= k < |idx| ==> idx[k] < n
    ensures n !in idx
  {
  }

  lemma SurvivorIndicesMembers(raw: seq<RawSale>)
    ensures forall i :: 0 <= i < |raw| ==>
      (i in SurvivorIndices(raw) <==> IsFirstOfKey(raw, i) && Admissible(raw[i]))
  {
    forall i | 0 <= i < |raw|
      ensures (i in SurvivorIndices(raw) <==> IsFirstOfKey(raw, i) && Admissible(raw[i]))
    {
      SurvivorIndex(raw, i);
    }
  }

  lemma SurvivorIndicesSpec(raw: seq<RawSale>)
    ensures var idx := SurvivorIndices(raw);
      StrictlyIncreasing(idx)
      && (forall k :: 0 <= k < |idx| ==> 0 <= idx[k] < |raw|)
      && (forall i :: 0 <= i < |raw| ==> (i in idx <==> IsFirstOfKey(raw, i) && Admissible(raw[i])))
  {
    SurvivorIndicesIncreasing(raw);
    SurvivorIndicesMembers(raw);
  }

  lemma EnrichAllPrefix(raw: seq<RawSale>, n: int)
    requires 0 <= n <= |raw|
    ensures EnrichAll(raw)[..n] == EnrichAll(raw[..n])
  {
  }

  /** The last line is new exactly when it is the first of its key. */
  lemma LastIsNew(raw: seq<RawSale>)
    requires |raw| > 0
    ensures var n := |raw| - 1;
      KeyOf(Enrich(raw[n])) !in KeySet(EnrichAll(raw[..n])) <==> IsFirstOfKey(raw, n)
  {
    var n := |raw| - 1;
    var rows := EnrichAll(raw[..n]);
    KeySetMembers(rows, KeyOf(Enrich(raw[n])));
    assert forall j :: 0 <= j < n ==> KeyOf(rows[j]) == RawKey(raw[j]);
  }

  lemma DropIncompleteAppend(rows: seq<EnrichedSale>, e: EnrichedSale)
    ensures DropIncomplete(rows + [e]) == DropIncomplete(rows) + (if HasCriticalFields(e) then [e] else [])
  {
    assert (rows + [e])[..|rows|] == rows;
  }

  /** One more input line adds itself to the kept lines exactly when it survives. */
  lemma KeptStep(raw: seq<RawSale>)
    requires |raw| > 0
    ensures var n := |raw| - 1;
      Kept(raw) == Kept(raw[..n]) + (if IsFirstOfKey(raw, n) && Admissible(raw[n]) then [Enrich(raw[n])] else [])
  {
    var n := |raw| - 1;
    var rows := EnrichAll(raw);
    EnrichAllPrefix(raw, n);
    LastIsNew(raw);
    var e := Enrich(raw[n]);
    assert rows[n] == e;
    var unique0 := DropDuplicates(EnrichAll(raw[..n]));
    if IsFirstOfKey(raw, n) {
      assert DropDuplicates(rows) == unique0 + [e];
      DropIncompleteAppend(unique0, e);
    } else {
      assert DropDuplicates(rows) == unique0;
    }
  }

  /** The stages keep exactly the first complete line of each key, in input order. */
  lemma {:induction false} KeptIsSurvivors(raw: seq<RawSale>)
    ensures var idx := SurvivorIndices(raw);
      |Kept(raw)| == |idx|
      && (forall k :: 0 <= k < |idx| ==> 0 <= idx[k] < |raw| && Kept(raw)[k] == Enrich(raw[idx[k]]))
  {
    if |raw| > 0 {
      var n := |raw| - 1;
      var init := raw[..n];
      KeptIsSurvivors(init);
      KeptStep(raw);
      SurvivorIndicesSpec(init);
      assert forall i :: 0 <= i < n ==> init[i] == raw[i];
    }
  }

  /**
   * The cleaner's output, characterised without its stages: the lines that
   * are the first of their (order_id, product_id, quantity, unit_price) key
   * and have every critical field, cleaned, in input order. A first line
   * dropped for a missing field therefore takes its repeats with it.
   */
  lemma CleanSalesSurvivors(raw: seq<RawSale>)
    ensures var out, idx := CleanSales(raw), SurvivorIndices(raw);
      |out| == |idx|
      && StrictlyIncreasing(idx)
      && (forall i :: 0 <= i < |raw| ==> (i in idx <==> IsFirstOfKey(raw, i) && Admissible(raw[i])))
      && (forall k :: 0 <= k < |idx| ==> 0 <= idx[k] < |raw| && Admissible(raw[idx[k]]) && out[k] == CleanRow(raw[idx[k]]))
  {
    KeptIsSurvivors(raw);
    SurvivorIndicesSpec(raw);
  }

  /**
   * Each cleaned line: the critical fields of its input line are present and
   * copied, total_price is quantity * unit_price, month is the "YYYY-MM" of the
   * parsed order date, and a missing category becomes "Unknown" while a
   * present one passes through.
   */
  lemma CleanSalesRows(raw: seq<RawSale>)
    ensures var out, idx := CleanSales(raw), SurvivorIndices(raw);
      |out| == |idx|
      && forall k :: 0 <= k < |out| ==>
           0 <= idx[k] < |raw|
           && CleanRowFields(raw[idx[k]], out[k])
  {
    CleanSalesSurvivors(raw);
    var out, idx := CleanSales(raw), SurvivorIndices(raw);
    forall k | 0 <= k < |out| ensures CleanRowFields(raw[idx[k]], out[k]) {
      CleanRowSpec(raw[idx[k]]);
    }
  }

  predicate CleanRowFields(r: RawSale, s: Sale) {
    && r.orderId == Some(s.orderId) && r.customerId == Some(s.customerId)
    && r.quantity == Some(s.quantity) && r.unitPrice == Some(s.unitPrice)
    && r.productId == s.productId && r.productName == s.productName
    && r.orderDate.Some? && ParseDate(r.orderDate.value) == Some(s.orderDate)
    && s.totalPrice == s.quantity as real * s.unitPrice
    && IsValid(s.orderDate) && InTimestampRange(s.orderDate) && s.month == FormatMonth(s.orderDate)
    && (r.category.None? ==> s.category == UnknownCategory)
    && (r.category.Some? ==> s.category == r.category.value)
  }

  lemma CleanRowSpec(r: RawSale)
    requires Admissible(r)
    ensures CleanRowFields(r, CleanRow(r))
  {
  }

  /** Without a missing critical field no input line with a given key survives. */
  lemma DroppedFirstTakesRepeats(raw: seq<RawSale>, i: int)
    requires 0 <= i < |raw| && IsFirstOfKey(raw, i) && !Admissible(raw[i])
    ensures forall k :: 0 <= k < |CleanSales(raw)| ==> SaleKey(CleanSales(raw)[k]) != RawKey(raw[i])
  {
    CleanSalesSurvivors(raw);
    var out, idx := CleanSales(raw), SurvivorIndices(raw);
    forall k | 0 <= k < |out| ensures SaleKey(out[k]) != RawKey(raw[i]) {
      var j := idx[k];
      assert SaleKey(out[k]) == RawKey(raw[j]);
      assert j != i;
      if j < i {
        assert RawKey(raw[j]) != RawKey(raw[i]);
      } else {
        assert IsFirstOfKey(raw, j);
        assert RawKey(raw[i]) != RawKey(raw[j]);
      }
    }
  }

  /** No two cleaned lines share the deduplication key. */
  lemma CleanSalesUniqueKeys(raw: seq<RawSale>)
    ensures var out := CleanSales(raw);
      forall a, b :: 0 <= a < b < |out| ==> SaleKey(out[a]) != SaleKey(out[b])
  {
    CleanSalesSurvivors(raw);
    var out, idx := CleanSales(raw), SurvivorIndices(raw);
    forall a, b | 0 <= a < b < |out| ensures SaleKey(out[a]) != SaleKey(out[b]) {
      assert idx[a] < idx[b];
      assert IsFirstOfKey(raw, idx[b]);
      assert SaleKey(out[a]) == RawKey(raw[idx[a]]) && SaleKey(out[b]) == RawKey(raw[idx[b]]);
    }
  }

  // ---------------------------------------------------------------------
  // Idempotence

  /** A cleaned line that the cleaner could have produced. */
  predicate WellFormedSale(s: Sale) {
    IsValid(s.orderDate) && InTimestampRange(s.orderDate)
    && s.totalPrice == s.quantity as real * s.unitPrice && s.month == FormatMonth(s.orderDate)
  }

  /** A cleaned line fed back to the cleaner as a raw line. */
  function Resubmit(s: Sale): RawSale
    requires IsValid(s.orderDate)
  {
    RawSale(Some(s.orderId), Some(s.customerId), s.productId, s.productName, Some(s.quantity),
            Some(s.unitPrice), Some(FormatDate(s.orderDate)), Some(s.category))
  }

  function ResubmitAll(sales: seq<Sale>): (raw: seq<RawSale>)
    requires forall k :: 0 <= k < |sales| ==> IsValid(sales[k].orderDate)
    ensures |raw| == |sales|
  {
    seq(|sales|, k requires 0 <= k < |sales| => Resubmit(sales[k]))
  }

  lemma ResubmitCleansToItself(s: Sale)
    requires WellFormedSale(s)
    ensures Admissible(Resubmit(s)) && CleanRow(Resubmit(s)) == s
    ensures RawKey(Resubmit(s)) == SaleKey(s)
  {
    ParseFormatDate(s.orderDate);
  }

  /** The positions 0 .. n-1. */
  function Positions(n: nat): (p: seq<int>)
    ensures |p| == n && forall k :: 0 <= k < n ==> p[k] == k
  {
    seq(n, i => i)
  }

  lemma PositionsSnoc(n: nat)
    ensures Positions(n + 1) == Positions(n) + [n]
  {
  }

  /** When every line survives, every position survives. */
  lemma {:induction false} AllSurvive(raw: seq<RawSale>)
    requires forall i :: 0 <= i < |raw| ==> Admissible(raw[i]) && IsFirstOfKey(raw, i)
    ensures SurvivorIndices(raw) == Positions(|raw|)
  {
    if |raw| > 0 {
      var n := |raw| - 1;
      var init := raw[..n];
      forall i | 0 <= i < n ensures Admissible(init[i]) && IsFirstOfKey(init, i) {
        assert init[i] == raw[i];
        FirstOfKeyPrefix(raw, n, i);
      }
      AllSurvive(init);
      assert Admissible(raw[n]) && IsFirstOfKey(raw, n);
      assert SurvivorIndices(raw) == SurvivorIndices(init) + [n];
      PositionsSnoc(n);
    }
  }

  /** A table whose lines are complete and pairwise distinct on the key passes the stages unchanged. */
  lemma KeptAllSurvive(raw: seq<RawSale>)
    requires forall i :: 0 <= i < |raw| ==> Admissible(raw[i]) && IsFirstOfKey(raw, i)
    ensures Kept(raw) == EnrichAll(raw)
  {
    KeptIsSurvivors(raw);
    AllSurvive(raw);
  }

  /** Cleaning a cleaned table again changes nothing. */
  lemma CleanSalesIdempotent(raw: seq<RawSale>)
    ensures var out := CleanSales(raw);
      (forall k :: 0 <= k < |out| ==> IsValid(out[k].orderDate))
      && CleanSales(ResubmitAll(out)) == out
  {
    var out := CleanSales(raw);
    CleanSalesRows(raw);
    CleanSalesUniqueKeys(raw);
    forall k | 0 <= k < |out| ensures WellFormedSale(out[k]) {
    }
    var again := ResubmitAll(out);
    forall i | 0 <= i < |again| ensures Admissible(again[i]) && IsFirstOfKey(again, i) {
      ResubmitCleansToItself(out[i]);
      forall j | 0 <= j < i ensures RawKey(again[j]) != RawKey(again[i]) {
        ResubmitCleansToItself(out[j]);
      }
    }
    KeptAllSurvive(again);
    forall k | 0 <= k < |out| ensures CleanSales(again)[k] == out[k] {
      ResubmitCleansToItself(out[k]);
    }
  }

  // ---------------------------------------------------------------------
  // The cleaning case of the test suite

  /**
   * Order 1 twice, order 2 without a customer id, order 3 without a
   * category. The order dates are given by the dates they parse to, so that
   * the rows' text stays out of the proofs.
   */
  predicate IsExampleRaw(raw: seq<RawSale>) {
    && |raw| == 4
    && raw[0].orderId == Some(1) && raw[0].customerId == Some("C1") && raw[0].productId == Some("P1")
    && raw[0].quantity == Some(1) && raw[0].unitPrice == Some(100.0) && raw[0].category == Some("Tech")
    && raw[0].orderDate.Some? && ParseDate(raw[0].orderDate.value) == Some(Date(2024, 1, 1))
    && raw[1] == raw[0]
    && raw[2].orderId == Some(2) && raw[2].customerId == None
    && raw[3].orderId == Some(3) && raw[3].customerId == Some("C3") && raw[3].productId == Some("P3")
    && raw[3].quantity == Some(2) && raw[3].unitPrice == Some(50.0) && raw[3].category == None
    && raw[3].orderDate.Some? && ParseDate(raw[3].orderDate.value) == Some(Date(2024, 2, 10))
  }

  /** The table of the test case is such a table. */
  lemma ExampleRawTable()
    ensures IsExampleRaw([
      RawSale(Some(1), Some("C1"), Some("P1"), Some("Prod1"), Some(1), Some(100.0), Some("2024-01-01"), Some("Tech")),
      RawSale(Some(1), Some("C1"), Some("P1"), Some("Prod1"), Some(1), Some(100.0), Some("2024-01-01"), Some("Tech")),
      RawSale(Some(2), None, Some("P2"), Some("Prod2"), Some(2), Some(50.0), Some("2024-01-03"), Some("Books")),
      RawSale(Some(3), Some("C3"), Some("P3"), Some("Prod3"), Some(2), Some(50.0), Some("2024-02-10"), None)])
  {
    ExampleDates();
  }

  lemma ExampleDates()
    ensures ParseDate("2024-01-01") == Some(Date(2024, 1, 1))
    ensures ParseDate("2024-02-10") == Some(Date(2024, 2, 10))
    ensures FormatMonth(Date(2024, 1, 1)) == "2024-01"
  {
    ParseFormatDate(Date(2024, 1, 1));
    assert FormatDate(Date(2024, 1, 1)) == "2024-01-01";
    ParseFormatDate(Date(2024, 2, 10));
    assert FormatDate(Date(2024, 2, 10)) == "2024-02-10";
  }

  /** Lines 0, 1 and 3 have every critical field; line 2 lacks its customer id. */
  lemma ExampleAdmissible(raw: seq<RawSale>)
    requires IsExampleRaw(raw)
    ensures Admissible(raw[0]) && Admissible(raw[1]) && Admissible(raw[3]) && !Admissible(raw[2])
  {
    assert Enrich(raw[0]).orderDate == Some(Date(2024, 1, 1));
    assert Enrich(raw[3]).orderDate == Some(Date(2024, 2, 10));
  }

  /** Lines 0 and 3 survive: line 1 repeats line 0 and line 2 lacks its customer id. */
  lemma ExampleSurvivors(raw: seq<RawSale>)
    requires IsExampleRaw(raw)
    ensures SurvivorIndices(raw) == [0, 3]
  {
    ExampleAdmissible(raw);
    assert raw[1] == raw[0] && Admissible(raw[0]) && !Admissible(raw[2]) && Admissible(raw[3]);
    assert forall j :: 0 <= j < 3 ==> raw[j].orderId != raw[3].orderId;
    FirstAndLastSurvive(raw);
  }

  /**
   * Of four lines where the second repeats the first, the third is
   * incomplete and the fourth has a new order id, the first and the last survive.
   */
  lemma FirstAndLastSurvive(raw: seq<RawSale>)
    requires |raw| == 4 && raw[1] == raw[0]
    requires Admissible(raw[0]) && !Admissible(raw[2]) && Admissible(raw[3])
    requires forall j :: 0 <= j < 3 ==> raw[j].orderId != raw[3].orderId
    ensures SurvivorIndices(raw) == [0, 3]
  {
    SurvivorIndicesSpec(raw);
    FirstAndLastPositions(raw, SurvivorIndices(raw));
  }

  /** The same, for any list of positions that meets the survivor description. */
  lemma FirstAndLastPositions(raw: seq<RawSale>, idx: seq<int>)
    requires |raw| == 4 && raw[1] == raw[0]
    requires Admissible(raw[0]) && !Admissible(raw[2]) && Admissible(raw[3])
    requires forall j :: 0 <= j < 3 ==> raw[j].orderId != raw[3].orderId
    requires StrictlyIncreasing(idx)
    requires forall k :: 0 <= k < |idx| ==> 0 <= idx[k] < |raw|
    requires forall i :: 0 <= i < |raw| ==> (i in idx <==> IsFirstOfKey(raw, i) && Admissible(raw[i]))
    ensures idx == [0, 3]
  {
    assert RawKey(raw[0]) == RawKey(raw[1]);
    assert IsFirstOfKey(raw, 3) by {
      forall j | 0 <= j < 3 ensures RawKey(raw[j]) != RawKey(raw[3]) {
        assert raw[j].orderId != raw[3].orderId;
      }
    }
    forall i | 0 <= i < 4 ensures i in idx <==> i == 0 || i == 3 {
      assert i in idx <==> IsFirstOfKey(raw, i) && Admissible(raw[i]);
    }
    IncreasingPair(idx, 4, 0, 3);
  }

  /** A strictly increasing list of positions below n holding exactly a and b, with a < b, is [a, b]. */
  lemma IncreasingPair(idx: seq<int>, n: int, a: int, b: int)
    requires 0 <= a < b < n
    requires StrictlyIncreasing(idx) && forall k :: 0 <= k < |idx| ==> 0 <= idx[k] < n
    requires forall i :: 0 <= i < n ==> (i in idx <==> i == a || i == b)
    ensures idx == [a, b]
  {
    var ia := SeqIndex(idx, a);
    var ib := SeqIndex(idx, b);
    assert ia < ib;
    if |idx| > 2 {
      ThreeOfTwo(idx, a, b);
      assert false;
    }
  }

  /**
   * The cleaned table has two lines: order 1 with total 100.0 in month
   * "2024-01", and order 3 with total 100.0 in category "Unknown".
   */
  lemma TransformSalesExample(raw: seq<RawSale>)
    requires IsExampleRaw(raw)
    ensures |CleanSales(raw)| == 2
    ensures CleanSales(raw)[0].orderId == 1 && CleanSales(raw)[0].totalPrice == 100.0
    ensures CleanSales(raw)[0].month == "2024-01"
    ensures CleanSales(raw)[1].orderId == 3 && CleanSales(raw)[1].totalPrice == 100.0
    ensures CleanSales(raw)[1].category == "Unknown"
  {
    ExampleSurvivors(raw);
    CleanSalesRows(raw);
    ExampleDates();
    var out := CleanSales(raw);
    assert CleanRowFields(raw[0], out[0]);
    assert CleanRowFields(raw[3], out[1]);
    assert out[0].orderDate == Date(2024, 1, 1);
  }
}
