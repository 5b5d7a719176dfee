/**
 * The structural check the CSV reader applies to a freshly read table: the
 * required column names, and the error listing the absent ones in sorted
 * order. Only the table's header (its column names) takes part.
 */
module Extract {
  import opened Wrappers
  import opened Sorting
  import opened Strings

  /** Columns a sales file must have. */
  const SalesRequiredColumns: seq<string> :=
    ["order_id", "customer_id", "product_id", "product_name",
     "quantity", "unit_price", "order_date", "category"]

  /** Columns a customers file must have. */
  const CustomersRequiredColumns: seq<string> :=
    ["customer_id", "customer_name", "email", "registration_date", "region"]

  lemma LexLeIsTotalPreorder()
    ensures IsTotalPreorder(LexLe)
  {
    forall a: string, b: string ensures LexLe(a, b) || LexLe(b, a) {
      LexLeTotal(a, b);
    }
    forall a: string, b: string, c: string | LexLe(a, b) && LexLe(b, c) ensures LexLe(a, c) {
      LexLeTransitive(a, b, c);
    }
  }

  /** The required names absent from the header, each once, in order of first mention. */
  function Absent(required: seq<string>, present: seq<string>): (names: seq<string>)
    ensures Distinct(names)
    ensures forall x :: x in names <==> x in required && x !in present
  {
    if |required| == 0 then []
    else
      var init, x := required[..|required| - 1], required[|required| - 1];
      var rest := Absent(init, present);
      assert required == init + [x];
      if x in present || x in rest then rest else rest + [x]
  }

  /**
   * `sorted(set(required) - set(columns))`: exactly the required names that
   * are absent, in strictly ascending order.
   */
  function MissingColumns(required: seq<string>, present: seq<string>): (missing: seq<string>)
    ensures forall x :: x in missing <==> x in required && x !in present
    ensures forall i, j :: 0 <= i < j < |missing| ==> LexLt(missing[i], missing[j])
  {
    LexLeIsTotalPreorder();
    var names := Absent(required, present);
    var sorted := Sort(names, LexLe);
    assert forall x :: x in sorted <==> x in multiset(sorted);
    PermutationDistinct(names, sorted);
    sorted
  }

  /**
   * The check after reading: with no (or an empty) list of required names
   * nothing is checked; otherwise the read fails with the sorted missing
   * names, if there are any.
   */
  function CheckRequiredColumns(required: Option<seq<string>>, present: seq<string>): (r: Result<(), seq<string>>)
    ensures r.Err? <==> required.Some? && exists c :: c in required.value && c !in present
    ensures r.Err? ==> r.error == MissingColumns(required.value, present) && |r.error| > 0
    ensures required.None? || required.value == [] ==> r.Ok?
  {
    if required.None? || |required.value| == 0 then Ok(())
    else
      var missing := MissingColumns(required.value, present);
      if |missing| > 0 then
        assert missing[0] in missing;
        Err(missing)
      else
        assert forall c :: c in required.value ==> c in present;
        Ok(())
  }

  /** Why a read fails on its header. */
  datatype ReadError =
    | DateColumnsMissing(names: seq<string>)      // `read_csv` cannot parse a date column that is not there
    | RequiredColumnsMissing(names: seq<string>)  // the check after reading

  /**
   * `_read_csv` on a header: `read_csv` first fails on absent `parse_dates`
   * columns, naming them sorted; then the required columns are checked.
   */
  function ReadHeader(parseDates: seq<string>, required: Option<seq<string>>, present: seq<string>): (r: Result<(), ReadError>)
    ensures r.Err? <==> (exists c :: c in parseDates && c !in present) || CheckRequiredColumns(required, present).Err?
    ensures (exists c :: c in parseDates && c !in present) ==> r == Err(DateColumnsMissing(MissingColumns(parseDates, present)))
    ensures (forall c :: c in parseDates ==> c in present) && r.Err? ==>
      r == Err(RequiredColumnsMissing(CheckRequiredColumns(required, present).error))
  {
    var absentDates := MissingColumns(parseDates, present);
    if |absentDates| > 0 then
      assert absentDates[0] in absentDates;
      Err(DateColumnsMissing(absentDates))
    else
      match CheckRequiredColumns(required, present)
      case Ok(_) => Ok(())
      case Err(missing) => Err(RequiredColumnsMissing(missing))
  }

  /** With a single name, the absent names are that one, or none. */
  lemma SingleMissing(x: string, present: seq<string>)
    ensures MissingColumns([x], present) == if x in present then [] else [x]
  {
    LexLeIsTotalPreorder();
    assert [x][..0] == [] && [x][1..] == [];
    assert Absent([x], present) == if x in present then [] else [x];
    assert Sort([x], LexLe) == [x];
  }

  /**
   * The header check of `read_sales_csv`: it fails iff a sales column is
   * absent; a missing `order_date` fails first, alone; otherwise the error
   * names exactly the absent columns.
   */
  function ReadSalesColumns(present: seq<string>): (r: Result<(), ReadError>)
    ensures r.Err? <==> exists c :: c in SalesRequiredColumns && c !in present
    ensures "order_date" !in present ==> r == Err(DateColumnsMissing(["order_date"]))
    ensures "order_date" in present && r.Err? ==>
      r.error.RequiredColumnsMissing? && forall c :: c in r.error.names <==> c in SalesRequiredColumns && c !in present
  {
    SingleMissing("order_date", present);
    assert "order_date" in SalesRequiredColumns;
    ReadHeader(["order_date"], Some(SalesRequiredColumns), present)
  }

  /**
   * The header check of `read_customers_csv`: it fails iff a customer column
   * is absent; a missing `registration_date` fails first, alone; otherwise
   * the error names exactly the absent columns.
   */
  function ReadCustomersColumns(present: seq<string>): (r: Result<(), ReadError>)
    ensures r.Err? <==> exists c :: c in CustomersRequiredColumns && c !in present
    ensures "registration_date" !in present ==> r == Err(DateColumnsMissing(["registration_date"]))
    ensures "registration_date" in present && r.Err? ==>
      r.error.RequiredColumnsMissing? && forall c :: c in r.error.names <==> c in CustomersRequiredColumns && c !in present
  {
    SingleMissing("registration_date", present);
    assert "registration_date" in CustomersRequiredColumns;
    ReadHeader(["registration_date"], Some(CustomersRequiredColumns), present)
  }

  /** The two lists name 8 and 5 different columns. */
  lemma RequiredColumnsDistinct()
    ensures |SalesRequiredColumns| == 8 && Distinct(SalesRequiredColumns)
    ensures |CustomersRequiredColumns| == 5 && Distinct(CustomersRequiredColumns)
  {
  }

  /** Columns beyond the required ones never cause an error, and never add to the missing list. */
  lemma ExtraColumnsHarmless(required: Option<seq<string>>, present: seq<string>, extra: seq<string>)
    ensures CheckRequiredColumns(required, present).Ok? ==> CheckRequiredColumns(required, present + extra).Ok?
    ensures CheckRequiredColumns(required, present + extra).Err? ==>
      forall c :: c in CheckRequiredColumns(required, present + extra).error ==>
        c in CheckRequiredColumns(required, present).error
  {
    if CheckRequiredColumns(required, present + extra).Err? {
      var c :| c in required.value && c !in present + extra;
      assert c !in present;
    }
  }

  /** A header holding the required names in any order, with extras, passes. */
  lemma ReadSalesColumnsAccepts(present: seq<string>)
    requires forall c :: c in SalesRequiredColumns ==> c in present
    ensures ReadSalesColumns(present).Ok?
  {
  }

  /**
   * A sales header that lacks `category` and `order_id` (whatever else it
   * holds) fails naming exactly those two, in sorted order.
   */
  lemma ReadSalesColumnsExample(present: seq<string>)
    requires forall c :: c in SalesRequiredColumns && c !in present <==> c == "category" || c == "order_id"
    ensures ReadSalesColumns(present) == Err(RequiredColumnsMissing(["category", "order_id"]))
  {
    var r := ReadSalesColumns(present);
    assert SalesRequiredColumns[0] == "order_id" && SalesRequiredColumns[7] == "category";
    assert SalesRequiredColumns[6] == "order_date" && "order_date" in present;
    assert "category" in SalesRequiredColumns && "category" !in present;
    assert "order_id" in SalesRequiredColumns && "order_id" !in present;
    assert r.Err?;
    var names := CheckRequiredColumns(Some(SalesRequiredColumns), present).error;
    assert r.error.names == names;
    assert "category" in names && "order_id" in names;
    forall c | c in names ensures c == "category" || c == "order_id" {
      assert c in SalesRequiredColumns && c !in present;
    }
    assert LexLt("category", "order_id");
    MissingPairSorted(names, "category", "order_id");
  }

  /** A strictly ascending list of exactly two names is those two in order. */
  lemma MissingPairSorted(s: seq<string>, a: string, b: string)
    requires LexLt(a, b)
    requires a in s && b in s
    requires forall c :: c in s ==> c == a || c == b
    requires forall i, j :: 0 <= i < j < |s| ==> LexLt(s[i], s[j])
    ensures s == [a, b]
  {
    var i := SeqIndex(s, a);
    var j := SeqIndex(s, b);
    if j < i {
      LexLeAntisymmetric(a, b);
      assert false;
    }
    if |s| > 2 {
      ThreeOfTwo(s, a, b);
      assert false;
    }
  }
}
