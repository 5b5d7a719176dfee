/**
 * The customer cleaner (`transform_customers`): parses registration dates,
 * drops customers without an id, flags e-mail addresses, defaults the region
 * and computes the tenure in days against a snapshot date.
 */
module CustomerCleaner {
  import opened Wrappers
  import opened Dates
  import opened EmailPattern
  import opened Sorting

  /** A customer row as read: every cell may be missing. */
  datatype RawCustomer = RawCustomer(
    customerId: Option<string>,
    customerName: Option<string>,
    email: Option<string>,
    registrationDate: Option<string>,
    region: Option<string>)

  /** A customer row after its registration date is parsed. */
  datatype ParsedCustomer = ParsedCustomer(
    customerId: Option<string>,
    customerName: Option<string>,
    email: Option<string>,
    registrationDate: Option<Date>,
    region: Option<string>)

  /** A cleaned customer row with its derived columns. */
  datatype Customer = Customer(
    customerId: string,
    customerName: Option<string>,
    email: Option<string>,
    registrationDate: Option<Date>,
    region: string,
    isEmailValid: bool,
    customerDays: Option<int>)

  const UnknownRegion: string := "Unknown"

  /**
   * The longest tenure, in whole days, that a nanosecond timedelta holds:
   * 2^63 - 1 nanoseconds is 106,751 days and some hours.
   */
  const MaxTenureDays: int := 106751

  /** Why the cleaner fails: the date subtraction overflowed. */
  datatype CleanError = TenureOverflow

  // ---------------------------------------------------------------------
  // The stages, in the order the cleaner applies them

  function ParseRegistration(r: RawCustomer): ParsedCustomer {
    ParsedCustomer(r.customerId, r.customerName, r.email,
                   if r.registrationDate.Some? then ParseDate(r.registrationDate.value) else None,
                   r.region)
  }

  function ParseAll(raw: seq<RawCustomer>): (rows: seq<ParsedCustomer>)
    ensures |rows| == |raw|
  {
    seq(|raw|, i requires 0 <= i < |raw| => ParseRegistration(raw[i]))
  }

  /** Keeps the rows that have a customer id. */
  function DropMissingIds(rows: seq<ParsedCustomer>): (kept: seq<ParsedCustomer>)
    ensures forall i :: 0 <= i < |kept| ==> kept[i].customerId.Some?
  {
    if |rows| == 0 then []
    else
      var init, last := rows[..|rows| - 1], rows[|rows| - 1];
      DropMissingIds(init) + (if last.customerId.Some? then [last] else [])
  }

  /** Whole days from the registration date to the snapshot; missing when the date is. */
  function CustomerDays(registration: Option<Date>, snapshot: Date): Option<int>
    requires IsValid(snapshot)
    requires registration.Some? ==> IsValid(registration.value)
  {
    if registration.Some? then Some(DayNumber(snapshot) - DayNumber(registration.value)) else None
  }

  predicate ValidRegistration(p: ParsedCustomer) {
    p.registrationDate.Some? ==> IsValid(p.registrationDate.value)
  }

  /** The e-mail flag, the region default and the tenure of one row. */
  function Derive(p: ParsedCustomer, snapshot: Date): Customer
    requires p.customerId.Some? && ValidRegistration(p) && IsValid(snapshot)
  {
    Customer(p.customerId.value, p.customerName, p.email, p.registrationDate,
             p.region.GetOr(UnknownRegion), IsValidEmail(p.email),
             CustomerDays(p.registrationDate, snapshot))
  }

  function DeriveAll(rows: seq<ParsedCustomer>, snapshot: Date): (customers: seq<Customer>)
    requires forall i :: 0 <= i < |rows| ==> rows[i].customerId.Some? && ValidRegistration(rows[i])
    requires IsValid(snapshot)
    ensures |customers| == |rows|
  {
    seq(|rows|, i requires 0 <= i < |rows| => Derive(rows[i], snapshot))
  }

  lemma ParsedRowsValid(raw: seq<RawCustomer>)
    ensures forall i :: 0 <= i < |DropMissingIds(ParseAll(raw))| ==> ValidRegistration(DropMissingIds(ParseAll(raw))[i])
  {
    var rows := ParseAll(raw);
    assert forall i :: 0 <= i < |rows| ==> ValidRegistration(rows[i]);
    DropMissingIdsFrom(rows);
    var kept := DropMissingIds(rows);
    forall i | 0 <= i < |kept| ensures ValidRegistration(kept[i]) {
      assert kept[i] in rows;
    }
  }

  /** Every kept row is one of the input rows. */
  lemma {:induction false} DropMissingIdsFrom(rows: seq<ParsedCustomer>)
    ensures forall p :: p in DropMissingIds(rows) ==> p in rows
  {
    if |rows| > 0 {
      var init := rows[..|rows| - 1];
      DropMissingIdsFrom(init);
      assert rows == init + [rows[|rows| - 1]];
    }
  }

  /** The table the stages build, composed in `transform_customers`' order. */
  function CustomerTable(raw: seq<RawCustomer>, snapshot: Date): seq<Customer>
    requires IsValid(snapshot)
  {
    ParsedRowsValid(raw);
    DeriveAll(DropMissingIds(ParseAll(raw)), snapshot)
  }

  /** A tenure too long, either way, for a nanosecond timedelta. */
  predicate TenureOverflows(c: Customer) {
    c.customerDays.Some? && (c.customerDays.value > MaxTenureDays || c.customerDays.value < -MaxTenureDays)
  }

  /** The subtraction of the dates as a whole: it fails when any one row overflows. */
  function CheckTenures(customers: seq<Customer>): (r: Result<seq<Customer>, CleanError>)
    ensures r.Ok? <==> forall k :: 0 <= k < |customers| ==> !TenureOverflows(customers[k])
    ensures r.Ok? ==> r.value == customers
  {
    if exists k :: 0 <= k < |customers| && TenureOverflows(customers[k]) then Err(TenureOverflow)
    else Ok(customers)
  }

  /** What the cleaner returns: the table, unless some tenure overflows. */
  function CleanCustomers(raw: seq<RawCustomer>, snapshot: Date): Result<seq<Customer>, CleanError>
    requires IsValid(snapshot)
  {
    CheckTenures(CustomerTable(raw, snapshot))
  }

  /** The cleaner, rebuilding the table stage by stage. */
  method TransformCustomers(raw: seq<RawCustomer>, snapshot: Date) returns (out: Result<seq<Customer>, CleanError>)
    requires IsValid(snapshot)
    ensures out == CleanCustomers(raw, snapshot)
  {
    // registration_date
    var rows := ParseAll(raw);

    // rows without customer_id
    var kept: seq<ParsedCustomer> := [];
    for i := 0 to |rows|
      invariant kept == DropMissingIds(rows[..i])
    {
      assert rows[..i + 1][..i] == rows[..i];
      if rows[i].customerId.Some? {
        kept := kept + [rows[i]];
      }
    }
    assert rows[..|rows|] == rows;

    // is_email_valid, region and customer_days
    ParsedRowsValid(raw);
    var table := DeriveAll(kept, snapshot);
    out := CheckTenures(table);
  }

  // ---------------------------------------------------------------------
  // Reference characterisation: every row with an id, in input order

  /** The positions of the rows that have a customer id. */
  function KeptIndices(raw: seq<RawCustomer>): seq<int> {
    if |raw| == 0 then []
    else
      var n := |raw| - 1;
      KeptIndices(raw[..n]) + (if raw[n].customerId.Some? then [n] else [])
  }

  /** One cleaned row against the raw row it comes from. */
  predicate CleanedFrom(r: RawCustomer, c: Customer, snapshot: Date)
    requires IsValid(snapshot)
  {
    && r.customerId == Some(c.customerId)
    && c.customerName == r.customerName && c.email == r.email
    && c.registrationDate == (if r.registrationDate.Some? then ParseDate(r.registrationDate.value) else None)
    && (r.region.None? ==> c.region == UnknownRegion)
    && (r.region.Some? ==> c.region == r.region.value)
    && c.isEmailValid == IsValidEmail(r.email)
    && (c.registrationDate.None? ==> c.customerDays.None?)
    && (c.registrationDate.Some? ==>
          IsValid(c.registrationDate.value)
          && c.customerDays == Some(DayNumber(snapshot) - DayNumber(c.registrationDate.value)))
  }

  /** As many rows are kept as there are positions with an id. */
  lemma {:induction false} KeptIndicesLength(raw: seq<RawCustomer>)
    ensures |DropMissingIds(ParseAll(raw))| == |KeptIndices(raw)|
  {
    if |raw| > 0 {
      var n := |raw| - 1;
      KeptIndicesLength(raw[..n]);
      assert ParseAll(raw)[..n] == ParseAll(raw[..n]);
    }
  }

  /** The kept positions are in range and strictly increasing. */
  lemma {:induction false} KeptIndicesIncreasing(raw: seq<RawCustomer>)
    ensures forall k :: 0 <= k < |KeptIndices(raw)| ==> 0 <= KeptIndices(raw)[k] < |raw|
    ensures forall a, b :: 0 <= a < b < |KeptIndices(raw)| ==> KeptIndices(raw)[a] < KeptIndices(raw)[b]
  {
    if |raw| > 0 {
      KeptIndicesIncreasing(raw[..|raw| - 1]);
    }
  }

  /** A position is kept exactly when its row has an id. */
  lemma {:induction false} KeptIndicesMembers(raw: seq<RawCustomer>)
    ensures forall i :: 0 <= i < |raw| ==> (i in KeptIndices(raw) <==> raw[i].customerId.Some?)
  {
    if |raw| > 0 {
      var n := |raw| - 1;
      var init := raw[..n];
      KeptIndicesMembers(init);
      KeptIndicesIncreasing(init);
      assert forall i :: 0 <= i < n ==> init[i] == raw[i];
      assert n !in KeptIndices(init);
    }
  }

  /** The k-th kept row is the parsed row at the k-th kept position. */
  lemma {:induction false} KeptIndicesRows(raw: seq<RawCustomer>)
    ensures |DropMissingIds(ParseAll(raw))| == |KeptIndices(raw)|
    ensures forall k :: 0 <= k < |KeptIndices(raw)| ==>
      0 <= KeptIndices(raw)[k] < |raw| && DropMissingIds(ParseAll(raw))[k] == ParseRegistration(raw[KeptIndices(raw)[k]])
  {
    KeptIndicesLength(raw);
    KeptIndicesIncreasing(raw);
    if |raw| > 0 {
      var n := |raw| - 1;
      var init := raw[..n];
      KeptIndicesRows(init);
      KeptIndicesIncreasing(init);
      assert ParseAll(raw)[..n] == ParseAll(init);
      assert forall i :: 0 <= i < n ==> init[i] == raw[i];
    }
  }

  /** The table keeps exactly the rows with a customer id, in input order, each derived from its own input row. */
  lemma CustomerTableRows(raw: seq<RawCustomer>, snapshot: Date)
    requires IsValid(snapshot)
    ensures var out, idx := CustomerTable(raw, snapshot), KeptIndices(raw);
      |out| == |idx|
      && (forall a, b :: 0 <= a < b < |idx| ==> idx[a] < idx[b])
      && (forall i :: 0 <= i < |raw| ==> (i in idx <==> raw[i].customerId.Some?))
      && (forall k :: 0 <= k < |out| ==> 0 <= idx[k] < |raw| && CleanedFrom(raw[idx[k]], out[k], snapshot))
  {
    KeptIndicesIncreasing(raw);
    KeptIndicesMembers(raw);
    KeptIndicesRows(raw);
    ParsedRowsValid(raw);
    var out, idx := CustomerTable(raw, snapshot), KeptIndices(raw);
    var kept := DropMissingIds(ParseAll(raw));
    forall k | 0 <= k < |out| ensures CleanedFrom(raw[idx[k]], out[k], snapshot) {
      assert kept[k] == ParseRegistration(raw[idx[k]]);
      assert out[k] == Derive(kept[k], snapshot);
      DerivedFrom(raw[idx[k]], snapshot);
    }
  }

  /** The registration of a raw row lies more than a nanosecond timedelta away from the snapshot. */
  predicate RegistrationOverflows(r: RawCustomer, snapshot: Date)
    requires IsValid(snapshot)
  {
    var registration := if r.registrationDate.Some? then ParseDate(r.registrationDate.value) else None;
    && registration.Some?
    && (DayNumber(snapshot) - DayNumber(registration.value) > MaxTenureDays
        || DayNumber(registration.value) - DayNumber(snapshot) > MaxTenureDays)
  }

  /** A cleaned row overflows exactly when its raw row's registration does. */
  lemma OverflowFrom(r: RawCustomer, c: Customer, snapshot: Date)
    requires IsValid(snapshot) && CleanedFrom(r, c, snapshot)
    ensures TenureOverflows(c) <==> RegistrationOverflows(r, snapshot)
  {
  }

  /** Some row of the table overflows exactly when some raw row with an id does. */
  lemma TableOverflows(raw: seq<RawCustomer>, snapshot: Date)
    requires IsValid(snapshot)
    ensures (exists k :: 0 <= k < |CustomerTable(raw, snapshot)| && TenureOverflows(CustomerTable(raw, snapshot)[k]))
            <==> exists i :: 0 <= i < |raw| && raw[i].customerId.Some? && RegistrationOverflows(raw[i], snapshot)
  {
    CustomerTableRows(raw, snapshot);
    var table, idx := CustomerTable(raw, snapshot), KeptIndices(raw);
    if i :| 0 <= i < |raw| && raw[i].customerId.Some? && RegistrationOverflows(raw[i], snapshot) {
      var k := SeqIndex(idx, i);
      OverflowFrom(raw[i], table[k], snapshot);
    }
    if k :| 0 <= k < |table| && TenureOverflows(table[k]) {
      OverflowFrom(raw[idx[k]], table[k], snapshot);
    }
  }

  /**
   * The cleaner fails exactly when a customer with an id registered too far
   * from the snapshot; otherwise it keeps exactly the rows with a customer
   * id, in input order, and derives each one from its own input row.
   */
  lemma CleanCustomersRows(raw: seq<RawCustomer>, snapshot: Date)
    requires IsValid(snapshot)
    ensures var res, idx := CleanCustomers(raw, snapshot), KeptIndices(raw);
      && (forall a, b :: 0 <= a < b < |idx| ==> idx[a] < idx[b])
      && (forall i :: 0 <= i < |raw| ==> (i in idx <==> raw[i].customerId.Some?))
      && (res.Err? <==> exists i :: 0 <= i < |raw| && raw[i].customerId.Some? && RegistrationOverflows(raw[i], snapshot))
      && (res.Ok? ==>
            && |res.value| == |idx|
            && forall k :: 0 <= k < |res.value| ==> 0 <= idx[k] < |raw| && CleanedFrom(raw[idx[k]], res.value[k], snapshot))
  {
    CustomerTableRows(raw, snapshot);
    TableOverflows(raw, snapshot);
  }

  /** Parsing a row with an id and deriving its columns gives a row cleaned from it. */
  lemma DerivedFrom(r: RawCustomer, snapshot: Date)
    requires IsValid(snapshot) && r.customerId.Some?
    ensures ValidRegistration(ParseRegistration(r))
    ensures CleanedFrom(r, Derive(ParseRegistration(r), snapshot), snapshot)
  {
  }

  /** A tenure is positive, zero or negative as the registration is before, on or after the snapshot. */
  lemma CustomerDaysSign(registration: Date, snapshot: Date)
    requires IsValid(registration) && IsValid(snapshot)
    ensures var days := CustomerDays(Some(registration), snapshot).value;
      (days > 0 <==> Before(registration, snapshot))
      && (days == 0 <==> registration == snapshot)
      && (days < 0 <==> Before(snapshot, registration))
  {
    DayNumberOrder(registration, snapshot);
    DayNumberOrder(snapshot, registration);
  }

  /** A registration one day later shortens the tenure by one day. */
  lemma CustomerDaysNextDay(registration: Date, snapshot: Date)
    requires IsValid(registration) && IsValid(snapshot) && registration != Date(9999, 12, 31)
    ensures IsValid(NextDay(registration))
    ensures CustomerDays(Some(NextDay(registration)), snapshot).value
            == CustomerDays(Some(registration), snapshot).value - 1
  {
    DayNumberNextDay(registration);
  }

  /** Registered on 2024-01-01, seen on 2024-02-01: 31 days. */
  lemma CustomerDaysExample()
    ensures IsValid(Date(2024, 2, 1)) && ParseDate("2024-01-01") == Some(Date(2024, 1, 1))
    ensures CustomerDays(ParseDate("2024-01-01"), Date(2024, 2, 1)) == Some(31)
  {
    ParseFormatDate(Date(2024, 1, 1));
    assert FormatDate(Date(2024, 1, 1)) == "2024-01-01";
  }

  // ---------------------------------------------------------------------
  // The cleaning case of the test suite

  /** C1 with a valid address and region, C2 with an invalid address and no region. */
  predicate IsExampleRaw(raw: seq<RawCustomer>) {
    && |raw| == 2
    && raw[0] == RawCustomer(Some("C1"), Some("Ivan"), Some("ivan@example.com"), Some("2024-01-01"), Some("Москва"))
    && raw[1] == RawCustomer(Some("C2"), Some("Anna"), Some("invalid-email"), Some("2024-01-15"), None)
  }

  /** Neither test registration lies too far from the snapshot 2024-02-01. */
  lemma ExampleTenuresFit(raw: seq<RawCustomer>)
    requires IsExampleRaw(raw)
    ensures IsValid(Date(2024, 2, 1))
    ensures !RegistrationOverflows(raw[0], Date(2024, 2, 1)) && !RegistrationOverflows(raw[1], Date(2024, 2, 1))
  {
    ParseFormatDate(Date(2024, 1, 1));
    assert FormatDate(Date(2024, 1, 1)) == "2024-01-01";
    ParseFormatDate(Date(2024, 1, 15));
    assert FormatDate(Date(2024, 1, 15)) == "2024-01-15";
  }

  /**
   * Against the snapshot 2024-02-01 both customers are kept; C1 has 31 days
   * and a valid address, C2 an invalid address and the region "Unknown".
   */
  lemma TransformCustomersExample(raw: seq<RawCustomer>)
    requires IsExampleRaw(raw)
    ensures IsValid(Date(2024, 2, 1))
    ensures var res := CleanCustomers(raw, Date(2024, 2, 1));
      && res.Ok? && |res.value| == 2
      && res.value[0].customerId == "C1" && res.value[0].customerDays == Some(31) && res.value[0].isEmailValid
      && res.value[1].customerId == "C2" && !res.value[1].isEmailValid && res.value[1].region == "Unknown"
  {
    var snapshot := Date(2024, 2, 1);
    assert raw[..2] == raw && raw[..1][..0] == [];
    assert KeptIndices(raw[..1]) == [0];
    assert KeptIndices(raw) == [0, 1];
    CustomerDaysExample();
    ExampleTenuresFit(raw);
    CleanCustomersRows(raw, snapshot);
    var out := CleanCustomers(raw, snapshot).value;
    assert CleanedFrom(raw[0], out[0], snapshot);
    assert CleanedFrom(raw[1], out[1], snapshot);
    ValidEmailExample();
    InvalidEmailInvalid();
  }

  /** Registered on 1700-01-01, seen on 2024-02-01: 118,369 days overflow, and the cleaner fails. */
  lemma TenureOverflowExample()
    ensures IsValid(Date(2024, 2, 1))
    ensures DayNumber(Date(2024, 2, 1)) - DayNumber(Date(1700, 1, 1)) == 118369
    ensures CleanCustomers([RawCustomer(Some("C1"), None, None, Some("1700-01-01"), None)], Date(2024, 2, 1)) == Err(TenureOverflow)
  {
    var raw := [RawCustomer(Some("C1"), None, None, Some("1700-01-01"), None)];
    ParseFormatDate(Date(1700, 1, 1));
    assert FormatDate(Date(1700, 1, 1)) == "1700-01-01";
    assert RegistrationOverflows(raw[0], Date(2024, 2, 1));
    CleanCustomersRows(raw, Date(2024, 2, 1));
  }
}
