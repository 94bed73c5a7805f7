/**
 * Per-customer aggregation of transactions: `RFMCalculator.calculate_rfm`.
 * For each customer: the days from the last purchase to the end date (Recency), the number of
 * distinct purchase dates (Frequency), the price total (Monetary), the last purchase date and the
 * number of distinct calendar months with purchases.
 */
module RfmCalculator {
  import opened Common
  import opened Tables
  import opened Calendar

  /** The `global_settings.columns` aliases. */
  datatype ColumnNames = ColumnNames(customerId: string, date: string, invoice: string, price: string, quantity: string)

  /** The aliases of `__init__`: each configured name, or its default. */
  function ColumnNamesFrom(cfg: map<string, string>): (n: ColumnNames)
    ensures n.customerId == (if "customer_id" in cfg then cfg["customer_id"] else "CustomerID")
    ensures n.date == (if "date" in cfg then cfg["date"] else "InvoiceDate")
    ensures n.price == (if "price" in cfg then cfg["price"] else "UnitPrice")
  {
    ColumnNames(
      if "customer_id" in cfg then cfg["customer_id"] else "CustomerID",
      if "date" in cfg then cfg["date"] else "InvoiceDate",
      if "invoice" in cfg then cfg["invoice"] else "InvoiceNo",
      if "price" in cfg then cfg["price"] else "UnitPrice",
      if "quantity" in cfg then cfg["quantity"] else "Quantity")
  }

  /** The columns `calculate_rfm` insists on, in the order it checks them. The invoice column is not among them. */
  function RequiredColumns(n: ColumnNames): seq<string> {
    [n.customerId, n.date, n.price]
  }

  /** The first required column the table lacks, scanning in order. */
  method FirstMissingColumn(columns: seq<string>, required: seq<string>) returns (missing: Option<string>)
    ensures missing.None? <==> forall k :: 0 <= k < |required| ==> required[k] in columns
    ensures missing.Some? ==> exists k :: (0 <= k < |required| && required[k] == missing.value
      && required[k] !in columns && forall j :: 0 <= j < k ==> required[j] in columns)
  {
    for i := 0 to |required|
      invariant forall j :: 0 <= j < i ==> required[j] in columns
    {
      if required[i] !in columns {
        return Some(required[i]);
      }
    }
    return None;
  }

  /** One transaction as the aggregation sees it: the date a day number or NaT, the price a number or NaN. */
  datatype Txn = Txn(customer: Cell, date: Option<int>, price: Option<real>)

  /** Reads one row. A date cell that is not a date or null, or a price cell that is not a number or null, is an error. */
  function ToTxn(r: Row, n: ColumnNames): Result<Txn> {
    var d := CellAt(r, n.date);
    var p := CellAt(r, n.price);
    if !(d.Day? || d.Null?) then Err(ValueError(n.date))
    else if !(p.Num? || p.Null?) then Err(TypeError(n.price))
    else Ok(Txn(CellAt(r, n.customerId), if d.Day? then Some(d.d) else None, if p.Num? then Some(p.x) else None))
  }

  function ToTxns(rows: seq<Row>, n: ColumnNames): (r: Result<seq<Txn>>)
    ensures r.Ok? ==> |r.value| == |rows| && forall i :: 0 <= i < |rows| ==> ToTxn(rows[i], n) == Ok(r.value[i])
  {
    if rows == [] then Ok([])
    else
      match ToTxn(rows[0], n)
      case Err(e) => Err(e)
      case Ok(t) =>
        match ToTxns(rows[1..], n)
        case Err(e) => Err(e)
        case Ok(ts) => Ok([t] + ts)
  }

  /** Whether `c` is a non-null customer id of some transaction. */
  predicate IsBuyer(ts: seq<Txn>, c: Cell) {
    c != Null && exists k :: 0 <= k < |ts| && ts[k].customer == c
  }

  /** The non-null customer ids (groupby drops null keys), each once, in order of first appearance. */
  function Customers(ts: seq<Txn>): (cs: seq<Cell>)
    ensures forall i, j :: 0 <= i < j < |cs| ==> cs[i] != cs[j]
    ensures forall c :: c in cs <==> IsBuyer(ts, c)
  {
    if ts == [] then []
    else
      var p := Customers(ts[..|ts| - 1]);
      var c := ts[|ts| - 1].customer;
      assert forall k :: 0 <= k < |ts| - 1 ==> ts[..|ts| - 1][k] == ts[k];
      if c == Null || c in p then p else p + [c]
  }

  /** The customer's transactions, in order. */
  function Group(ts: seq<Txn>, c: Cell): (g: seq<Txn>)
    ensures forall t :: t in g <==> t in ts && t.customer == c
  {
    if ts == [] then []
    else
      var rest := Group(ts[1..], c);
      assert forall t :: t in ts <==> t == ts[0] || t in ts[1..];
      if ts[0].customer == c then [ts[0]] + rest else rest
  }

  /** The group holds each of the customer's transactions as many times as the input does. */
  lemma {:induction false} GroupMultiplicity(ts: seq<Txn>, c: Cell)
    ensures forall t :: multiset(Group(ts, c))[t] == if t.customer == c then multiset(ts)[t] else 0
  {
    if ts != [] {
      GroupMultiplicity(ts[1..], c);
      assert ts == [ts[0]] + ts[1..];
    }
  }

  /** The distinct non-null dates of a group. */
  function DateSet(g: seq<Txn>): set<int> {
    set t | t in g && t.date.Some? :: t.date.value
  }

  /** The latest date of a group (`max` skips NaT), or none when the group has no date. */
  function LastDate(g: seq<Txn>): (r: Option<int>)
    ensures r.None? <==> DateSet(g) == {}
    ensures r.Some? ==> r.value in DateSet(g) && forall d :: d in DateSet(g) ==> d <= r.value
  {
    if g == [] then None
    else
      var rest := LastDate(g[1..]);
      assert DateSet(g) == DateSet(g[1..]) + (if g[0].date.Some? then {g[0].date.value} else {}) by {
        assert forall t :: t in g <==> t == g[0] || t in g[1..];
      }
      match g[0].date
      case None => rest
      case Some(d) => if rest.None? || rest.value < d then Some(d) else rest
  }

  /** The price total of a group (NaN prices are skipped). */
  function PriceSum(g: seq<Txn>): real {
    if g == [] then 0.0 else g[0].price.GetOr(0.0) + PriceSum(g[1..])
  }

  /** The distinct values of `f` over `ds`: `nunique` after mapping each date to its month. */
  function Image(ds: set<int>, f: int -> int): set<int> {
    set d | d in ds :: f(d)
  }

  /** One output row. Recency and the last purchase date are NaN/NaT for a customer without dates. */
  datatype RfmRow = RfmRow(customer: Cell, recency: Option<int>, frequency: nat, monetary: real,
                           lastPurchase: Option<int>, months: nat)

  /** The aggregation of lines 115-121 for one customer. */
  function Aggregate(ts: seq<Txn>, c: Cell, endDate: int): RfmRow {
    var g := Group(ts, c);
    var last := LastDate(g);
    RfmRow(c, if last.Some? then Some(endDate - last.value) else None,
           |DateSet(g)|, PriceSum(g), last, |Image(DateSet(g), YearMonth)|)
  }

  function AggregateAll(ts: seq<Txn>, endDate: int): (rows: seq<RfmRow>)
    ensures |rows| == |Customers(ts)|
    ensures forall i :: 0 <= i < |rows| ==> rows[i] == Aggregate(ts, Customers(ts)[i], endDate)
  {
    var cs := Customers(ts);
    seq(|cs|, i requires 0 <= i < |cs| => Aggregate(ts, cs[i], endDate))
  }

  /** `calculate_rfm(data)`: the required-column check, then the group-by. */
  method CalculateRfm(t: Table, n: ColumnNames, endDate: int) returns (r: Result<seq<RfmRow>>)
    ensures (exists k :: 0 <= k < 3 && RequiredColumns(n)[k] !in t.columns) ==> r.Err? && r.error.KeyError?
    ensures (forall k :: 0 <= k < 3 ==> RequiredColumns(n)[k] in t.columns) ==>
      r == match ToTxns(t.rows, n) case Err(e) => Err(e) case Ok(ts) => Ok(AggregateAll(ts, endDate))
  {
    var missing := FirstMissingColumn(t.columns, RequiredColumns(n));
    if missing.Some? {
      return Err(KeyError(missing.value));
    }
    var ts := ToTxns(t.rows, n);
    if ts.Err? {
      return Err(ts.error);
    }
    r := Ok(AggregateAll(ts.value, endDate));
  }

  /** The output has exactly one row per distinct non-null customer id. */
  lemma OneRowPerCustomer(ts: seq<Txn>, endDate: int)
    ensures var rows := AggregateAll(ts, endDate);
      (forall i, j :: 0 <= i < j < |rows| ==> rows[i].customer != rows[j].customer)
      && (forall c :: IsBuyer(ts, c) <==> exists i :: 0 <= i < |rows| && rows[i].customer == c)
  {
    var rows := AggregateAll(ts, endDate);
    var cs := Customers(ts);
    forall c ensures IsBuyer(ts, c) <==> exists i :: 0 <= i < |rows| && rows[i].customer == c {
      if c in cs {
        var i :| 0 <= i < |cs| && cs[i] == c;
        assert rows[i].customer == c;
      }
    }
  }

  /** Mapping a set through a function never makes it larger. */
  lemma {:induction false} ImageNoLarger(ds: set<int>, f: int -> int)
    ensures |Image(ds, f)| <= |ds|
    decreases |ds|
  {
    if |ds| != 0 {
      var d := PickDate(ds);
      var rest := ds - {d};
      ImageNoLarger(rest, f);
      assert Image(ds, f) == Image(rest, f) + {f(d)};
    }
  }

  /** The image of a set is empty exactly when the set is. */
  lemma ImageEmpty(ds: set<int>, f: int -> int)
    ensures |Image(ds, f)| == 0 <==> |ds| == 0
  {
    if |ds| != 0 {
      var d := PickDate(ds);
      assert f(d) in Image(ds, f);
    }
  }

  lemma PickDate(ds: set<int>) returns (d: int)
    requires |ds| != 0
    ensures d in ds
  {
    if forall x :: x !in ds {
      assert false;
    }
    d :| d in ds;
  }

  /** A customer's dated purchase puts its month among the customer's months. */
  predicate HasDatedPurchase(ts: seq<Txn>, c: Cell) {
    exists k :: 0 <= k < |ts| && ts[k].customer == c && ts[k].date.Some?
  }

  lemma DatedPurchaseInGroup(ts: seq<Txn>, c: Cell, k: nat)
    requires k < |ts| && ts[k].customer == c && ts[k].date.Some?
    ensures ts[k].date.value in DateSet(Group(ts, c))
  {
    assert ts[k] in Group(ts, c);
  }

  /** For every output row `months <= frequency`: the months are counted over the distinct dates. */
  lemma MonthsWithinFrequency(ts: seq<Txn>, c: Cell, endDate: int)
    ensures Aggregate(ts, c, endDate).months <= Aggregate(ts, c, endDate).frequency
  {
    ImageNoLarger(DateSet(Group(ts, c)), YearMonth);
  }

  /** A customer has a dated purchase exactly when its group has a date. */
  lemma DatedPurchaseIffDates(ts: seq<Txn>, c: Cell)
    ensures HasDatedPurchase(ts, c) <==> |DateSet(Group(ts, c))| != 0
  {
    var g := Group(ts, c);
    if HasDatedPurchase(ts, c) {
      var k :| 0 <= k < |ts| && ts[k].customer == c && ts[k].date.Some?;
      DatedPurchaseInGroup(ts, c, k);
    }
    if |DateSet(g)| != 0 {
      var d := PickDate(DateSet(g));
      var t :| t in g && t.date.Some? && t.date.value == d;
      assert t in ts;
      var k :| 0 <= k < |ts| && ts[k] == t;
      assert ts[k].customer == c && ts[k].date.Some?;
    }
  }

  /** `1 <= months` exactly when the customer has a dated purchase. */
  lemma MonthsPositive(ts: seq<Txn>, c: Cell, endDate: int)
    ensures HasDatedPurchase(ts, c) <==> 1 <= Aggregate(ts, c, endDate).months
  {
    DatedPurchaseIffDates(ts, c);
    ImageEmpty(DateSet(Group(ts, c)), YearMonth);
  }

  /** The group's last date is the latest of the customer's dates, and is one of them. */
  lemma LastDateIsLatest(ts: seq<Txn>, c: Cell)
    ensures var last := LastDate(Group(ts, c));
      (last.Some? <==> HasDatedPurchase(ts, c))
      && (last.Some? ==>
            (forall k :: 0 <= k < |ts| && ts[k].customer == c && ts[k].date.Some? ==> ts[k].date.value <= last.value)
            && exists k :: 0 <= k < |ts| && ts[k].customer == c && ts[k].date == last)
  {
    var g := Group(ts, c);
    DatedPurchaseIffDates(ts, c);
    forall k | 0 <= k < |ts| && ts[k].customer == c && ts[k].date.Some?
      ensures ts[k].date.value in DateSet(g) {
      DatedPurchaseInGroup(ts, c, k);
    }
    var last := LastDate(g);
    if last.Some? {
      var t :| t in g && t.date.Some? && t.date.value == last.value;
      assert t in ts;
      var k :| 0 <= k < |ts| && ts[k] == t;
    }
  }

  /**
   * `LastPurchaseDate` is the customer's latest date (absent only without dated purchases), and
   * Recency is the whole number of days from it to the end date.
   */
  lemma RecencyFromLatestDate(ts: seq<Txn>, c: Cell, endDate: int)
    ensures var row := Aggregate(ts, c, endDate);
      (row.lastPurchase.Some? <==> HasDatedPurchase(ts, c))
      && (row.lastPurchase.Some? ==>
            row.recency == Some(endDate - row.lastPurchase.value)
            && (forall k :: 0 <= k < |ts| && ts[k].customer == c && ts[k].date.Some? ==>
                  ts[k].date.value <= row.lastPurchase.value)
            && exists k :: 0 <= k < |ts| && ts[k].customer == c && ts[k].date == row.lastPurchase)
  {
    LastDateIsLatest(ts, c);
  }
}
