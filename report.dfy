/**
  The monthly report over stored orders: every paid order contributes a
  record of its month (`YYYY-MM` of its creation time), its total and its
  number of items; the records are then grouped by month, in increasing
  month order, into the number of orders, the number of items and the
  amount collected. Amounts are integer cents.
*/
module Report {

  import opened Wrappers
  import opened Strings

  datatype Item = Item(price: int)
  /** An order as stored: `status` may be absent, `created_at` is text. */
  datatype Order = Order(status: Option<string>, createdAt: string, items: seq<Item>)
  /** One entry of `dados`: `{"mes", "total", "quantidade"}`. */
  datatype Record = Record(month: string, total: int, quantity: nat)
  /** One line of the summary: `mes, pedidos, itens, arrecadado`. */
  datatype Row = Row(month: string, orders: nat, items: nat, collected: int)

  const Paid: string := "pago"

  predicate IsPaid(o: Order) {
    o.status == Some(Paid)
  }

  // ---------------------------------------------------------------------
  // Timestamps: `datetime.strptime(s, "%Y-%m-%d %H:%M:%S")` on the
  // zero-padded form, and `strftime("%Y-%m")`

  predicate DigitsIn(s: string, lo: nat, hi: nat)
    requires lo <= hi <= |s|
  {
    forall k :: lo <= k < hi ==> IsDigit(s[k])
  }

  /** The number written in `s[lo..hi]`. */
  function FieldValue(s: string, lo: nat, hi: nat): nat
    requires lo <= hi <= |s| && DigitsIn(s, lo, hi)
  {
    var d := s[lo..hi];
    assert forall k :: 0 <= k < |d| ==> d[k] == s[lo + k];
    DigitsValue(d)
  }

  /** `YYYY-MM-DD HH:MM:SS`, every field written with all its digits. */
  predicate IsTimestampShape(s: string) {
    && |s| == 19
    && s[4] == '-' && s[7] == '-' && s[10] == ' ' && s[13] == ':' && s[16] == ':'
    && DigitsIn(s, 0, 4) && DigitsIn(s, 5, 7) && DigitsIn(s, 8, 10)
    && DigitsIn(s, 11, 13) && DigitsIn(s, 14, 16) && DigitsIn(s, 17, 19)
  }

  function Year(s: string): nat
    requires IsTimestampShape(s)
  {
    FieldValue(s, 0, 4)
  }

  function Month(s: string): nat
    requires IsTimestampShape(s)
  {
    FieldValue(s, 5, 7)
  }

  predicate IsLeapYear(y: nat) {
    y % 4 == 0 && (y % 100 != 0 || y % 400 == 0)
  }

  function DaysInMonth(y: nat, m: nat): nat
    requires 1 <= m <= 12
  {
    if m == 2 then (if IsLeapYear(y) then 29 else 28)
    else if m == 4 || m == 6 || m == 9 || m == 11 then 30
    else 31
  }

  /** A creation time `strptime` reads as a valid date and time. */
  predicate IsTimestamp(s: string) {
    && IsTimestampShape(s)
    && 1000 <= Year(s)
    && 1 <= Month(s) <= 12
    && 1 <= FieldValue(s, 8, 10) <= DaysInMonth(Year(s), Month(s))
    && FieldValue(s, 11, 13) <= 23
    && FieldValue(s, 14, 16) <= 59
    && FieldValue(s, 17, 19) <= 59
  }

  /** `n` written with exactly `width` digits, zero-padded on the left. */
  function PadDigits(n: nat, width: nat): (s: string)
    ensures |s| == width
  {
    if width == 0 then [] else PadDigits(n / 10, width - 1) + [DigitChar(n % 10)]
  }

  /** `strftime("%Y-%m")` of the parsed date. */
  function MonthKey(createdAt: string): string
    requires IsTimestamp(createdAt)
  {
    PadDigits(Year(createdAt), 4) + "-" + PadDigits(Month(createdAt), 2)
  }

  /** Writing back the value of a digit string with as many digits gives the string. */
  lemma {:induction false} PadDigitsValue(d: string)
    requires forall k :: 0 <= k < |d| ==> IsDigit(d[k])
    ensures PadDigits(DigitsValue(d), |d|) == d
  {
    if d != [] {
      var init := d[..|d| - 1];
      var a := DigitsValue(init);
      var b := DigitValue(d[|d| - 1]);
      assert (10 * a + b) / 10 == a && (10 * a + b) % 10 == b;
      PadDigitsValue(init);
      assert d == init + [d[|d| - 1]];
    }
  }

  /** The month key of a well-formed creation time is its first seven characters. */
  lemma MonthKeyIsPrefix(createdAt: string)
    requires IsTimestamp(createdAt)
    ensures MonthKey(createdAt) == createdAt[..7]
  {
    var s := createdAt;
    var y := s[0..4];
    var m := s[5..7];
    assert forall k :: 0 <= k < |y| ==> y[k] == s[k];
    assert forall k :: 0 <= k < |m| ==> m[k] == s[5 + k];
    PadDigitsValue(y);
    PadDigitsValue(m);
    assert s[..7] == y + [s[4]] + m;
  }

  // ---------------------------------------------------------------------
  // Collecting the paid orders (the loop over `pedidos.values()`)

  /** `sum(item["price"] for item in items)`. */
  function ItemsTotal(items: seq<Item>): int {
    if items == [] then 0 else ItemsTotal(items[..|items| - 1]) + items[|items| - 1].price
  }

  /** Every paid order has a creation time `strptime` accepts. */
  predicate PaidAreTimestamped(orders: seq<Order>) {
    forall o :: o in orders && IsPaid(o) ==> IsTimestamp(o.createdAt)
  }

  predicate AllTimestamped(orders: seq<Order>) {
    forall k :: 0 <= k < |orders| ==> IsTimestamp(orders[k].createdAt)
  }

  /** The paid orders, in their stored order. */
  function PaidOrders(orders: seq<Order>): (paid: seq<Order>)
    ensures |paid| <= |orders|
    ensures forall k :: 0 <= k < |paid| ==> paid[k] in orders && IsPaid(paid[k])
  {
    if orders == [] then []
    else
      var last := orders[|orders| - 1];
      PaidOrders(orders[..|orders| - 1]) + (if IsPaid(last) then [last] else [])
  }

  /** What the loop appends for one paid order. */
  function RecordOf(o: Order): (r: Record)
    requires IsTimestamp(o.createdAt)
    ensures r.month == o.createdAt[..7]
    ensures r.total == ItemsTotal(o.items) && r.quantity == |o.items|
  {
    MonthKeyIsPrefix(o.createdAt);
    Record(MonthKey(o.createdAt), ItemsTotal(o.items), |o.items|)
  }

  function RecordsOf(orders: seq<Order>): (recs: seq<Record>)
    requires AllTimestamped(orders)
    ensures |recs| == |orders|
  {
    seq(|orders|, k requires 0 <= k < |orders| => RecordOf(orders[k]))
  }

  lemma PaidOrdersTimestamped(orders: seq<Order>)
    requires PaidAreTimestamped(orders)
    ensures AllTimestamped(PaidOrders(orders))
  {
  }

  /** `dados` after the loop: one record per paid order, in order. */
  function PaidRecords(orders: seq<Order>): seq<Record>
    requires PaidAreTimestamped(orders)
  {
    PaidOrdersTimestamped(orders);
    RecordsOf(PaidOrders(orders))
  }

  /** An order is reported exactly when it is among the orders and paid. */
  lemma {:induction false} PaidOrdersMembers(orders: seq<Order>, o: Order)
    ensures o in PaidOrders(orders) <==> o in orders && IsPaid(o)
  {
    if orders != [] {
      var init := orders[..|orders| - 1];
      PaidOrdersMembers(init, o);
      assert orders == init + [orders[|orders| - 1]];
    }
  }

  /** No summary is produced exactly when no order is paid. */
  lemma NoPaidOrders(orders: seq<Order>)
    ensures PaidOrders(orders) == [] <==> forall o :: o in orders ==> !IsPaid(o)
  {
    if PaidOrders(orders) == [] {
      forall o | o in orders ensures !IsPaid(o) {
        PaidOrdersMembers(orders, o);
      }
    } else {
      var o := PaidOrders(orders)[0];
      assert o in orders && IsPaid(o);
    }
  }

  lemma PrefixPaidTimestamped(orders: seq<Order>, i: nat)
    requires i <= |orders| && PaidAreTimestamped(orders)
    ensures PaidAreTimestamped(orders[..i])
  {
    forall o | o in orders[..i] && IsPaid(o) ensures IsTimestamp(o.createdAt) {
      assert o in orders;
    }
  }

  lemma PaidRecordsStep(orders: seq<Order>, i: nat)
    requires i < |orders| && PaidAreTimestamped(orders)
    ensures PaidAreTimestamped(orders[..i]) && PaidAreTimestamped(orders[..i + 1])
    ensures IsPaid(orders[i]) ==>
      IsTimestamp(orders[i].createdAt) && PaidRecords(orders[..i + 1]) == PaidRecords(orders[..i]) + [RecordOf(orders[i])]
    ensures !IsPaid(orders[i]) ==> PaidRecords(orders[..i + 1]) == PaidRecords(orders[..i])
  {
    PrefixPaidTimestamped(orders, i);
    PrefixPaidTimestamped(orders, i + 1);
    assert orders[..i + 1][..i] == orders[..i];
    assert orders[i] in orders;
  }

  /** The loop of lines 14-22: skip unpaid orders, append one record per paid order. */
  method CollectPaid(orders: seq<Order>) returns (dados: seq<Record>)
    requires PaidAreTimestamped(orders)
    ensures dados == PaidRecords(orders)
  {
    dados := [];
    for i := 0 to |orders|
      invariant PaidAreTimestamped(orders[..i])
      invariant dados == PaidRecords(orders[..i])
    {
      PaidRecordsStep(orders, i);
      var pedido := orders[i];
      if pedido.status != Some(Paid) {
        continue;
      }
      var mes := MonthKey(pedido.createdAt);
      var total := ItemsTotal(pedido.items);
      var quantidade := |pedido.items|;
      dados := dados + [Record(mes, total, quantidade)];
    }
    assert orders[..|orders|] == orders;
  }

  // ---------------------------------------------------------------------
  // Grouping by month (`groupby("mes").agg(...)`)

  /** Python's string order: by code points, a proper prefix first. */
  predicate LexLess(a: string, b: string)
    decreases |a|
  {
    |b| > 0 && (|a| == 0 || a[0] < b[0] || (a[0] == b[0] && LexLess(a[1..], b[1..])))
  }

  lemma {:induction false} LexIrreflexive(a: string)
    ensures !LexLess(a, a)
    decreases |a|
  {
    if |a| > 0 {
      LexIrreflexive(a[1..]);
    }
  }

  lemma {:induction false} LexTransitive(a: string, b: string, c: string)
    requires LexLess(a, b) && LexLess(b, c)
    ensures LexLess(a, c)
    decreases |a|
  {
    if |a| > 0 && a[0] == b[0] && b[0] == c[0] {
      LexTransitive(a[1..], b[1..], c[1..]);
    }
  }

  lemma {:induction false} LexTotal(a: string, b: string)
    requires a != b
    ensures LexLess(a, b) || LexLess(b, a)
    decreases |a|
  {
    if |a| > 0 && |b| > 0 && a[0] == b[0] {
      assert a == [a[0]] + a[1..] && b == [b[0]] + b[1..];
      LexTotal(a[1..], b[1..]);
    }
  }

  predicate Sorted(ks: seq<string>) {
    forall i, j :: 0 <= i < j < |ks| ==> LexLess(ks[i], ks[j])
  }

  predicate Distinct(ks: seq<string>) {
    forall i, j :: 0 <= i < j < |ks| ==> ks[i] != ks[j]
  }

  lemma SortedDistinct(ks: seq<string>)
    requires Sorted(ks)
    ensures Distinct(ks)
  {
    forall i, j | 0 <= i < j < |ks| ensures ks[i] != ks[j] {
      LexIrreflexive(ks[i]);
    }
  }

  lemma SortedCons(x: string, ks: seq<string>)
    requires Sorted(ks) && |ks| > 0 && LexLess(x, ks[0])
    ensures Sorted([x] + ks)
  {
    forall j | 0 < j < |ks| ensures LexLess(x, ks[j]) {
      LexTransitive(x, ks[0], ks[j]);
    }
  }

  lemma SortedConsBelow(y: string, rest: seq<string>)
    requires Sorted(rest) && forall m :: m in rest ==> LexLess(y, m)
    ensures Sorted([y] + rest)
  {
    var ks := [y] + rest;
    forall i, j | 0 <= i < j < |ks| ensures LexLess(ks[i], ks[j]) {
      if i == 0 {
        assert ks[j] == rest[j - 1];
      } else {
        assert ks[i] == rest[i - 1] && ks[j] == rest[j - 1];
      }
    }
  }

  /** Inserts a key into a sorted sequence of distinct keys, unless it is there. */
  function Insert(x: string, ks: seq<string>): (r: seq<string>)
    requires Sorted(ks)
    ensures Sorted(r)
    ensures forall m :: m in r <==> m == x || m in ks
  {
    if ks == [] then [x]
    else if x == ks[0] then ks
    else if LexLess(x, ks[0]) then
      SortedCons(x, ks);
      [x] + ks
    else
      LexTotal(x, ks[0]);
      var rest := Insert(x, ks[1..]);
      SortedConsBelow(ks[0], rest);
      [ks[0]] + rest
  }

  /** The months that occur among the records. */
  function Months(recs: seq<Record>): set<string> {
    if recs == [] then {} else Months(recs[..|recs| - 1]) + {recs[|recs| - 1].month}
  }

  /** The distinct months of the records, in increasing order. */
  function SortedMonths(recs: seq<Record>): (ks: seq<string>)
    ensures Sorted(ks)
    ensures forall m :: m in ks <==> m in Months(recs)
  {
    if recs == [] then [] else Insert(recs[|recs| - 1].month, SortedMonths(recs[..|recs| - 1]))
  }

  /** The three aggregates of the summary. */
  datatype Measure = Orders | Items | Collected

  /** What one record adds to an aggregate: 1, its quantity, its total. */
  function Weight(r: Record, mu: Measure): int {
    match mu
    case Orders => 1
    case Items => r.quantity
    case Collected => r.total
  }

  /** The aggregate `mu` over the records of month `m`. */
  function SumIn(recs: seq<Record>, m: string, mu: Measure): (s: int)
    ensures mu != Collected ==> s >= 0
  {
    if recs == [] then 0
    else
      var last := recs[|recs| - 1];
      SumIn(recs[..|recs| - 1], m, mu) + (if last.month == m then Weight(last, mu) else 0)
  }

  /** The aggregate `mu` over all records. */
  function Total(recs: seq<Record>, mu: Measure): int {
    if recs == [] then 0 else Total(recs[..|recs| - 1], mu) + Weight(recs[|recs| - 1], mu)
  }

  function RowField(row: Row, mu: Measure): int {
    match mu
    case Orders => row.orders
    case Items => row.items
    case Collected => row.collected
  }

  /** A row holds the aggregates of its month. */
  predicate Tallies(recs: seq<Record>, row: Row) {
    && row.orders == SumIn(recs, row.month, Orders)
    && row.items == SumIn(recs, row.month, Items)
    && row.collected == SumIn(recs, row.month, Collected)
  }

  lemma TalliesField(recs: seq<Record>, row: Row, mu: Measure)
    requires Tallies(recs, row)
    ensures RowField(row, mu) == SumIn(recs, row.month, mu)
  {
  }

  function RowMonths(rows: seq<Row>): (ks: seq<string>)
    ensures |ks| == |rows| && forall i :: 0 <= i < |rows| ==> ks[i] == rows[i].month
  {
    seq(|rows|, i requires 0 <= i < |rows| => rows[i].month)
  }

  /**
    What the grouped frame is: one row per month that occurs, in increasing
    month order, each with its month's count, items and amount.
  */
  ghost predicate IsMonthlySummary(recs: seq<Record>, rows: seq<Row>) {
    && Sorted(RowMonths(rows))
    && (forall m :: m in RowMonths(rows) <==> m in Months(recs))
    && (forall i :: 0 <= i < |rows| ==> Tallies(recs, rows[i]))
  }

  function MonthRow(recs: seq<Record>, m: string): (row: Row)
    ensures row.month == m && Tallies(recs, row)
  {
    Row(m, SumIn(recs, m, Orders), SumIn(recs, m, Items), SumIn(recs, m, Collected))
  }

  /** `df.groupby("mes").agg(pedidos=count, itens=sum, arrecadado=sum).reset_index()`. */
  function Summarize(recs: seq<Record>): (rows: seq<Row>)
    ensures IsMonthlySummary(recs, rows)
  {
    var ks := SortedMonths(recs);
    var rows := seq(|ks|, i requires 0 <= i < |ks| => MonthRow(recs, ks[i]));
    assert RowMonths(rows) == ks;
    rows
  }

  // ---------------------------------------------------------------------
  // Properties of the summary

  lemma {:induction false} MonthsOfRecords(recs: seq<Record>, k: nat)
    requires k < |recs|
    ensures recs[k].month in Months(recs)
  {
    if k < |recs| - 1 {
      MonthsOfRecords(recs[..|recs| - 1], k);
    }
  }

  /** Every month in the summary has at least one paid order. */
  lemma {:induction false} MonthsAreOccupied(recs: seq<Record>, m: string)
    requires m in Months(recs)
    ensures SumIn(recs, m, Orders) >= 1
  {
    var init := recs[..|recs| - 1];
    if recs[|recs| - 1].month != m {
      MonthsAreOccupied(init, m);
    }
  }

  lemma SummaryRowsOccupied(recs: seq<Record>, rows: seq<Row>, i: nat)
    requires IsMonthlySummary(recs, rows) && i < |rows|
    ensures rows[i].orders >= 1
  {
    assert RowMonths(rows)[i] == rows[i].month;
    MonthsAreOccupied(recs, rows[i].month);
    assert Tallies(recs, rows[i]);
  }

  /** The aggregate `mu` summed over the months listed in `ks`. */
  function SumOver(recs: seq<Record>, ks: seq<string>, mu: Measure): int {
    if ks == [] then 0 else SumIn(recs, ks[0], mu) + SumOver(recs, ks[1..], mu)
  }

  function SumRows(rows: seq<Row>, mu: Measure): int {
    if rows == [] then 0 else RowField(rows[0], mu) + SumRows(rows[1..], mu)
  }

  /** One more record adds its weight to the one month of `ks` it belongs to. */
  lemma {:induction false} SumOverSnoc(init: seq<Record>, r: Record, ks: seq<string>, mu: Measure)
    requires Distinct(ks)
    ensures SumOver(init + [r], ks, mu) == SumOver(init, ks, mu) + (if r.month in ks then Weight(r, mu) else 0)
  {
    if ks != [] {
      var recs := init + [r];
      assert recs[..|recs| - 1] == init;
      assert Distinct(ks[1..]);
      SumOverSnoc(init, r, ks[1..], mu);
      assert r.month in ks <==> r.month == ks[0] || r.month in ks[1..];
      if r.month == ks[0] {
        assert r.month !in ks[1..];
      }
    }
  }

  /** Summing per month over months that cover every record gives the grand total. */
  lemma {:induction false} Conservation(recs: seq<Record>, ks: seq<string>, mu: Measure)
    requires Distinct(ks)
    requires forall k :: 0 <= k < |recs| ==> recs[k].month in ks
    ensures SumOver(recs, ks, mu) == Total(recs, mu)
  {
    if recs == [] {
      ZeroOver(ks, mu);
    } else {
      var init := recs[..|recs| - 1];
      var r := recs[|recs| - 1];
      Conservation(init, ks, mu);
      assert recs == init + [r];
      SumOverSnoc(init, r, ks, mu);
    }
  }

  lemma {:induction false} ZeroOver(ks: seq<string>, mu: Measure)
    ensures SumOver([], ks, mu) == 0
  {
    if ks != [] {
      ZeroOver(ks[1..], mu);
    }
  }

  lemma {:induction false} SumRowsByMonth(recs: seq<Record>, rows: seq<Row>, mu: Measure)
    requires forall i :: 0 <= i < |rows| ==> Tallies(recs, rows[i])
    ensures SumRows(rows, mu) == SumOver(recs, RowMonths(rows), mu)
  {
    if rows != [] {
      SumRowsByMonth(recs, rows[1..], mu);
      assert RowMonths(rows)[1..] == RowMonths(rows[1..]);
      TalliesField(recs, rows[0], mu);
    }
  }

  /**
    Nothing is lost or counted twice: over all months, `pedidos` adds up to
    the number of paid orders, `itens` to their items, `arrecadado` to their totals.
  */
  lemma SummaryConserves(recs: seq<Record>, rows: seq<Row>, mu: Measure)
    requires IsMonthlySummary(recs, rows)
    ensures SumRows(rows, mu) == Total(recs, mu)
  {
    var ks := RowMonths(rows);
    SortedDistinct(ks);
    forall k | 0 <= k < |recs| ensures recs[k].month in ks {
      MonthsOfRecords(recs, k);
    }
    SumRowsByMonth(recs, rows, mu);
    Conservation(recs, ks, mu);
  }

  /** The totals of the records are the orders' counts, items and amounts. */
  lemma {:induction false} RecordTotals(orders: seq<Order>)
    requires AllTimestamped(orders)
    ensures Total(RecordsOf(orders), Orders) == |orders|
    ensures Total(RecordsOf(orders), Items) == ItemCount(orders)
    ensures Total(RecordsOf(orders), Collected) == Amount(orders)
  {
    if orders != [] {
      var init := orders[..|orders| - 1];
      RecordTotals(init);
      assert RecordsOf(orders)[..|orders| - 1] == RecordsOf(init);
    }
  }

  function ItemCount(orders: seq<Order>): nat {
    if orders == [] then 0 else ItemCount(orders[..|orders| - 1]) + |orders[|orders| - 1].items|
  }

  function Amount(orders: seq<Order>): int {
    if orders == [] then 0 else Amount(orders[..|orders| - 1]) + ItemsTotal(orders[|orders| - 1].items)
  }

  /** Two strictly increasing sequences with the same elements are the same. */
  lemma {:induction false} SortedUnique(xs: seq<string>, ys: seq<string>)
    requires Sorted(xs) && Sorted(ys)
    requires forall m :: m in xs <==> m in ys
    ensures xs == ys
    decreases |xs|
  {
    if xs == [] {
      EmptyByMembers(ys);
    } else {
      assert ys != [] by {
        assert xs[0] in ys;
      }
      if xs[0] != ys[0] {
        LexTotal(xs[0], ys[0]);
        if LexLess(xs[0], ys[0]) {
          BelowFirst(xs[0], ys);
        } else {
          BelowFirst(ys[0], xs);
        }
      }
      SortedDistinct(xs);
      SortedDistinct(ys);
      forall m ensures m in xs[1..] <==> m in ys[1..] {
        assert m in xs <==> m == xs[0] || m in xs[1..];
        assert m in ys <==> m == ys[0] || m in ys[1..];
      }
      SortedUnique(xs[1..], ys[1..]);
      assert xs == [xs[0]] + xs[1..] && ys == [ys[0]] + ys[1..];
    }
  }

  lemma EmptyByMembers(ks: seq<string>)
    requires forall m :: m !in ks
    ensures ks == []
  {
    FirstIsMember(ks);
  }

  lemma FirstIsMember(ks: seq<string>)
    ensures ks == [] || ks[0] in ks
  {
  }

  /** A key below the first of a sorted sequence is not in it. */
  lemma BelowFirst(x: string, ks: seq<string>)
    requires Sorted(ks) && |ks| > 0 && LexLess(x, ks[0])
    ensures x !in ks
  {
    if x in ks {
      var j :| 0 <= j < |ks| && ks[j] == x;
      if j > 0 {
        LexTransitive(x, ks[0], ks[j]);
      }
      LexIrreflexive(x);
    }
  }

  /** The declarative description pins the summary down: there is only one. */
  lemma SummaryUnique(recs: seq<Record>, a: seq<Row>, b: seq<Row>)
    requires IsMonthlySummary(recs, a) && IsMonthlySummary(recs, b)
    ensures a == b
  {
    SortedUnique(RowMonths(a), RowMonths(b));
    forall i | 0 <= i < |a| ensures a[i] == b[i] {
      assert a[i].month == b[i].month;
      assert Tallies(recs, a[i]) && Tallies(recs, b[i]);
    }
  }

  // ---------------------------------------------------------------------
  // The whole report

  /**
    `gerar_relatorio_mensal` once the orders are loaded: no summary when no
    order is paid, otherwise the grouped rows of the paid orders' records.
  */
  method GenerateMonthlyReport(orders: seq<Order>) returns (summary: Option<seq<Row>>)
    requires PaidAreTimestamped(orders)
    ensures summary.None? <==> forall o :: o in orders ==> !IsPaid(o)
    ensures summary.Some? ==> IsMonthlySummary(PaidRecords(orders), summary.value)
  {
    var dados := CollectPaid(orders);
    NoPaidOrders(orders);
    if |dados| == 0 {
      return None;
    }
    return Some(Summarize(dados));
  }

  /** Over all months the report counts every paid order, item and cent once. */
  lemma ReportConserves(orders: seq<Order>, rows: seq<Row>)
    requires PaidAreTimestamped(orders)
    requires IsMonthlySummary(PaidRecords(orders), rows)
    ensures SumRows(rows, Orders) == |PaidOrders(orders)|
    ensures SumRows(rows, Items) == ItemCount(PaidOrders(orders))
    ensures SumRows(rows, Collected) == Amount(PaidOrders(orders))
  {
    var recs := PaidRecords(orders);
    PaidOrdersTimestamped(orders);
    RecordTotals(PaidOrders(orders));
    SummaryConserves(recs, rows, Orders);
    SummaryConserves(recs, rows, Items);
    SummaryConserves(recs, rows, Collected);
  }
}
