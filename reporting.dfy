/**
 * Monthly reporting: `Stan::transaksiByMonth`, `Stan::incomeByMonth`,
 * `Siswa::transaksiByMonth` and the `StanController::incomeByMonth` handler.
 */
module Reporting {
  import opened Wrappers
  import opened Calendar
  import opened Accounts
  import opened Orders

  /** Whose transactions a listing is for: a stan's sales or a siswa's purchases. */
  datatype Owner = OfStan(idStan: int) | OfSiswa(idSiswa: int)

  predicate Owns(o: Owner, t: Transaksi) {
    match o
    case OfStan(s) => t.idStan == s
    case OfSiswa(s) => t.idSiswa == s
  }

  /** The rows a by-month query selects, before ordering. */
  function Selection(txs: map<int, Transaksi>, o: Owner, month: int, year: int): (r: map<int, Transaksi>)
    ensures forall id :: id in r <==> id in txs && Owns(o, txs[id]) && InMonth(txs[id].tanggal, month, year)
    ensures forall id :: id in r ==> r[id] == txs[id]
  {
    var inMonth := ScopeByMonth(txs, month, year);
    map id | id in inMonth && Owns(o, inMonth[id]) :: inMonth[id]
  }

  predicate AllIn(ids: seq<int>, txs: map<int, Transaksi>) {
    forall k :: 0 <= k < |ids| ==> ids[k] in txs
  }

  /** No id occurs twice. */
  ghost predicate Distinct(ids: seq<int>) {
    forall id :: multiset(ids)[id] <= 1
  }

  /** Ordered by `tanggal`, newest first (`orderBy('tanggal', 'desc')`). */
  predicate NewestFirst(ids: seq<int>, txs: map<int, Transaksi>)
    requires AllIn(ids, txs)
  {
    forall i, j :: 0 <= i < j < |ids| ==> Le(txs[ids[j]].tanggal, txs[ids[i]].tanggal)
  }

  lemma NonEmptyHasElement(s: set<int>)
    requires s != {}
    ensures exists y :: y in s
  {
    if forall y :: y !in s {
      assert false;
    }
  }

  /** `m` is the least element of `s`. */
  predicate IsMin(m: int, s: set<int>) {
    m in s && forall x :: x in s ==> m <= x
  }

  lemma {:induction false} MinExists(s: set<int>)
    requires s != {}
    ensures exists m :: IsMin(m, s)
  {
    NonEmptyHasElement(s);
    var y :| y in s;
    if s == {y} {
      assert IsMin(y, s);
    } else {
      MinExists(s - {y});
      var m :| IsMin(m, s - {y});
      var w := if y < m then y else m;
      forall x | x in s ensures w <= x {
        if x != y { assert x in s - {y}; }
      }
      assert IsMin(w, s);
    }
  }

  /** The ids of a table in primary-key order, each once. */
  function SortedKeys(s: set<int>): (r: seq<int>)
    ensures |r| == |s|
    ensures forall x :: x in r <==> x in s
    ensures Distinct(r)
    decreases |s|
  {
    if s == {} then []
    else
      MinExists(s);
      var m :| IsMin(m, s);
      var rest := SortedKeys(s - {m});
      assert multiset([m] + rest) == multiset{m} + multiset(rest);
      [m] + rest
  }

  /** Putting a row in front of rows that are not newer keeps the order. */
  lemma PrependNewest(id: int, rest: seq<int>, txs: map<int, Transaksi>)
    requires id in txs && AllIn(rest, txs) && NewestFirst(rest, txs)
    requires forall x :: x in rest ==> Le(txs[x].tanggal, txs[id].tanggal)
    ensures AllIn([id] + rest, txs) && NewestFirst([id] + rest, txs)
  {
    var r := [id] + rest;
    forall i, j | 0 <= i < j < |r| ensures Le(txs[r[j]].tanggal, txs[r[i]].tanggal) {
      assert r[j] == rest[j - 1];
      if i > 0 {
        assert r[i] == rest[i - 1];
      }
    }
  }

  /** Places `id` before the first row that is not newer than it. */
  function InsertNewest(id: int, sorted: seq<int>, txs: map<int, Transaksi>): (r: seq<int>)
    requires id in txs && AllIn(sorted, txs) && NewestFirst(sorted, txs)
    ensures multiset(r) == multiset(sorted) + multiset{id}
    ensures forall x :: x in r <==> x in sorted || x == id
    ensures |r| == |sorted| + 1
    ensures AllIn(r, txs) && NewestFirst(r, txs)
  {
    if sorted == [] || Le(txs[sorted[0]].tanggal, txs[id].tanggal) then
      forall x | x in sorted ensures Le(txs[x].tanggal, txs[id].tanggal) {
        var k :| 0 <= k < |sorted| && sorted[k] == x;
        if k > 0 { LeTransitive(txs[sorted[k]].tanggal, txs[sorted[0]].tanggal, txs[id].tanggal); }
      }
      PrependNewest(id, sorted, txs);
      [id] + sorted
    else
      var head := sorted[0];
      var rest := InsertNewest(id, sorted[1..], txs);
      assert sorted == [head] + sorted[1..];
      LeTotal(txs[head].tanggal, txs[id].tanggal);
      forall x | x in rest ensures Le(txs[x].tanggal, txs[head].tanggal) {
        if x != id {
          var k :| 0 <= k < |sorted[1..]| && sorted[1..][k] == x;
          assert sorted[k + 1] == x;
        }
      }
      PrependNewest(head, rest, txs);
      [head] + rest
  }

  /** Insertion sort by `tanggal`, newest first. */
  function SortNewestFirst(ids: seq<int>, txs: map<int, Transaksi>): (r: seq<int>)
    requires AllIn(ids, txs)
    ensures multiset(r) == multiset(ids) && |r| == |ids|
    ensures AllIn(r, txs) && NewestFirst(r, txs)
  {
    if ids == [] then []
    else
      assert ids == [ids[0]] + ids[1..];
      InsertNewest(ids[0], SortNewestFirst(ids[1..], txs), txs)
  }

  /**
   * `transaksiByMonth`: the owner's transactions dated in the given month and
   * year, each once, newest first. Rows with equal `tanggal` come in a
   * fixed but otherwise unspecified order.
   */
  function MonthListing(txs: map<int, Transaksi>, o: Owner, month: int, year: int): (r: seq<int>)
    ensures forall id :: id in r <==> id in txs && Owns(o, txs[id]) && InMonth(txs[id].tanggal, month, year)
    ensures Distinct(r) && |r| == |Selection(txs, o, month, year)|
    ensures AllIn(r, txs) && NewestFirst(r, txs)
  {
    var sel := Selection(txs, o, month, year);
    var keys := SortedKeys(sel.Keys);
    assert |sel.Keys| == |sel|;
    var r := SortNewestFirst(keys, txs);
    assert forall id :: id in r <==> id in keys by {
      forall id ensures id in r <==> id in keys {
        assert id in r <==> id in multiset(r);
        assert id in keys <==> id in multiset(keys);
      }
    }
    r
  }

  /** `Stan::transaksiByMonth`. */
  function StanTransaksiByMonth(txs: map<int, Transaksi>, idStan: int, month: int, year: int): (r: seq<int>)
    ensures forall id :: id in r <==> id in txs && txs[id].idStan == idStan && InMonth(txs[id].tanggal, month, year)
    ensures Distinct(r) && AllIn(r, txs) && NewestFirst(r, txs)
  {
    MonthListing(txs, OfStan(idStan), month, year)
  }

  /** `Siswa::transaksiByMonth`. */
  function SiswaTransaksiByMonth(txs: map<int, Transaksi>, idSiswa: int, month: int, year: int): (r: seq<int>)
    ensures forall id :: id in r <==> id in txs && txs[id].idSiswa == idSiswa && InMonth(txs[id].tanggal, month, year)
    ensures Distinct(r) && AllIn(r, txs) && NewestFirst(r, txs)
  {
    MonthListing(txs, OfSiswa(idSiswa), month, year)
  }

  // ------------------------------------------------------------ income

  predicate PricesNonNegative(details: seq<Detail>) {
    forall l :: l in details ==> l.hargaBeli >= 0.0 && l.qty >= 0
  }

  /** The sum of the order totals of the listed transactions. */
  function Income(listing: seq<int>, details: seq<Detail>): (r: real)
    ensures PricesNonNegative(details) ==> r >= 0.0
  {
    if listing == [] then 0.0
    else Income(listing[..|listing| - 1], details) + Total(LinesOf(listing[|listing| - 1], details))
  }

  /**
   * The nested loop of `Stan::incomeByMonth`: over the listed transactions,
   * over each one's lines, accumulates `harga_beli * qty`.
   */
  method SumOrderTotals(listing: seq<int>, details: seq<Detail>) returns (total: real)
    ensures total == Income(listing, details)
  {
    total := 0.0;
    var i := 0;
    while i < |listing|
      invariant 0 <= i <= |listing|
      invariant total == Income(listing[..i], details)
    {
      var lines := LinesOf(listing[i], details);
      ghost var before := total;
      var j := 0;
      while j < |lines|
        invariant 0 <= j <= |lines|
        invariant total == before + Total(lines[..j])
      {
        TotalPrefix(lines, j);
        total := total + lines[j].hargaBeli * (lines[j].qty as real);
        j := j + 1;
      }
      assert lines[..j] == lines;
      IncomePrefix(listing, i, details);
      i := i + 1;
    }
    assert listing[..i] == listing;
  }

  /** `Stan::incomeByMonth`: the income of the month's `transaksiByMonth` listing; 0 when it is empty. */
  method StanIncomeByMonth(txs: map<int, Transaksi>, details: seq<Detail>, idStan: int, month: int, year: int)
    returns (total: real)
    ensures total == Income(StanTransaksiByMonth(txs, idStan, month, year), details)
    ensures StanTransaksiByMonth(txs, idStan, month, year) == [] ==> total == 0.0
    ensures PricesNonNegative(details) ==> total >= 0.0
  {
    var transactions := StanTransaksiByMonth(txs, idStan, month, year);
    total := SumOrderTotals(transactions, details);
  }

  lemma IncomePrefix(listing: seq<int>, i: nat, details: seq<Detail>)
    requires i < |listing|
    ensures Income(listing[..i + 1], details) == Income(listing[..i], details) + Total(LinesOf(listing[i], details))
  {
    assert listing[..i + 1][..i] == listing[..i];
  }

  /** The lines of the listed transactions, in table order. */
  function LinesIn(details: seq<Detail>, listing: seq<int>): (r: seq<Detail>)
    ensures forall l :: l in r <==> l in details && l.idTransaksi in listing
  {
    if details == [] then []
    else
      var rest := LinesIn(details[..|details| - 1], listing);
      var l := details[|details| - 1];
      assert details == details[..|details| - 1] + [l];
      if l.idTransaksi in listing then rest + [l] else rest
  }

  lemma LinesOfSnoc(idTransaksi: int, details: seq<Detail>, l: Detail)
    ensures LinesOf(idTransaksi, details + [l])
      == LinesOf(idTransaksi, details) + (if l.idTransaksi == idTransaksi then [l] else [])
  {
    assert (details + [l])[..|details + [l]| - 1] == details;
  }

  lemma TotalSnoc(lines: seq<Detail>, l: Detail)
    ensures Total(lines + [l]) == Total(lines) + Subtotal(l)
  {
    assert (lines + [l])[..|lines + [l]| - 1] == lines;
  }

  lemma {:induction false} IncomeAddLine(listing: seq<int>, details: seq<Detail>, l: Detail)
    requires Distinct(listing)
    ensures Income(listing, details + [l]) == Income(listing, details) + (if l.idTransaksi in listing then Subtotal(l) else 0.0)
  {
    if listing != [] {
      var p := listing[..|listing| - 1];
      var x := listing[|listing| - 1];
      assert listing == p + [x];
      forall y ensures multiset(p)[y] <= 1 {
        assert multiset(listing)[y] == multiset(p)[y] + multiset{x}[y];
      }
      IncomeAddLine(p, details, l);
      LinesOfSnoc(x, details, l);
      if l.idTransaksi == x {
        assert multiset(listing)[x] == multiset(p)[x] + 1;
        assert x !in p;
        TotalSnoc(LinesOf(x, details), l);
      } else {
        assert LinesOf(x, details) + [] == LinesOf(x, details);
      }
    }
  }

  /**
   * Reference definition: the income of a listing is the total of all lines
   * that belong to a listed transaction, whatever order the lines are stored in.
   */
  lemma {:induction false} IncomeIsTotalOfListedLines(listing: seq<int>, details: seq<Detail>)
    requires Distinct(listing)
    ensures Income(listing, details) == Total(LinesIn(details, listing))
  {
    if details == [] {
      IncomeOfNoLines(listing);
    } else {
      var d := details[..|details| - 1];
      var l := details[|details| - 1];
      assert details == d + [l];
      IncomeIsTotalOfListedLines(listing, d);
      IncomeAddLine(listing, d, l);
      var rest := LinesIn(d, listing);
      if l.idTransaksi in listing {
        TotalAppend(rest, [l]);
        assert Total([l]) == Subtotal(l) by { assert [l][..0] == []; }
      }
    }
  }

  lemma {:induction false} IncomeOfNoLines(listing: seq<int>)
    ensures Income(listing, []) == 0.0
  {
    if listing != [] {
      IncomeOfNoLines(listing[..|listing| - 1]);
    }
  }

  // ------------------------------------------------------------ daily breakdown

  /** True when some listed transaction is dated on day `d` of its month. */
  predicate HasDay(listing: seq<int>, txs: map<int, Transaksi>, d: int)
    requires AllIn(listing, txs)
  {
    exists k :: 0 <= k < |listing| && txs[listing[k]].tanggal.day == d
  }

  lemma HasDayPrefix(listing: seq<int>, i: nat, txs: map<int, Transaksi>)
    requires i < |listing| && AllIn(listing, txs)
    ensures AllIn(listing[..i], txs) && AllIn(listing[..i + 1], txs)
    ensures forall d :: HasDay(listing[..i + 1], txs, d) <==> HasDay(listing[..i], txs, d) || d == txs[listing[i]].tanggal.day
  {
    var p, q := listing[..i], listing[..i + 1];
    forall d ensures HasDay(q, txs, d) <==> HasDay(p, txs, d) || d == txs[listing[i]].tanggal.day {
      if HasDay(p, txs, d) {
        var k :| 0 <= k < |p| && txs[p[k]].tanggal.day == d;
        assert q[k] == p[k];
      }
      if HasDay(q, txs, d) {
        var k :| 0 <= k < |q| && txs[q[k]].tanggal.day == d;
        if k < i { assert p[k] == q[k]; }
      }
      assert q[i] == listing[i];
    }
  }

  /** The income of the listed transactions dated on day `d` of the month. */
  function DayIncome(listing: seq<int>, txs: map<int, Transaksi>, details: seq<Detail>, d: int): (r: real)
    requires AllIn(listing, txs)
    ensures !HasDay(listing, txs, d) ==> r == 0.0
  {
    if listing == [] then 0.0
    else
      var n := |listing| - 1;
      HasDayPrefix(listing, n, txs);
      assert listing[..n + 1] == listing;
      DayIncome(listing[..n], txs, details, d)
        + (if txs[listing[n]].tanggal.day == d then Total(LinesOf(listing[n], details)) else 0.0)
  }

  lemma DayIncomePrefix(listing: seq<int>, i: nat, txs: map<int, Transaksi>, details: seq<Detail>, d: int)
    requires i < |listing| && AllIn(listing, txs)
    ensures AllIn(listing[..i], txs) && AllIn(listing[..i + 1], txs)
    ensures DayIncome(listing[..i + 1], txs, details, d)
      == DayIncome(listing[..i], txs, details, d)
         + (if txs[listing[i]].tanggal.day == d then Total(LinesOf(listing[i], details)) else 0.0)
  {
    assert listing[..i + 1][..i] == listing[..i];
  }

  /**
   * `StanController::incomeByMonth`'s loop: for each transaction, sets the
   * day's key to 0 if it is missing, then adds each line's `harga_beli * qty`.
   * The result has a key exactly for the days with a transaction, including
   * a transaction without lines, and each key holds that day's income.
   */
  method DailyBreakdown(listing: seq<int>, txs: map<int, Transaksi>, details: seq<Detail>)
    returns (m: map<int, real>)
    requires AllIn(listing, txs)
    ensures forall d :: d in m <==> HasDay(listing, txs, d)
    ensures forall d :: d in m ==> 1 <= d <= 31 && m[d] == DayIncome(listing, txs, details, d)
  {
    m := map[];
    var i := 0;
    while i < |listing|
      invariant 0 <= i <= |listing|
      invariant AllIn(listing[..i], txs)
      invariant forall d :: d in m <==> HasDay(listing[..i], txs, d)
      invariant forall d :: d in m ==> m[d] == DayIncome(listing[..i], txs, details, d)
    {
      var id := listing[i];
      var day := txs[id].tanggal.day as int;
      HasDayPrefix(listing, i, txs);
      if day !in m {
        m := m[day := 0.0];
      }
      var lines := LinesOf(id, details);
      var j := 0;
      while j < |lines|
        invariant 0 <= j <= |lines|
        invariant forall d :: d in m <==> HasDay(listing[..i + 1], txs, d)
        invariant forall d :: d in m && d != day ==> m[d] == DayIncome(listing[..i], txs, details, d)
        invariant day in m && m[day] == DayIncome(listing[..i], txs, details, day) + Total(lines[..j])
      {
        TotalPrefix(lines, j);
        m := m[day := m[day] + lines[j].hargaBeli * (lines[j].qty as real)];
        j := j + 1;
      }
      assert lines[..j] == lines;
      forall d | d in m ensures m[d] == DayIncome(listing[..i + 1], txs, details, d) {
        DayIncomePrefix(listing, i, txs, details, d);
      }
      i := i + 1;
    }
    assert listing[..i] == listing;
    forall d | d in m ensures 1 <= d <= 31 {
      var k :| 0 <= k < |listing| && txs[listing[k]].tanggal.day == d;
    }
  }

  /** The sum of the values a map holds under the keys 1..n. */
  function DaySum(m: map<int, real>, n: nat): real {
    if n == 0 then 0.0 else DaySum(m, n - 1) + (if n in m then m[n] else 0.0)
  }

  /** The sum of the day incomes of days 1..n. */
  function DayIncomeSum(listing: seq<int>, txs: map<int, Transaksi>, details: seq<Detail>, n: nat): real
    requires AllIn(listing, txs)
  {
    if n == 0 then 0.0 else DayIncomeSum(listing, txs, details, n - 1) + DayIncome(listing, txs, details, n)
  }

  /** A map that agrees with the day incomes sums to the same amount. */
  lemma {:induction false} DaySumOfBreakdown(listing: seq<int>, txs: map<int, Transaksi>, details: seq<Detail>,
                                             m: map<int, real>, n: nat)
    requires AllIn(listing, txs)
    requires forall d :: d in m <==> HasDay(listing, txs, d)
    requires forall d :: d in m ==> m[d] == DayIncome(listing, txs, details, d)
    ensures DaySum(m, n) == DayIncomeSum(listing, txs, details, n)
  {
    if n > 0 {
      DaySumOfBreakdown(listing, txs, details, m, n - 1);
    }
  }

  lemma {:induction false} DayIncomeSumStep(listing: seq<int>, txs: map<int, Transaksi>, details: seq<Detail>, n: nat)
    requires |listing| > 0 && AllIn(listing, txs)
    ensures AllIn(listing[..|listing| - 1], txs)
    ensures
      var last := listing[|listing| - 1];
      DayIncomeSum(listing, txs, details, n)
        == DayIncomeSum(listing[..|listing| - 1], txs, details, n)
           + (if txs[last].tanggal.day <= n then Total(LinesOf(last, details)) else 0.0)
  {
    if n > 0 {
      DayIncomeSumStep(listing, txs, details, n - 1);
    }
  }

  /** Over the 31 possible days, the day incomes add up to the income. */
  lemma {:induction false} DayIncomesAddUpToIncome(listing: seq<int>, txs: map<int, Transaksi>, details: seq<Detail>)
    requires AllIn(listing, txs)
    ensures DayIncomeSum(listing, txs, details, 31) == Income(listing, details)
  {
    if listing == [] {
      NoDayIncome(txs, details, 31);
    } else {
      DayIncomeSumStep(listing, txs, details, 31);
      DayIncomesAddUpToIncome(listing[..|listing| - 1], txs, details);
    }
  }

  lemma {:induction false} NoDayIncome(txs: map<int, Transaksi>, details: seq<Detail>, n: nat)
    ensures DayIncomeSum([], txs, details, n) == 0.0
  {
    if n > 0 {
      NoDayIncome(txs, details, n - 1);
    }
  }

  // ------------------------------------------------------------ handler

  /** `$x ?: now`: an absent or zero route parameter means the current value. */
  function OrCurrent(p: Option<int>, current: int): (r: int)
    ensures p.Some? && p.value != 0 ==> r == p.value
    ensures p.None? || p.value == 0 ==> r == current
  {
    if p.Some? && p.value != 0 then p.value else current
  }

  datatype IncomeResponse =
    | IncomeRefused(status: int)
    | IncomeReport(month: int, year: int, totalIncome: real, transactionCount: nat, dailyBreakdown: map<int, real>)

  /**
   * `StanController::incomeByMonth`: 403 for a non-admin, 500 when the admin
   * has no stan profile; otherwise the month's income, its transaction count
   * and a per-day breakdown whose values add up to the income.
   */
  method IncomeByMonth(user: User, month: Option<int>, year: Option<int>, now: Stamp,
                       txs: map<int, Transaksi>, details: seq<Detail>)
    returns (resp: IncomeResponse)
    ensures !IsAdminStan(user) <==> resp == IncomeRefused(403)
    ensures IsAdminStan(user) && user.stan.None? ==> resp == IncomeRefused(500)
    ensures resp.IncomeReport? ==>
      IsAdminStan(user) && user.stan.Some? &&
      resp.month == OrCurrent(month, now.month as int) &&
      resp.year == OrCurrent(year, now.year) &&
      var listing := StanTransaksiByMonth(txs, user.stan.value, resp.month, resp.year);
      resp.totalIncome == Income(listing, details) &&
      resp.transactionCount == |Selection(txs, OfStan(user.stan.value), resp.month, resp.year)| &&
      (forall d :: d in resp.dailyBreakdown <==> HasDay(listing, txs, d)) &&
      (forall d :: d in resp.dailyBreakdown ==> resp.dailyBreakdown[d] == DayIncome(listing, txs, details, d)) &&
      DaySum(resp.dailyBreakdown, 31) == resp.totalIncome
    ensures IsAdminStan(user) && user.stan.Some? ==> resp.IncomeReport?
  {
    if !IsAdminStan(user) {
      return IncomeRefused(403);
    }
    if user.stan.None? {
      return IncomeRefused(500);
    }
    var idStan := user.stan.value;
    var m := OrCurrent(month, now.month as int);
    var y := OrCurrent(year, now.year);
    var transactions := StanTransaksiByMonth(txs, idStan, m, y);
    var income := StanIncomeByMonth(txs, details, idStan, m, y);
    var daily := DailyBreakdown(transactions, txs, details);
    DaySumOfBreakdown(transactions, txs, details, daily, 31);
    DayIncomesAddUpToIncome(transactions, txs, details);
    resp := IncomeReport(m, y, income, |transactions|, daily);
  }
}
