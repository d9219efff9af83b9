/**
 * The read side of `TransactionController`: the by-month listings and the
 * owner checks of `show`, `checkStatus` and `printNota`.
 */
module Transactions {
  import opened Wrappers
  import opened Calendar
  import opened Accounts
  import opened Orders
  import opened Reporting

  datatype ListingResponse = ListingRefused(status: int) | Listing(ids: seq<int>)

  /**
   * `getStanTransaksiByMonth`: 403 unless the caller is a stan admin, 500
   * when the admin has no stan profile; otherwise the stan's transactions of
   * the month (current month or year when absent), newest first.
   */
  function StanTransactionsByMonth(user: User, month: Option<int>, year: Option<int>, now: Stamp,
                                   txs: map<int, Transaksi>): (r: ListingResponse)
    ensures !IsAdminStan(user) ==> r == ListingRefused(403)
    ensures IsAdminStan(user) && user.stan.None? ==> r == ListingRefused(500)
    ensures IsAdminStan(user) && user.stan.Some? ==>
      r.Listing? &&
      forall id :: id in r.ids <==>
        id in txs && txs[id].idStan == user.stan.value &&
        InMonth(txs[id].tanggal, OrCurrent(month, now.month as int), OrCurrent(year, now.year))
    ensures r.Listing? ==> Distinct(r.ids) && AllIn(r.ids, txs) && NewestFirst(r.ids, txs)
  {
    if !IsAdminStan(user) then ListingRefused(403)
    else if user.stan.None? then ListingRefused(500)
    else Listing(StanTransaksiByMonth(txs, user.stan.value, OrCurrent(month, now.month as int), OrCurrent(year, now.year)))
  }

  /**
   * `getSiswaTransaksiByMonth`: 403 unless the caller is a siswa, 500 when
   * the siswa profile is missing; otherwise the siswa's own transactions of
   * the month, newest first.
   */
  function SiswaTransactionsByMonth(user: User, month: Option<int>, year: Option<int>, now: Stamp,
                                    txs: map<int, Transaksi>): (r: ListingResponse)
    ensures !IsSiswa(user) ==> r == ListingRefused(403)
    ensures IsSiswa(user) && user.siswa.None? ==> r == ListingRefused(500)
    ensures IsSiswa(user) && user.siswa.Some? ==>
      r.Listing? &&
      forall id :: id in r.ids <==>
        id in txs && txs[id].idSiswa == user.siswa.value &&
        InMonth(txs[id].tanggal, OrCurrent(month, now.month as int), OrCurrent(year, now.year))
    ensures r.Listing? ==> Distinct(r.ids) && AllIn(r.ids, txs) && NewestFirst(r.ids, txs)
  {
    if !IsSiswa(user) then ListingRefused(403)
    else if user.siswa.None? then ListingRefused(500)
    else Listing(SiswaTransaksiByMonth(txs, user.siswa.value, OrCurrent(month, now.month as int), OrCurrent(year, now.year)))
  }

  /**
   * The owner check shared by `show`, `checkStatus` and `printNota`: a siswa
   * must be the buyer and a stan admin the seller (a missing profile is a
   * server error); every other role passes.
   */
  function ViewAccess(user: User, t: Transaksi): (status: int)
    ensures status == 200 || status == 403 || status == 500
    ensures status == 500 <==> (IsSiswa(user) && user.siswa.None?) || (IsAdminStan(user) && user.stan.None?)
    ensures status == 403 <==>
      (IsSiswa(user) && user.siswa.Some? && t.idSiswa != user.siswa.value) ||
      (IsAdminStan(user) && user.stan.Some? && t.idStan != user.stan.value)
    ensures !IsSiswa(user) && !IsAdminStan(user) ==> status == 200
  {
    RolesExclusive(user);
    if IsSiswa(user) then
      if user.siswa.None? then 500
      else if t.idSiswa != user.siswa.value then 403
      else 200
    else if IsAdminStan(user) then
      if user.stan.None? then 500
      else if t.idStan != user.stan.value then 403
      else 200
    else 200
  }

  /** The buyer and the seller of an order may always view it. */
  lemma PartiesMayView(user: User, t: Transaksi)
    requires (IsSiswa(user) && user.siswa == Some(t.idSiswa)) || (IsAdminStan(user) && user.stan == Some(t.idStan))
    ensures ViewAccess(user, t) == 200
  {
    RolesExclusive(user);
  }

  datatype ShowResponse = ShowRefused(status: int) | Shown(transaksi: Transaksi, lines: seq<Detail>)

  /** `show`: 404 for an unknown id, then the owner check, then the order with its lines. */
  function Show(user: User, id: int, txs: map<int, Transaksi>, details: seq<Detail>): (r: ShowResponse)
    ensures id !in txs ==> r == ShowRefused(404)
    ensures id in txs && ViewAccess(user, txs[id]) != 200 ==> r == ShowRefused(ViewAccess(user, txs[id]))
    ensures r.Shown? <==> id in txs && ViewAccess(user, txs[id]) == 200
    ensures r.Shown? ==> r.transaksi == txs[id] && r.lines == LinesOf(id, details)
  {
    if id !in txs then ShowRefused(404)
    else
      var access := ViewAccess(user, txs[id]);
      if access != 200 then ShowRefused(access) else Shown(txs[id], LinesOf(id, details))
  }

  datatype StatusResponse = StatusRefused(status: int) | StatusOf(value: string)

  /** `checkStatus`: the same checks as `show`, answering only the status. */
  function CheckStatus(user: User, id: int, txs: map<int, Transaksi>): (r: StatusResponse)
    ensures id !in txs ==> r == StatusRefused(404)
    ensures id in txs && ViewAccess(user, txs[id]) != 200 ==> r == StatusRefused(ViewAccess(user, txs[id]))
    ensures r.StatusOf? <==> id in txs && ViewAccess(user, txs[id]) == 200
    ensures r.StatusOf? ==> r.value == txs[id].status
  {
    if id !in txs then StatusRefused(404)
    else
      var access := ViewAccess(user, txs[id]);
      if access != 200 then StatusRefused(access) else StatusOf(txs[id].status)
  }

  /** `checkStatus` and `show` accept and refuse exactly the same requests. */
  lemma CheckStatusAgreesWithShow(user: User, id: int, txs: map<int, Transaksi>, details: seq<Detail>)
    ensures CheckStatus(user, id, txs).StatusOf? <==> Show(user, id, txs, details).Shown?
    ensures CheckStatus(user, id, txs).StatusRefused? ==>
      Show(user, id, txs, details) == ShowRefused(CheckStatus(user, id, txs).status)
  {
  }

  datatype NotaResponse = NotaRefused(status: int) | Nota(transaksi: Transaksi, lines: seq<Detail>, total: real)

  /**
   * `printNota` without the PDF rendering: the same checks as `show`, then
   * the receipt total accumulated over the order's lines.
   */
  method PrintNota(user: User, id: int, txs: map<int, Transaksi>, details: seq<Detail>) returns (r: NotaResponse)
    ensures id !in txs ==> r == NotaRefused(404)
    ensures id in txs && ViewAccess(user, txs[id]) != 200 ==> r == NotaRefused(ViewAccess(user, txs[id]))
    ensures r.Nota? <==> id in txs && ViewAccess(user, txs[id]) == 200
    ensures r.Nota? ==> r.transaksi == txs[id] && r.lines == LinesOf(id, details) && r.total == Total(r.lines)
  {
    if id !in txs {
      return NotaRefused(404);
    }
    var access := ViewAccess(user, txs[id]);
    if access != 200 {
      return NotaRefused(access);
    }
    var lines := LinesOf(id, details);
    var total := 0.0;
    var i := 0;
    while i < |lines|
      invariant 0 <= i <= |lines|
      invariant total == Total(lines[..i])
    {
      TotalPrefix(lines, i);
      total := total + lines[i].hargaBeli * (lines[i].qty as real);
      i := i + 1;
    }
    assert lines[..i] == lines;
    r := Nota(txs[id], lines, total);
  }
}
