/**
 * Orders: the `transaksi` rows and their `detail_transaksi` lines
 * (app/Models/Transaksi.php, app/Models/DetailTransaksi.php).
 */
module Orders {
  import opened Wrappers
  import opened Calendar

  /** The four values of the `status` enum, in workflow order. */
  const StatusPending: string := "belum dikonfirm"
  const StatusCooking: string := "dimasak"
  const StatusDelivering: string := "diantar"
  const StatusDelivered: string := "sampai"

  predicate ValidStatus(s: string) {
    s == StatusPending || s == StatusCooking || s == StatusDelivering || s == StatusDelivered
  }

  datatype Transaksi = Transaksi(tanggal: Stamp, idStan: int, idSiswa: int, status: string)

  /**
   * One order line. `hargaBeli` is the unit price captured when the order
   * was placed; nothing here refers to the menu's current price.
   */
  datatype Detail = Detail(idTransaksi: int, idMenu: int, qty: int, hargaBeli: real)

  /** `DetailTransaksi::getSubtotalAttribute`: stored unit price times quantity. */
  function Subtotal(d: Detail): (r: real)
    ensures d.qty == 0 ==> r == 0.0
    ensures d.qty == 1 ==> r == d.hargaBeli
    ensures d.hargaBeli >= 0.0 && d.qty >= 0 ==> r >= 0.0
  {
    d.hargaBeli * (d.qty as real)
  }

  /** `Transaksi::detailTransaksi`: the lines of one order, in table order. */
  function LinesOf(idTransaksi: int, details: seq<Detail>): (r: seq<Detail>)
    ensures forall l :: l in r <==> l in details && l.idTransaksi == idTransaksi
    ensures |r| <= |details|
  {
    if details == [] then []
    else
      var rest := LinesOf(idTransaksi, details[..|details| - 1]);
      var l := details[|details| - 1];
      assert details == details[..|details| - 1] + [l];
      if l.idTransaksi == idTransaksi then rest + [l] else rest
  }

  /** Selecting the lines of an order distributes over appending rows to the table. */
  lemma {:induction false} LinesOfAppend(idTransaksi: int, a: seq<Detail>, b: seq<Detail>)
    ensures LinesOf(idTransaksi, a + b) == LinesOf(idTransaksi, a) + LinesOf(idTransaksi, b)
  {
    if b == [] {
      assert a + b == a;
    } else {
      var b' := b[..|b| - 1];
      assert (a + b)[..|a + b| - 1] == a + b';
      assert (a + b)[|a + b| - 1] == b[|b| - 1];
      LinesOfAppend(idTransaksi, a, b');
    }
  }

  /** The sum of `harga_beli * qty` over some lines. */
  function Total(lines: seq<Detail>): (r: real)
    ensures (forall k :: 0 <= k < |lines| ==> lines[k].hargaBeli >= 0.0 && lines[k].qty >= 0) ==> r >= 0.0
  {
    if lines == [] then 0.0
    else Total(lines[..|lines| - 1]) + Subtotal(lines[|lines| - 1])
  }

  /** The total of a concatenation is the sum of the totals. */
  lemma {:induction false} TotalAppend(a: seq<Detail>, b: seq<Detail>)
    ensures Total(a + b) == Total(a) + Total(b)
  {
    if b == [] {
      assert a + b == a;
    } else {
      var b' := b[..|b| - 1];
      assert (a + b)[..|a + b| - 1] == a + b';
      assert (a + b)[|a + b| - 1] == b[|b| - 1];
      TotalAppend(a, b');
    }
  }

  lemma TotalPrefix(lines: seq<Detail>, j: nat)
    requires j < |lines|
    ensures Total(lines[..j + 1]) == Total(lines[..j]) + Subtotal(lines[j])
  {
    assert lines[..j + 1][..j] == lines[..j];
  }

  /**
   * `Transaksi::getTotalAttribute`: accumulates `harga_beli * qty` over the
   * order's lines; 0 for an order without lines.
   */
  method TransaksiTotal(idTransaksi: int, details: seq<Detail>) returns (total: real)
    ensures total == Total(LinesOf(idTransaksi, details))
    ensures LinesOf(idTransaksi, details) == [] ==> total == 0.0
  {
    var lines := LinesOf(idTransaksi, details);
    total := 0.0;
    var i := 0;
    while i < |lines|
      invariant 0 <= i <= |lines|
      invariant total == Total(lines[..i])
    {
      TotalPrefix(lines, i);
      total := total + lines[i].hargaBeli * (lines[i].qty as real);
      i := i + 1;
    }
    assert lines[..|lines|] == lines;
  }

  // ------------------------------------------------------------ invoice number

  function DigitChar(d: nat): char
    requires d < 10
  {
    "0123456789"[d]
  }

  /** PHP's decimal rendering of a non-negative integer. */
  function Digits(n: nat): (s: string)
    ensures |s| >= 1
    ensures forall k :: 0 <= k < |s| ==> '0' <= s[k] <= '9'
  {
    if n < 10 then [DigitChar(n)] else Digits(n / 10) + [DigitChar(n % 10)]
  }

  function Repeat(c: char, k: nat): (r: string)
    ensures |r| == k && forall i :: 0 <= i < k ==> r[i] == c
  {
    if k == 0 then [] else [c] + Repeat(c, k - 1)
  }

  /** `str_pad($s, $width, $c, STR_PAD_LEFT)`: pads on the left, never truncates. */
  function PadLeft(s: string, width: nat, c: char): (r: string)
    ensures |r| == if |s| < width then width else |s|
    ensures r[|r| - |s|..] == s
    ensures forall i :: 0 <= i < |r| - |s| ==> r[i] == c
  {
    if |s| >= width then s else Repeat(c, width - |s|) + s
  }

  /**
   * `Transaksi::getInvoiceNumberAttribute`: 'INV-' and the id padded with
   * '0' to at least six characters; a longer id keeps all its digits.
   */
  function InvoiceNumber(id: nat): (r: string)
    ensures |r| >= 10 && r[..4] == "INV-"
    ensures |r| == 4 + (if |Digits(id)| < 6 then 6 else |Digits(id)|)
    ensures r[|r| - |Digits(id)|..] == Digits(id)
    ensures forall i :: 4 <= i < |r| - |Digits(id)| ==> r[i] == '0'
  {
    var padded := PadLeft(Digits(id), 6, '0');
    assert ("INV-" + padded)[4..] == padded;
    "INV-" + padded
  }

  /** Decimal value of a string of digits (the empty string reads as 0). */
  function ParseDecimal(s: string): nat {
    if s == [] then 0
    else
      var c := s[|s| - 1];
      ParseDecimal(s[..|s| - 1]) * 10 + (if '0' <= c <= '9' then (c as int) - ('0' as int) else 0)
  }

  /** Reads an invoice number back to the order id. */
  function ParseInvoice(s: string): Option<nat> {
    if |s| >= 4 && s[..4] == "INV-" then Some(ParseDecimal(s[4..])) else None
  }

  lemma {:induction false} ParseDigits(n: nat)
    ensures ParseDecimal(Digits(n)) == n
  {
    if n >= 10 {
      var s := Digits(n);
      assert s[..|s| - 1] == Digits(n / 10);
      ParseDigits(n / 10);
    }
  }

  lemma {:induction false} ParseIgnoresLeadingZeros(k: nat, s: string)
    ensures ParseDecimal(Repeat('0', k) + s) == ParseDecimal(s)
  {
    if s == [] {
      assert Repeat('0', k) + s == Repeat('0', k);
      ZerosParseToZero(k);
    } else {
      var t := Repeat('0', k) + s;
      assert t[..|t| - 1] == Repeat('0', k) + s[..|s| - 1];
      assert t[|t| - 1] == s[|s| - 1];
      ParseIgnoresLeadingZeros(k, s[..|s| - 1]);
    }
  }

  lemma {:induction false} ZerosParseToZero(k: nat)
    ensures ParseDecimal(Repeat('0', k)) == 0
  {
    if k > 0 {
      var z := Repeat('0', k);
      assert z[..|z| - 1] == Repeat('0', k - 1);
      ZerosParseToZero(k - 1);
    }
  }

  /** Every invoice number reads back to the id it was made from. */
  lemma InvoiceRoundTrip(id: nat)
    ensures ParseInvoice(InvoiceNumber(id)) == Some(id)
  {
    var ds := Digits(id);
    var r := InvoiceNumber(id);
    var zeros := |r| - 4 - |ds|;
    assert r[4..] == Repeat('0', zeros) + ds;
    ParseIgnoresLeadingZeros(zeros, ds);
    ParseDigits(id);
  }

  /** Drops the leading '0' characters of a string. */
  function StripLeadingZeros(s: string): (r: string)
    ensures |r| <= |s|
  {
    if s != [] && s[0] == '0' then StripLeadingZeros(s[1..]) else s
  }

  /** A positive id has no leading zero in its decimal form. */
  lemma {:induction false} DigitsHaveNoLeadingZero(n: nat)
    requires n >= 1
    ensures Digits(n)[0] != '0'
  {
    if n >= 10 {
      DigitsHaveNoLeadingZero(n / 10);
    }
  }

  lemma {:induction false} StripZerosPrefix(k: nat, s: string)
    requires s != [] && s[0] != '0'
    ensures StripLeadingZeros(Repeat('0', k) + s) == s
  {
    if k > 0 {
      assert (Repeat('0', k) + s)[1..] == Repeat('0', k - 1) + s;
      StripZerosPrefix(k - 1, s);
    }
  }

  /**
   * For id >= 1, removing 'INV-' and the padding zeros gives back exactly
   * the decimal digits of the id.
   */
  lemma InvoiceStripsToDigits(id: nat)
    requires id >= 1
    ensures StripLeadingZeros(InvoiceNumber(id)[4..]) == Digits(id)
  {
    var ds := Digits(id);
    var r := InvoiceNumber(id);
    var zeros := |r| - 4 - |ds|;
    assert r[4..] == Repeat('0', zeros) + ds;
    DigitsHaveNoLeadingZero(id);
    StripZerosPrefix(zeros, ds);
  }

  // ------------------------------------------------------------ status display

  /** `Transaksi::getStatusColorAttribute`. */
  function StatusColor(status: string): (c: string)
    ensures ValidStatus(status) <==> c != "secondary"
    ensures status == "belum dikonfirm" ==> c == "warning"
    ensures status == "dimasak" ==> c == "info"
    ensures status == "diantar" ==> c == "primary"
    ensures status == "sampai" ==> c == "success"
  {
    match status
    case "belum dikonfirm" => "warning"
    case "dimasak" => "info"
    case "diantar" => "primary"
    case "sampai" => "success"
    case _ => "secondary"
  }

  /** `Transaksi::getStatusLabelAttribute`. */
  function StatusLabel(status: string): (l: string)
    ensures ValidStatus(status) <==> l != "Unknown"
    ensures status == "belum dikonfirm" ==> l == "Menunggu Konfirmasi"
    ensures status == "dimasak" ==> l == "Sedang Dimasak"
    ensures status == "diantar" ==> l == "Sedang Diantar"
    ensures status == "sampai" ==> l == "Pesanan Sampai"
  {
    match status
    case "belum dikonfirm" => "Menunggu Konfirmasi"
    case "dimasak" => "Sedang Dimasak"
    case "diantar" => "Sedang Diantar"
    case "sampai" => "Pesanan Sampai"
    case _ => "Unknown"
  }

  /** The four statuses get four different labels and four different colours. */
  lemma StatusDisplayInjective(s: string, t: string)
    requires ValidStatus(s) && ValidStatus(t) && s != t
    ensures StatusLabel(s) != StatusLabel(t)
    ensures StatusColor(s) != StatusColor(t)
  {
  }

  /** `Transaksi::scopeStatus`. */
  function ScopeStatus(txs: map<int, Transaksi>, status: string): (r: map<int, Transaksi>)
    ensures forall id :: id in r <==> id in txs && txs[id].status == status
    ensures forall id :: id in r ==> r[id] == txs[id]
  {
    map id | id in txs && txs[id].status == status :: txs[id]
  }

  /**
   * When every stored status is one of the enum's values, the four status
   * scopes split the orders: each order is in exactly the scope of its own
   * status, and a status outside the enum selects nothing.
   */
  lemma StatusScopesPartition(txs: map<int, Transaksi>, s: string)
    requires forall id :: id in txs ==> ValidStatus(txs[id].status)
    ensures !ValidStatus(s) ==> ScopeStatus(txs, s) == map[]
    ensures forall id :: id in txs ==> (id in ScopeStatus(txs, s) <==> s == txs[id].status)
    ensures ScopeStatus(txs, StatusPending).Keys + ScopeStatus(txs, StatusCooking).Keys
            + ScopeStatus(txs, StatusDelivering).Keys + ScopeStatus(txs, StatusDelivered).Keys == txs.Keys
  {
    if !ValidStatus(s) {
      forall id | id in txs
        ensures id !in ScopeStatus(txs, s)
      {
        assert ValidStatus(txs[id].status);
      }
      assert ScopeStatus(txs, s).Keys == {};
    }
    var all := ScopeStatus(txs, StatusPending).Keys + ScopeStatus(txs, StatusCooking).Keys
               + ScopeStatus(txs, StatusDelivering).Keys + ScopeStatus(txs, StatusDelivered).Keys;
    forall id | id in txs
      ensures id in all
    {
      assert id in ScopeStatus(txs, txs[id].status);
    }
    assert all <= txs.Keys;
  }

  /** `Transaksi::scopeByMonth`. */
  function ScopeByMonth(txs: map<int, Transaksi>, month: int, year: int): (r: map<int, Transaksi>)
    ensures forall id :: id in r <==> id in txs && txs[id].tanggal.month == month && txs[id].tanggal.year == year
    ensures forall id :: id in r ==> r[id] == txs[id]
  {
    map id | id in txs && InMonth(txs[id].tanggal, month, year) :: txs[id]
  }
}
