/**
 * The database tables the mutating handlers write, the integrity the
 * migrations' foreign keys and the validation rules keep, and one state
 * transformer per write (insert, update, delete with its cascades).
 */
module Schema {
  import opened Wrappers
  import opened Calendar
  import opened Catalog
  import opened Orders
  import opened Requests

  /** A row of the `stan` table. */
  datatype Stan = Stan(namaStan: string, namaPemilik: string, telp: string, idUser: int)

  /**
   * The tables `stan`, `menu`, `diskon`, `menu_diskon`, `transaksi` and
   * `detail_transaksi`, with the next auto-increment id of each table whose
   * rows the handlers create.
   */
  datatype Tables = Tables(stans: map<int, Stan>, menus: map<int, Menu>, diskons: map<int, Diskon>,
                           links: seq<Link>, transaksis: map<int, Transaksi>, details: seq<Detail>,
                           nextMenuId: int, nextDiskonId: int, nextTransaksiId: int)

  // ------------------------------------------------------------ integrity

  /** Every key was handed out by the auto-increment counter. */
  predicate IdsBelow<V>(m: map<int, V>, next: int) {
    1 <= next && forall id :: id in m ==> 1 <= id < next
  }

  /** A menu row as the validation rules admit it. */
  predicate MenuRowValid(m: Menu) {
    ValidJenis(m.jenis) && m.harga >= 0.0
  }

  /** `menu_diskon` rows reference an existing menu and discount (cascading foreign keys). */
  predicate LinksValid(links: seq<Link>, menus: map<int, Menu>, diskons: map<int, Diskon>) {
    forall l :: l in links ==> l.idMenu in menus && l.idDiskon in diskons
  }

  /** `detail_transaksi` rows reference an existing order and menu, with a positive quantity and a non-negative price. */
  predicate DetailsValid(details: seq<Detail>, transaksis: map<int, Transaksi>, menus: map<int, Menu>) {
    forall l :: l in details ==> l.idTransaksi in transaksis && l.idMenu in menus && l.qty >= 1 && l.hargaBeli >= 0.0
  }

  /**
   * The foreign keys `menu.id_stan`, `diskon.id_stan`, `transaksi.id_stan`,
   * `menu_diskon` and `detail_transaksi`, the unique auto-increment ids, and
   * the value ranges the validation rules admit.
   */
  predicate TablesValid(t: Tables) {
    IdsBelow(t.menus, t.nextMenuId) && IdsBelow(t.diskons, t.nextDiskonId) && IdsBelow(t.transaksis, t.nextTransaksiId)
    && (forall id :: id in t.menus ==> MenuRowValid(t.menus[id]))
    && PercentagesInRange(t.diskons)
    && (forall id :: id in t.menus ==> t.menus[id].idStan in t.stans)
    && (forall id :: id in t.diskons ==> t.diskons[id].idStan in t.stans)
    && (forall id :: id in t.transaksis ==> ValidStatus(t.transaksis[id].status) && t.transaksis[id].idStan in t.stans)
    && LinksValid(t.links, t.menus, t.diskons)
    && DetailsValid(t.details, t.transaksis, t.menus)
  }

  // ------------------------------------------------------------ deleting rows

  /** The rows a `where(...)->delete()` leaves, in their order. */
  function Filter<T(!new)>(s: seq<T>, keep: T -> bool): (r: seq<T>)
    ensures forall x :: x in r <==> x in s && keep(x)
    ensures |r| <= |s|
    ensures |r| == |s| <==> forall x :: x in s ==> keep(x)
    ensures (forall x :: x in s ==> keep(x)) ==> r == s
  {
    if s == [] then []
    else
      var init := s[..|s| - 1];
      var last := s[|s| - 1];
      assert s == init + [last];
      assert forall x :: x in s <==> x in init || x == last;
      Filter(init, keep) + (if keep(last) then [last] else [])
  }

  lemma {:induction false} FilterAppend<T(!new)>(a: seq<T>, b: seq<T>, keep: T -> bool)
    ensures Filter(a + b, keep) == Filter(a, keep) + Filter(b, keep)
  {
    if b == [] {
      assert a + b == a;
    } else {
      var b', last := b[..|b| - 1], b[|b| - 1];
      var tail := if keep(last) then [last] else [];
      assert (a + b)[..|a + b| - 1] == a + b';
      assert (a + b)[|a + b| - 1] == last;
      assert Filter(a + b, keep) == Filter(a + b', keep) + tail;
      assert Filter(b, keep) == Filter(b', keep) + tail;
      FilterAppend(a, b', keep);
    }
  }

  /** Deleting rows first and selecting an order's lines afterwards is selecting, then deleting. */
  lemma {:induction false} LinesOfFilter(idTransaksi: int, details: seq<Detail>, keep: Detail -> bool)
    ensures LinesOf(idTransaksi, Filter(details, keep)) == Filter(LinesOf(idTransaksi, details), keep)
  {
    if details != [] {
      var init := details[..|details| - 1];
      var last := details[|details| - 1];
      LinesOfFilter(idTransaksi, init, keep);
      LinesOfAppend(idTransaksi, Filter(init, keep), if keep(last) then [last] else []);
      FilterAppend(LinesOf(idTransaksi, init), if last.idTransaksi == idTransaksi then [last] else [], keep);
    }
  }

  /** Dropping lines with non-negative subtotals never raises an order's total. */
  lemma {:induction false} FilterLowersTotal(lines: seq<Detail>, keep: Detail -> bool)
    requires forall k :: 0 <= k < |lines| ==> lines[k].hargaBeli >= 0.0 && lines[k].qty >= 0
    ensures Total(Filter(lines, keep)) <= Total(lines)
  {
    if lines != [] {
      var init := lines[..|lines| - 1];
      var last := lines[|lines| - 1];
      FilterLowersTotal(init, keep);
      TotalAppend(Filter(init, keep), if keep(last) then [last] else []);
      assert Total([last]) == Subtotal(last) + Total([]);
      assert Subtotal(last) >= 0.0;
    }
  }

  // ------------------------------------------------------------ menu

  function InsertMenu(t: Tables, m: Menu): Tables {
    t.(menus := t.menus[t.nextMenuId := m], nextMenuId := t.nextMenuId + 1)
  }

  /** The new row gets an id no existing row has, and the tables stay valid. */
  lemma InsertMenuKeepsValid(t: Tables, m: Menu)
    requires TablesValid(t) && MenuRowValid(m) && m.idStan in t.stans
    ensures t.nextMenuId !in t.menus
    ensures TablesValid(InsertMenu(t, m)) && InsertMenu(t, m).menus.Keys == t.menus.Keys + {t.nextMenuId}
  {
  }

  function ReplaceMenu(t: Tables, id: int, m: Menu): Tables {
    t.(menus := t.menus[id := m])
  }

  lemma ReplaceMenuKeepsValid(t: Tables, id: int, m: Menu)
    requires TablesValid(t) && id in t.menus && MenuRowValid(m) && m.idStan in t.stans
    ensures TablesValid(ReplaceMenu(t, id, m)) && ReplaceMenu(t, id, m).menus.Keys == t.menus.Keys
  {
  }

  /** `$menu->delete()`, with the cascades of `menu_diskon` and `detail_transaksi`. */
  function DeleteMenu(t: Tables, id: int): Tables {
    t.(menus := t.menus - {id},
       links := Filter(t.links, (l: Link) => l.idMenu != id),
       details := Filter(t.details, (l: Detail) => l.idMenu != id))
  }

  /** After the delete nothing refers to the menu and the tables stay valid. */
  lemma {:induction false} DeleteMenuKeepsValid(t: Tables, id: int)
    requires TablesValid(t)
    ensures TablesValid(DeleteMenu(t, id))
    ensures id !in DeleteMenu(t, id).menus
    ensures forall l :: l in DeleteMenu(t, id).links ==> l.idMenu != id
    ensures forall l :: l in DeleteMenu(t, id).details ==> l.idMenu != id
  {
    var t' := DeleteMenu(t, id);
    assert LinksValid(t'.links, t'.menus, t'.diskons);
    assert DetailsValid(t'.details, t'.transaksis, t'.menus);
  }

  /**
   * Every order keeps exactly its lines of the other menus, so deleting a
   * menu can only lower the totals of past orders.
   */
  lemma {:induction false} DeleteMenuDropsLines(t: Tables, id: int, idTransaksi: int)
    requires TablesValid(t)
    ensures LinesOf(idTransaksi, DeleteMenu(t, id).details)
         == Filter(LinesOf(idTransaksi, t.details), (l: Detail) => l.idMenu != id)
    ensures Total(LinesOf(idTransaksi, DeleteMenu(t, id).details)) <= Total(LinesOf(idTransaksi, t.details))
  {
    var keep := (l: Detail) => l.idMenu != id;
    LinesOfFilter(idTransaksi, t.details, keep);
    var lines := LinesOf(idTransaksi, t.details);
    forall k | 0 <= k < |lines| ensures lines[k].hargaBeli >= 0.0 && lines[k].qty >= 0 {
      assert lines[k] in lines;
    }
    FilterLowersTotal(lines, keep);
  }

  // ------------------------------------------------------------ diskon

  /**
   * The `menu_diskon` rows the store loop creates: one per listed id whose
   * menu belongs to the stan, in list order.
   */
  function LinksFor(idDiskon: int, menuIds: seq<int>, menus: map<int, Menu>, idStan: int): seq<Link> {
    if menuIds == [] then []
    else
      var m := menuIds[|menuIds| - 1];
      LinksFor(idDiskon, menuIds[..|menuIds| - 1], menus, idStan)
      + (if m in menus && menus[m].idStan == idStan then [Link(m, idDiskon)] else [])
  }

  /** The links created are exactly those from the new discount to listed menus of its stan. */
  lemma {:induction false} LinksForMembers(idDiskon: int, menuIds: seq<int>, menus: map<int, Menu>, idStan: int)
    ensures forall l :: l in LinksFor(idDiskon, menuIds, menus, idStan) <==>
      l.idDiskon == idDiskon && l.idMenu in menuIds && l.idMenu in menus && menus[l.idMenu].idStan == idStan
  {
    if menuIds != [] {
      var init, m := menuIds[..|menuIds| - 1], menuIds[|menuIds| - 1];
      assert menuIds == init + [m];
      LinksForMembers(idDiskon, init, menus, idStan);
    }
  }

  /** A menu of the stan listed n times is linked n times; menus of other stans are not linked. */
  lemma {:induction false} LinksForCounts(idDiskon: int, menuIds: seq<int>, menus: map<int, Menu>, idStan: int, m: int)
    ensures multiset(LinksFor(idDiskon, menuIds, menus, idStan))[Link(m, idDiskon)]
         == if m in menus && menus[m].idStan == idStan then multiset(menuIds)[m] else 0
  {
    if menuIds != [] {
      var init, last := menuIds[..|menuIds| - 1], menuIds[|menuIds| - 1];
      assert menuIds == init + [last];
      LinksForCounts(idDiskon, init, menus, idStan, m);
    }
  }

  lemma LinksForPrefix(idDiskon: int, menuIds: seq<int>, menus: map<int, Menu>, idStan: int, j: nat)
    requires j < |menuIds|
    ensures LinksFor(idDiskon, menuIds[..j + 1], menus, idStan)
         == LinksFor(idDiskon, menuIds[..j], menus, idStan)
          + (if menuIds[j] in menus && menus[menuIds[j]].idStan == idStan then [Link(menuIds[j], idDiskon)] else [])
  {
    assert menuIds[..j + 1][..j] == menuIds[..j];
  }

  function InsertDiskon(t: Tables, d: Diskon, menuIds: seq<int>): Tables {
    t.(diskons := t.diskons[t.nextDiskonId := d],
       links := t.links + LinksFor(t.nextDiskonId, menuIds, t.menus, d.idStan),
       nextDiskonId := t.nextDiskonId + 1)
  }

  /** A fresh id, and only links from the new discount to menus of its own stan are added. */
  lemma InsertDiskonKeepsValid(t: Tables, d: Diskon, menuIds: seq<int>)
    requires TablesValid(t) && 0.0 <= d.persentase <= 100.0 && d.idStan in t.stans
    ensures t.nextDiskonId !in t.diskons
    ensures TablesValid(InsertDiskon(t, d, menuIds))
    ensures forall l :: l in InsertDiskon(t, d, menuIds).links && l !in t.links ==>
      l.idDiskon == t.nextDiskonId && t.menus[l.idMenu].idStan == d.idStan
  {
    LinksForMembers(t.nextDiskonId, menuIds, t.menus, d.idStan);
  }

  function ReplaceDiskon(t: Tables, id: int, d: Diskon): Tables {
    t.(diskons := t.diskons[id := d])
  }

  lemma ReplaceDiskonKeepsValid(t: Tables, id: int, d: Diskon)
    requires TablesValid(t) && id in t.diskons && 0.0 <= d.persentase <= 100.0 && d.idStan in t.stans
    ensures TablesValid(ReplaceDiskon(t, id, d)) && ReplaceDiskon(t, id, d).diskons.Keys == t.diskons.Keys
  {
  }

  /** `$diskon->delete()`, with the cascade of `menu_diskon`. */
  function DeleteDiskon(t: Tables, id: int): Tables {
    t.(diskons := t.diskons - {id}, links := Filter(t.links, (l: Link) => l.idDiskon != id))
  }

  /** After the delete no link refers to the discount, and the other links are kept. */
  lemma DeleteDiskonKeepsValid(t: Tables, id: int)
    requires TablesValid(t)
    ensures TablesValid(DeleteDiskon(t, id))
    ensures forall l :: l in DeleteDiskon(t, id).links <==> l in t.links && l.idDiskon != id
  {
  }

  /** `MenuDiskon::create` for one pair. */
  function AttachLink(t: Tables, idMenu: int, idDiskon: int): Tables {
    t.(links := t.links + [Link(idMenu, idDiskon)])
  }

  /** `MenuDiskon::where(...)->where(...)->delete()` for one pair. */
  function DetachLinks(t: Tables, idMenu: int, idDiskon: int): Tables {
    t.(links := Filter(t.links, (l: Link) => l != Link(idMenu, idDiskon)))
  }

  /** The number of rows `detachMenu`'s delete reports. */
  function DeletedCount(links: seq<Link>, idMenu: int, idDiskon: int): (n: nat)
    ensures n == 0 <==> Link(idMenu, idDiskon) !in links
  {
    |links| - |Filter(links, (l: Link) => l != Link(idMenu, idDiskon))|
  }

  lemma AttachKeepsValid(t: Tables, idMenu: int, idDiskon: int)
    requires TablesValid(t) && idMenu in t.menus && idDiskon in t.diskons
    ensures TablesValid(AttachLink(t, idMenu, idDiskon))
  {
  }

  lemma DetachKeepsValid(t: Tables, idMenu: int, idDiskon: int)
    requires TablesValid(t)
    ensures TablesValid(DetachLinks(t, idMenu, idDiskon))
    ensures Link(idMenu, idDiskon) !in DetachLinks(t, idMenu, idDiskon).links
  {
  }

  /** Attaching a pair that was not attached and detaching it again restores the tables. */
  lemma AttachThenDetachRestores(t: Tables, idMenu: int, idDiskon: int)
    requires Link(idMenu, idDiskon) !in t.links
    ensures DetachLinks(AttachLink(t, idMenu, idDiskon), idMenu, idDiskon) == t
  {
    var keep := (l: Link) => l != Link(idMenu, idDiskon);
    FilterAppend(t.links, [Link(idMenu, idDiskon)], keep);
    assert Filter([Link(idMenu, idDiskon)], keep) == [];
  }

  /**
   * Editing the catalog (menu rows, discounts, links) never changes a stored
   * order line, so no order total moves: lines carry their own `harga_beli`.
   */
  lemma CatalogEditsKeepOrderTotals(t: Tables, idTransaksi: int, id: int, m: Menu, d: Diskon, idMenu: int, idDiskon: int)
    ensures ReplaceMenu(t, id, m).details == t.details
    ensures ReplaceDiskon(t, id, d).details == t.details && DeleteDiskon(t, id).details == t.details
    ensures AttachLink(t, idMenu, idDiskon).details == t.details && DetachLinks(t, idMenu, idDiskon).details == t.details
    ensures Total(LinesOf(idTransaksi, ReplaceMenu(t, id, m).details)) == Total(LinesOf(idTransaksi, t.details))
  {
  }

  // ------------------------------------------------------------ orders

  /** The `detail_transaksi` row stored for one item, priced at the time of the order. */
  function OrderLine(idTransaksi: int, item: OrderItem, menus: map<int, Menu>, links: seq<Link>,
                     diskons: map<int, Diskon>, now: Stamp): (l: Detail)
    requires item.idMenu in menus
    ensures l.idTransaksi == idTransaksi && l.idMenu == item.idMenu && l.qty == item.qty
    ensures PercentagesInRange(diskons) && menus[item.idMenu].harga >= 0.0 ==>
      0.0 <= l.hargaBeli <= menus[item.idMenu].harga
  {
    Detail(idTransaksi, item.idMenu, item.qty, FirstActivePrice(item.idMenu, menus[item.idMenu], links, diskons, now))
  }

  /** One line per item, in the order of the request. */
  function OrderLines(idTransaksi: int, items: seq<OrderItem>, menus: map<int, Menu>, links: seq<Link>,
                      diskons: map<int, Diskon>, now: Stamp): (r: seq<Detail>)
    requires forall k :: 0 <= k < |items| ==> items[k].idMenu in menus
    ensures |r| == |items|
    ensures forall k :: 0 <= k < |items| ==> r[k] == OrderLine(idTransaksi, items[k], menus, links, diskons, now)
  {
    if items == [] then []
    else
      OrderLines(idTransaksi, items[..|items| - 1], menus, links, diskons, now)
      + [OrderLine(idTransaksi, items[|items| - 1], menus, links, diskons, now)]
  }

  lemma OrderLinesPrefix(idTransaksi: int, items: seq<OrderItem>, menus: map<int, Menu>, links: seq<Link>,
                         diskons: map<int, Diskon>, now: Stamp, j: nat)
    requires forall k :: 0 <= k < |items| ==> items[k].idMenu in menus
    requires j < |items|
    ensures OrderLines(idTransaksi, items[..j + 1], menus, links, diskons, now)
         == OrderLines(idTransaksi, items[..j], menus, links, diskons, now)
          + [OrderLine(idTransaksi, items[j], menus, links, diskons, now)]
  {
    assert items[..j + 1][..j] == items[..j];
  }

  /** What one item would cost at its menu's list price. */
  function ListPrice(item: OrderItem, menus: map<int, Menu>): real
    requires item.idMenu in menus
  {
    menus[item.idMenu].harga * (item.qty as real)
  }

  /** What the order would cost at the menus' list prices. */
  function ListTotal(items: seq<OrderItem>, menus: map<int, Menu>): real
    requires forall k :: 0 <= k < |items| ==> items[k].idMenu in menus
  {
    if items == [] then 0.0
    else ListTotal(items[..|items| - 1], menus) + ListPrice(items[|items| - 1], menus)
  }

  /** With percentages in range, an order never costs more than its list price. */
  lemma {:induction false} OrderTotalAtMostListTotal(idTransaksi: int, items: seq<OrderItem>, menus: map<int, Menu>,
                                                     links: seq<Link>, diskons: map<int, Diskon>, now: Stamp)
    requires forall k :: 0 <= k < |items| ==> items[k].idMenu in menus && items[k].qty >= 0
    requires forall id :: id in menus ==> menus[id].harga >= 0.0
    requires PercentagesInRange(diskons)
    ensures 0.0 <= Total(OrderLines(idTransaksi, items, menus, links, diskons, now)) <= ListTotal(items, menus)
  {
    if items != [] {
      var init, last := items[..|items| - 1], items[|items| - 1];
      var before := OrderLines(idTransaksi, init, menus, links, diskons, now);
      var l := OrderLine(idTransaksi, last, menus, links, diskons, now);
      assert OrderLines(idTransaksi, items, menus, links, diskons, now) == before + [l];
      OrderTotalAtMostListTotal(idTransaksi, init, menus, links, diskons, now);
      TotalAppend(before, [l]);
      TotalSingle(l);
      LineAtMostListPrice(l, last, menus);
    }
  }

  lemma TotalSingle(l: Detail)
    ensures Total([l]) == Subtotal(l)
  {
    assert [l][..0] == [];
  }

  lemma LineAtMostListPrice(l: Detail, item: OrderItem, menus: map<int, Menu>)
    requires item.idMenu in menus && l.qty == item.qty >= 0 && l.hargaBeli <= menus[item.idMenu].harga
    ensures Subtotal(l) <= ListPrice(item, menus)
  {
    var q, x, y := item.qty as real, l.hargaBeli, menus[item.idMenu].harga;
    assert y * q - x * q == (y - x) * q;
  }

  /** The `transaksi` row and the `detail_transaksi` rows of a committed order. */
  function InsertOrder(t: Tables, idStan: int, idSiswa: int, items: seq<OrderItem>, now: Stamp): Tables
    requires forall k :: 0 <= k < |items| ==> items[k].idMenu in t.menus
  {
    t.(transaksis := t.transaksis[t.nextTransaksiId := Transaksi(now, idStan, idSiswa, StatusPending)],
       details := t.details + OrderLines(t.nextTransaksiId, items, t.menus, t.links, t.diskons, now),
       nextTransaksiId := t.nextTransaksiId + 1)
  }

  /** A committed order gets a fresh id and is pending; the tables stay valid. */
  lemma {:induction false} InsertOrderKeepsValid(t: Tables, idStan: int, idSiswa: int, items: seq<OrderItem>, now: Stamp)
    requires TablesValid(t) && OrderValid(Some(idStan), items, t.stans.Keys, t.menus)
    ensures t.nextTransaksiId !in t.transaksis
    ensures TablesValid(InsertOrder(t, idStan, idSiswa, items, now))
    ensures InsertOrder(t, idStan, idSiswa, items, now).transaksis[t.nextTransaksiId].status == StatusPending
  {
    var id := t.nextTransaksiId;
    var lines := OrderLines(id, items, t.menus, t.links, t.diskons, now);
    OrderLinesShape(t, items, now);
    var t' := InsertOrder(t, idStan, idSiswa, items, now);
    assert t'.details == t.details + lines;
    assert DetailsValid(t'.details, t'.transaksis, t'.menus);
  }

  lemma OrderLinesShape(t: Tables, items: seq<OrderItem>, now: Stamp)
    requires TablesValid(t) && OrderValid(Some(0), items, {0}, t.menus)
    ensures forall l :: l in OrderLines(t.nextTransaksiId, items, t.menus, t.links, t.diskons, now) ==>
      l.idTransaksi == t.nextTransaksiId && l.idMenu in t.menus && l.qty >= 1 && l.hargaBeli >= 0.0
  {
    var lines := OrderLines(t.nextTransaksiId, items, t.menus, t.links, t.diskons, now);
    forall l | l in lines
      ensures l.idTransaksi == t.nextTransaksiId && l.idMenu in t.menus && l.qty >= 1 && l.hargaBeli >= 0.0
    {
      var k :| 0 <= k < |lines| && lines[k] == l;
      assert l == OrderLine(t.nextTransaksiId, items[k], t.menus, t.links, t.diskons, now);
    }
  }

  /** The lines of a committed order are exactly one line per item of the request, in order. */
  lemma {:induction false} InsertOrderLines(t: Tables, idStan: int, idSiswa: int, items: seq<OrderItem>, now: Stamp)
    requires TablesValid(t) && OrderValid(Some(idStan), items, t.stans.Keys, t.menus)
    ensures LinesOf(t.nextTransaksiId, InsertOrder(t, idStan, idSiswa, items, now).details)
         == OrderLines(t.nextTransaksiId, items, t.menus, t.links, t.diskons, now)
  {
    var id := t.nextTransaksiId;
    var lines := OrderLines(id, items, t.menus, t.links, t.diskons, now);
    OrderLinesShape(t, items, now);
    assert OrderValid(Some(0), items, {0}, t.menus);
    LinesOfAppend(id, t.details, lines);
    NoLinesOfFreshId(id, t.details);
    AllLinesOf(id, lines);
  }

  lemma {:induction false} NoLinesOfFreshId(id: int, details: seq<Detail>)
    requires forall l :: l in details ==> l.idTransaksi != id
    ensures LinesOf(id, details) == []
  {
    if details != [] {
      assert details[|details| - 1] in details;
      assert forall l :: l in details[..|details| - 1] ==> l in details;
      NoLinesOfFreshId(id, details[..|details| - 1]);
    }
  }

  lemma {:induction false} AllLinesOf(id: int, lines: seq<Detail>)
    requires forall l :: l in lines ==> l.idTransaksi == id
    ensures LinesOf(id, lines) == lines
  {
    if lines != [] {
      assert lines[|lines| - 1] in lines;
      assert forall l :: l in lines[..|lines| - 1] ==> l in lines;
      AllLinesOf(id, lines[..|lines| - 1]);
      assert lines == lines[..|lines| - 1] + [lines[|lines| - 1]];
    }
  }

  function SetStatus(t: Tables, id: int, status: string): Tables
    requires id in t.transaksis
  {
    t.(transaksis := t.transaksis[id := t.transaksis[id].(status := status)])
  }

  /** Any listed status may replace any other; the order's lines stay as they are. */
  lemma SetStatusKeepsValid(t: Tables, id: int, status: string)
    requires TablesValid(t) && id in t.transaksis && ValidStatus(status)
    ensures TablesValid(SetStatus(t, id, status))
    ensures LinesOf(id, SetStatus(t, id, status).details) == LinesOf(id, t.details)
  {
  }

  /** The updated order leaves the scope of every other status and joins the scope of its new one. */
  lemma SetStatusMovesScope(t: Tables, id: int, status: string, s: string)
    requires id in t.transaksis
    ensures ScopeStatus(SetStatus(t, id, status).transaksis, s).Keys ==
      if s == status then ScopeStatus(t.transaksis, s).Keys + {id} else ScopeStatus(t.transaksis, s).Keys - {id}
  {
  }

  // ------------------------------------------------------------ stan

  /** The profile fields present in the request are assigned; the owner never changes. */
  function ApplyStanPatch(s: Stan, p: StanPatch): (r: Stan)
    ensures r.namaStan == p.namaStan.GetOr(s.namaStan)
    ensures r.namaPemilik == p.namaPemilik.GetOr(s.namaPemilik)
    ensures r.telp == p.telp.GetOr(s.telp)
    ensures r.idUser == s.idUser
  {
    var s1 := if p.namaStan.Some? then s.(namaStan := p.namaStan.value) else s;
    var s2 := if p.namaPemilik.Some? then s1.(namaPemilik := p.namaPemilik.value) else s1;
    if p.telp.Some? then s2.(telp := p.telp.value) else s2
  }

  function ReplaceStan(t: Tables, id: int, s: Stan): Tables {
    t.(stans := t.stans[id := s])
  }

  lemma ReplaceStanKeepsValid(t: Tables, id: int, s: Stan)
    requires TablesValid(t) && id in t.stans
    ensures TablesValid(ReplaceStan(t, id, s)) && ReplaceStan(t, id, s).stans.Keys == t.stans.Keys
  {
  }
}
