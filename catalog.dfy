/**
 * The catalog: menu items, time-bounded percentage discounts and the
 * `menu_diskon` link table (app/Models/Menu.php, app/Models/Diskon.php,
 * app/Models/Stan.php), and the pricing rules built on them.
 */
module Catalog {
  import opened Wrappers
  import opened Calendar

  const Makanan: string := "makanan"
  const Minuman: string := "minuman"

  /** The `jenis` column is an enum of these two values. */
  predicate ValidJenis(j: string) {
    j == Makanan || j == Minuman
  }

  datatype Menu = Menu(nama: string, harga: real, jenis: string,
                       foto: Option<string>, deskripsi: Option<string>, idStan: int)

  datatype Diskon = Diskon(nama: string, persentase: real, awal: Stamp, akhir: Stamp, idStan: int)

  /** One row of `menu_diskon`. */
  datatype Link = Link(idMenu: int, idDiskon: int)

  /** Every stored percentage passed the `min:0|max:100` validation. */
  predicate PercentagesInRange(diskons: map<int, Diskon>) {
    forall id :: id in diskons ==> 0.0 <= diskons[id].persentase <= 100.0
  }

  lemma PercentageInRange(diskons: map<int, Diskon>, id: int)
    ensures PercentagesInRange(diskons) && id in diskons ==> 0.0 <= diskons[id].persentase <= 100.0
  {
  }

  // ---------------------------------------------------------------- Diskon

  /** `Diskon::isActive`: `now` lies in [tanggal_awal, tanggal_akhir], both ends included. */
  predicate IsActive(d: Diskon, now: Stamp) {
    Le(d.awal, now) && Le(now, d.akhir)
  }

  /** `Diskon::getStatusTextAttribute`. */
  function StatusText(d: Diskon, now: Stamp): (s: string)
    ensures s == "Aktif" <==> IsActive(d, now)
    ensures s == "Akan Datang" <==> !IsActive(d, now) && Lt(now, d.awal)
    ensures s == "Kedaluwarsa" <==> !IsActive(d, now) && !Lt(now, d.awal)
  {
    if IsActive(d, now) then "Aktif"
    else if Lt(now, d.awal) then "Akan Datang"
    else "Kedaluwarsa"
  }

  /** `Diskon::scopeActive`: `tanggal_awal <= now` and `tanggal_akhir >= now`. */
  function ScopeActive(diskons: map<int, Diskon>, now: Stamp): (r: map<int, Diskon>)
    ensures forall id :: id in r <==> id in diskons && IsActive(diskons[id], now)
    ensures forall id :: id in r ==> r[id] == diskons[id]
  {
    map id | id in diskons && Le(diskons[id].awal, now) && Le(now, diskons[id].akhir) :: diskons[id]
  }

  /** `Diskon::scopeUpcoming`: `tanggal_awal > now`. */
  function ScopeUpcoming(diskons: map<int, Diskon>, now: Stamp): (r: map<int, Diskon>)
    ensures forall id :: id in r <==> id in diskons && !Le(diskons[id].awal, now)
    ensures forall id :: id in r ==> r[id] == diskons[id]
  {
    map id | id in diskons && Lt(now, diskons[id].awal) :: diskons[id]
  }

  /** `Diskon::scopeExpired`: `tanggal_akhir < now`. */
  function ScopeExpired(diskons: map<int, Diskon>, now: Stamp): (r: map<int, Diskon>)
    ensures forall id :: id in r <==> id in diskons && !Le(now, diskons[id].akhir)
    ensures forall id :: id in r ==> r[id] == diskons[id]
  {
    map id | id in diskons && Lt(diskons[id].akhir, now) :: diskons[id]
  }

  /**
   * For a discount whose window is not inverted, the three scopes split
   * the table: each discount is in exactly one of them.
   */
  lemma ScopesPartition(diskons: map<int, Diskon>, id: int, now: Stamp)
    requires id in diskons && Le(diskons[id].awal, diskons[id].akhir)
    ensures id in ScopeActive(diskons, now) || id in ScopeUpcoming(diskons, now) || id in ScopeExpired(diskons, now)
    ensures !(id in ScopeActive(diskons, now) && id in ScopeUpcoming(diskons, now))
    ensures !(id in ScopeActive(diskons, now) && id in ScopeExpired(diskons, now))
    ensures !(id in ScopeUpcoming(diskons, now) && id in ScopeExpired(diskons, now))
  {
    var d := diskons[id];
    LeTotal(d.awal, now);
    LeTotal(now, d.akhir);
    if !Le(d.awal, now) && !Le(now, d.akhir) {
      LeTransitive(d.akhir, now, d.awal);
      LeAntisymmetric(d.awal, d.akhir);
    }
  }

  /**
   * The status text agrees with the scopes: 'Aktif' exactly for the active
   * scope, 'Akan Datang' for the upcoming one, 'Kedaluwarsa' for the expired one.
   */
  lemma StatusTextMatchesScopes(diskons: map<int, Diskon>, id: int, now: Stamp)
    requires id in diskons && Le(diskons[id].awal, diskons[id].akhir)
    ensures StatusText(diskons[id], now) == "Aktif" <==> id in ScopeActive(diskons, now)
    ensures StatusText(diskons[id], now) == "Akan Datang" <==> id in ScopeUpcoming(diskons, now)
    ensures StatusText(diskons[id], now) == "Kedaluwarsa" <==> id in ScopeExpired(diskons, now)
  {
    var d := diskons[id];
    LtIsNotLe(now, d.awal);
    ScopesPartition(diskons, id, now);
  }

  /**
   * `Stan::activeDiskon`: the stan's own discounts whose window contains `now`.
   */
  function StanActiveDiskon(stanId: int, diskons: map<int, Diskon>, now: Stamp): (r: map<int, Diskon>)
    ensures forall id :: id in r <==> id in diskons && diskons[id].idStan == stanId && IsActive(diskons[id], now)
    ensures forall id :: id in r ==> r[id] == diskons[id]
  {
    map id | id in diskons && diskons[id].idStan == stanId
               && Le(diskons[id].awal, now) && Le(now, diskons[id].akhir) :: diskons[id]
  }

  // ---------------------------------------------------------------- Menu

  /**
   * `Menu::activeDiskon`: the discounts reached through `menu_diskon` whose
   * window contains `now`, in link-table order (a pair linked twice appears twice).
   */
  function ActiveDiskonIds(menuId: int, links: seq<Link>, diskons: map<int, Diskon>, now: Stamp): (r: seq<int>)
    ensures forall d :: d in r <==> Link(menuId, d) in links && d in diskons && IsActive(diskons[d], now)
    ensures forall k :: 0 <= k < |r| ==> r[k] in diskons
    ensures |r| <= |links|
  {
    if links == [] then []
    else
      var rest := ActiveDiskonIds(menuId, links[..|links| - 1], diskons, now);
      var l := links[|links| - 1];
      assert links == links[..|links| - 1] + [l];
      if l.idMenu == menuId && l.idDiskon in diskons && IsActive(diskons[l.idDiskon], now)
      then rest + [l.idDiskon]
      else rest
  }

  /** A discount carrying the largest percentage among `ids` (the `max` of the collection). */
  function MaxDiskonId(ids: seq<int>, diskons: map<int, Diskon>): (d: int)
    requires |ids| > 0 && forall k :: 0 <= k < |ids| ==> ids[k] in diskons
    ensures d in ids && d in diskons
    ensures forall e :: e in ids ==> diskons[e].persentase <= diskons[d].persentase
  {
    if |ids| == 1 then ids[0]
    else
      var d' := MaxDiskonId(ids[1..], diskons);
      assert forall e :: e in ids ==> e == ids[0] || e in ids[1..];
      if diskons[ids[0]].persentase >= diskons[d'].persentase then ids[0] else d'
  }

  /**
   * `Menu::getActiveDiskonPercentageAttribute`: 0 without an active
   * discount, otherwise the largest active percentage (never a sum).
   */
  function ActivePercentage(menuId: int, links: seq<Link>, diskons: map<int, Diskon>, now: Stamp): (p: real)
    ensures ActiveDiskonIds(menuId, links, diskons, now) == [] ==> p == 0.0
    ensures ActiveDiskonIds(menuId, links, diskons, now) != [] ==>
              (exists d :: d in ActiveDiskonIds(menuId, links, diskons, now) && p == diskons[d].persentase)
    ensures forall d :: d in ActiveDiskonIds(menuId, links, diskons, now) ==> diskons[d].persentase <= p
  {
    var ids := ActiveDiskonIds(menuId, links, diskons, now);
    if ids == [] then 0.0 else diskons[MaxDiskonId(ids, diskons)].persentase
  }

  /** The price formula `harga * (1 - p/100)`, with no rounding. */
  function ApplyPercentage(harga: real, p: real): real {
    harga * (1.0 - p / 100.0)
  }

  /** A percentage in [0, 100] takes a non-negative price into [0, harga]. */
  lemma ApplyPercentageBounds(harga: real, p: real)
    ensures harga >= 0.0 && 0.0 <= p <= 100.0 ==> 0.0 <= ApplyPercentage(harga, p) <= harga
  {
    if harga >= 0.0 && 0.0 <= p <= 100.0 {
      var f := 1.0 - p / 100.0;
      assert 0.0 <= f <= 1.0;
      assert harga * f <= harga * 1.0;
    }
  }

  /** A larger percentage never gives a larger price. */
  lemma ApplyPercentageAntitone(harga: real, p: real, q: real)
    requires harga >= 0.0 && p <= q
    ensures ApplyPercentage(harga, q) <= ApplyPercentage(harga, p)
  {
    assert harga * (q - p) >= 0.0;
    assert harga * (1.0 - q / 100.0) == harga * (1.0 - p / 100.0) - harga * (q - p) / 100.0;
  }

  lemma ApplyZeroPercentage(harga: real)
    ensures ApplyPercentage(harga, 0.0) == harga
  {
  }

  /**
   * `Menu::getDiscountedPriceAttribute` applies the formula only when the
   * percentage is positive, and otherwise keeps `harga`.
   */
  function DiscountedPrice(harga: real, p: real): (r: real)
    ensures p <= 0.0 ==> r == harga
    ensures 0.0 <= p <= 100.0 && harga >= 0.0 ==> 0.0 <= r <= harga
    ensures 0.0 <= p ==> r == ApplyPercentage(harga, p)
  {
    if p > 0.0 then
      ApplyPercentageBounds(harga, p);
      ApplyPercentage(harga, p)
    else
      ApplyZeroPercentage(harga); harga
  }

  /** A larger percentage in [0, 100] never gives a larger discounted price. */
  lemma DiscountedPriceAntitone(harga: real, p: real, q: real)
    requires harga >= 0.0 && 0.0 <= p <= q <= 100.0
    ensures DiscountedPrice(harga, q) <= DiscountedPrice(harga, p)
  {
    ApplyPercentageAntitone(harga, p, q);
  }

  /** `Menu::getDiscountedPriceAttribute`: the price with the largest active discount. */
  function MenuDiscountedPrice(menuId: int, menu: Menu, links: seq<Link>, diskons: map<int, Diskon>, now: Stamp): (r: real)
    ensures ActiveDiskonIds(menuId, links, diskons, now) == [] ==> r == menu.harga
    ensures menu.harga >= 0.0 && PercentagesInRange(diskons) ==> 0.0 <= r <= menu.harga
  {
    var p := ActivePercentage(menuId, links, diskons, now);
    assert PercentagesInRange(diskons) && ActiveDiskonIds(menuId, links, diskons, now) != [] ==> 0.0 <= p <= 100.0;
    DiscountedPrice(menu.harga, p)
  }

  /**
   * Linking one more active discount to a menu item never raises its
   * discounted price: the maximum can only grow.
   */
  lemma AddingActiveDiscountNeverRaisesPrice(menuId: int, menu: Menu, links: seq<Link>,
                                             diskons: map<int, Diskon>, diskonId: int, now: Stamp)
    requires menu.harga >= 0.0 && PercentagesInRange(diskons)
    requires diskonId in diskons && IsActive(diskons[diskonId], now)
    ensures MenuDiscountedPrice(menuId, menu, links + [Link(menuId, diskonId)], diskons, now)
         <= MenuDiscountedPrice(menuId, menu, links, diskons, now)
  {
    var links' := links + [Link(menuId, diskonId)];
    assert links'[..|links'| - 1] == links;
    var ids := ActiveDiskonIds(menuId, links, diskons, now);
    assert ActiveDiskonIds(menuId, links', diskons, now) == ids + [diskonId];
    var p := ActivePercentage(menuId, links, diskons, now);
    var q := ActivePercentage(menuId, links', diskons, now);
    assert diskonId in ids + [diskonId];
    assert forall d :: d in ids ==> d in ids + [diskonId];
    assert p <= q;
    assert 0.0 <= p by {
      if ids != [] {
        var d :| d in ids && p == diskons[d].persentase;
      }
    }
    var d' :| d' in ids + [diskonId] && q == diskons[d'].persentase;
    DiscountedPriceAntitone(menu.harga, p, q);
  }

  /**
   * The price that order placement and the menu listing use
   * (TransactionController::store, MenuController::index/show): the FIRST
   * active discount in link order, or the plain price when none is active.
   */
  function FirstActivePrice(menuId: int, menu: Menu, links: seq<Link>, diskons: map<int, Diskon>, now: Stamp): (r: real)
    ensures ActiveDiskonIds(menuId, links, diskons, now) == [] ==> r == menu.harga
    ensures menu.harga >= 0.0 && PercentagesInRange(diskons) ==> 0.0 <= r <= menu.harga
  {
    var ids := ActiveDiskonIds(menuId, links, diskons, now);
    if ids == [] then menu.harga
    else
      assert ids[0] in diskons;
      var p := diskons[ids[0]].persentase;
      PercentageInRange(diskons, ids[0]);
      ApplyPercentageBounds(menu.harga, p);
      ApplyPercentage(menu.harga, p)
  }

  /**
   * The first-discount price is never below the largest-discount price of
   * `Menu::getDiscountedPriceAttribute`, and the two agree whenever at most
   * one discount is active.
   */
  lemma FirstActivePriceVersusMaximum(menuId: int, menu: Menu, links: seq<Link>, diskons: map<int, Diskon>, now: Stamp)
    requires menu.harga >= 0.0 && PercentagesInRange(diskons)
    ensures MenuDiscountedPrice(menuId, menu, links, diskons, now) <= FirstActivePrice(menuId, menu, links, diskons, now)
    ensures |ActiveDiskonIds(menuId, links, diskons, now)| <= 1 ==>
              MenuDiscountedPrice(menuId, menu, links, diskons, now) == FirstActivePrice(menuId, menu, links, diskons, now)
  {
    var ids := ActiveDiskonIds(menuId, links, diskons, now);
    if ids != [] {
      assert ids[0] in ids && ids[0] in diskons;
      var first := diskons[ids[0]].persentase;
      var m := ActivePercentage(menuId, links, diskons, now);
      PercentageInRange(diskons, ids[0]);
      var d :| d in ids && m == diskons[d].persentase;
      PercentageInRange(diskons, d);
      assert first <= m;
      assert FirstActivePrice(menuId, menu, links, diskons, now) == ApplyPercentage(menu.harga, first);
      assert MenuDiscountedPrice(menuId, menu, links, diskons, now) == ApplyPercentage(menu.harga, m);
      ApplyPercentageAntitone(menu.harga, first, m);
      if |ids| == 1 {
        assert d == ids[0];
      }
    }
  }

  /** `Menu::scopeMakanan`. */
  function ScopeMakanan(menus: map<int, Menu>): (r: map<int, Menu>)
    ensures forall id :: id in r <==> id in menus && menus[id].jenis == "makanan"
    ensures forall id :: id in r ==> r[id] == menus[id]
  {
    map id | id in menus && menus[id].jenis == Makanan :: menus[id]
  }

  /** `Menu::scopeMinuman`. */
  function ScopeMinuman(menus: map<int, Menu>): (r: map<int, Menu>)
    ensures forall id :: id in r <==> id in menus && menus[id].jenis == "minuman"
    ensures forall id :: id in r ==> r[id] == menus[id]
  {
    map id | id in menus && menus[id].jenis == Minuman :: menus[id]
  }

  /** With `jenis` restricted to the enum, food and drink split the menu. */
  lemma FoodAndDrinkPartitionMenu(menus: map<int, Menu>)
    requires forall id :: id in menus ==> ValidJenis(menus[id].jenis)
    ensures ScopeMakanan(menus).Keys !! ScopeMinuman(menus).Keys
    ensures ScopeMakanan(menus).Keys + ScopeMinuman(menus).Keys == menus.Keys
  {
    assert forall id :: id in menus ==> id in ScopeMakanan(menus) || id in ScopeMinuman(menus);
  }
}
