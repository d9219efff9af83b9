/**
 * The read side of `MenuController` and `DiskonController`: menu listings
 * with the price after discount, and discount listings.
 *
 * Every `DiskonController` handler eager-loads the relation `menuDiskon.menu`,
 * but `Diskon` declares no relation `menuDiskon` (only `stan` and `menu`).
 * Eloquent resolves an eager load only when the query returned a row, and
 * then throws, which the framework answers with 500. The members ending in
 * `AsWritten` model that behaviour; the others model the evidently intended
 * listing, which loads the declared relation `menu`.
 */
module CatalogApi {
  import opened Wrappers
  import opened Calendar
  import opened Accounts
  import opened Catalog

  /** A menu row together with the computed `harga_setelah_diskon`. */
  datatype PricedMenu = PricedMenu(menu: Menu, hargaSetelahDiskon: real)

  predicate PricesValid(menus: map<int, Menu>) {
    forall id :: id in menus ==> menus[id].harga >= 0.0
  }

  /**
   * `MenuController::index`: every menu, or only one stan's when `stan_id`
   * is given, each priced with its first active discount.
   */
  function MenuIndex(stanId: Option<int>, menus: map<int, Menu>, links: seq<Link>,
                     diskons: map<int, Diskon>, now: Stamp): (r: map<int, PricedMenu>)
    ensures forall id :: id in r <==> id in menus && (stanId.Some? ==> menus[id].idStan == stanId.value)
    ensures forall id :: id in r ==>
      r[id].menu == menus[id] &&
      r[id].hargaSetelahDiskon == FirstActivePrice(id, menus[id], links, diskons, now)
    ensures PricesValid(menus) && PercentagesInRange(diskons) ==>
      forall id :: id in r ==> 0.0 <= r[id].hargaSetelahDiskon <= r[id].menu.harga
  {
    var chosen := if stanId.Some? then (map id | id in menus && menus[id].idStan == stanId.value :: menus[id]) else menus;
    map id | id in chosen :: PricedMenu(chosen[id], FirstActivePrice(id, chosen[id], links, diskons, now))
  }

  datatype MenuShowResponse = MenuNotFound | MenuShown(item: PricedMenu)

  /** `MenuController::show`: 404 for an unknown id, else the same priced row as the listing. */
  function MenuShow(id: int, menus: map<int, Menu>, links: seq<Link>, diskons: map<int, Diskon>, now: Stamp)
    : (r: MenuShowResponse)
    ensures r.MenuNotFound? <==> id !in menus
    ensures r.MenuShown? ==> r.item == MenuIndex(None, menus, links, diskons, now)[id]
    ensures r.MenuShown? ==> r.item == MenuIndex(Some(menus[id].idStan), menus, links, diskons, now)[id]
  {
    if id !in menus then MenuNotFound
    else MenuShown(PricedMenu(menus[id], FirstActivePrice(id, menus[id], links, diskons, now)))
  }

  datatype DiskonListing = DiskonRefused(status: int) | Diskons(rows: map<int, Diskon>)

  /**
   * `DiskonController::index`: a stan admin sees only the own stan's
   * discounts (any `stan_id` is ignored); other callers see one stan's
   * discounts when `stan_id` is given, else all.
   */
  function DiskonIndex(user: User, stanId: Option<int>, diskons: map<int, Diskon>): (r: DiskonListing)
    ensures IsAdminStan(user) && user.stan.None? <==> r == DiskonRefused(500)
    ensures r.Diskons? ==> forall id :: id in r.rows ==> id in diskons && r.rows[id] == diskons[id]
    ensures r.Diskons? && IsAdminStan(user) ==>
      forall id :: id in r.rows <==> id in diskons && diskons[id].idStan == user.stan.value
    ensures r.Diskons? && !IsAdminStan(user) ==>
      forall id :: id in r.rows <==> id in diskons && (stanId.Some? ==> diskons[id].idStan == stanId.value)
  {
    if IsAdminStan(user) then
      if user.stan.None? then DiskonRefused(500)
      else Diskons(map id | id in diskons && diskons[id].idStan == user.stan.value :: diskons[id])
    else if stanId.Some? then
      Diskons(map id | id in diskons && diskons[id].idStan == stanId.value :: diskons[id])
    else Diskons(diskons)
  }

  /** The menus linked to a discount through `menu_diskon`, in link order. */
  function LinkedMenus(idDiskon: int, links: seq<Link>): (r: seq<int>)
    ensures forall m :: m in r <==> Link(m, idDiskon) in links
    ensures |r| <= |links|
  {
    if links == [] then []
    else
      var last := links[|links| - 1];
      assert links == links[..|links| - 1] + [last];
      LinkedMenus(idDiskon, links[..|links| - 1]) + (if last.idDiskon == idDiskon then [last.idMenu] else [])
  }

  datatype DiskonShowResponse = DiskonNotFound | DiskonShowFailed | DiskonShown(diskon: Diskon, menuIds: seq<int>)

  /** `DiskonController::show` as intended: 404 for an unknown id, else the row with its linked menus. */
  function DiskonShow(id: int, diskons: map<int, Diskon>, links: seq<Link>): (r: DiskonShowResponse)
    ensures r.DiskonNotFound? <==> id !in diskons
    ensures !r.DiskonShowFailed?
    ensures r.DiskonShown? ==> r.diskon == diskons[id] && forall m :: m in r.menuIds <==> Link(m, id) in links
  {
    if id !in diskons then DiskonNotFound else DiskonShown(diskons[id], LinkedMenus(id, links))
  }

  /**
   * `DiskonController::getActiveDiskon`: the discounts whose window contains
   * `now`, optionally of one stan. It selects the same rows as the
   * `Diskon::active` scope and as `Stan::activeDiskon`.
   */
  function ActiveDiskonIndex(stanId: Option<int>, diskons: map<int, Diskon>, now: Stamp): (r: map<int, Diskon>)
    ensures stanId.None? ==> r == ScopeActive(diskons, now)
    ensures stanId.Some? ==> r == StanActiveDiskon(stanId.value, diskons, now)
  {
    if stanId.Some? then
      map id | id in diskons && diskons[id].idStan == stanId.value
                 && Le(diskons[id].awal, now) && Le(now, diskons[id].akhir) :: diskons[id]
    else
      map id | id in diskons && Le(diskons[id].awal, now) && Le(now, diskons[id].akhir) :: diskons[id]
  }

  // ------------------------------------------------------------ as written

  /**
   * Eager loading `menuDiskon.menu` on the rows a query returned: it throws
   * exactly when there is a row to load it for.
   */
  predicate EagerLoadThrows(rows: map<int, Diskon>) {
    exists id :: id in rows
  }

  lemma EagerLoadThrowsIffRows(rows: map<int, Diskon>)
    ensures EagerLoadThrows(rows) <==> rows != map[]
  {
    if EagerLoadThrows(rows) {
      var id :| id in rows;
      assert rows != map[] by { assert id in rows; }
    } else {
      assert forall id :: id !in rows.Keys;
      assert rows.Keys == {};
    }
  }

  /** `DiskonController::index` as written: 500 as soon as one discount is selected. */
  function DiskonIndexAsWritten(user: User, stanId: Option<int>, diskons: map<int, Diskon>): (r: DiskonListing)
    ensures r.DiskonRefused? ==> r.status == 500
    ensures r.Diskons? ==> r.rows == map[]
    ensures r == DiskonIndex(user, stanId, diskons) <==>
      !(DiskonIndex(user, stanId, diskons).Diskons? && DiskonIndex(user, stanId, diskons).rows != map[])
  {
    var intended := DiskonIndex(user, stanId, diskons);
    EagerLoadThrowsIffRows(if intended.Diskons? then intended.rows else map[]);
    if intended.Diskons? && EagerLoadThrows(intended.rows) then DiskonRefused(500) else intended
  }

  /** Any discount at all makes the unfiltered listing fail for a caller who is not a stan admin. */
  lemma OneDiskonBreaksIndex(user: User, d: Diskon)
    requires !IsAdminStan(user)
    ensures DiskonIndex(user, None, map[1 := d]) == Diskons(map[1 := d])
    ensures DiskonIndexAsWritten(user, None, map[1 := d]) == DiskonRefused(500)
  {
    assert 1 in map[1 := d];
  }

  /** `DiskonController::getActiveDiskon` as written: 500 as soon as one discount is active. */
  function ActiveDiskonIndexAsWritten(stanId: Option<int>, diskons: map<int, Diskon>, now: Stamp): (r: DiskonListing)
    ensures r.DiskonRefused? ==> r.status == 500
    ensures r.Diskons? ==> r.rows == map[] == ActiveDiskonIndex(stanId, diskons, now)
    ensures r.DiskonRefused? <==>
      exists id :: id in diskons && IsActive(diskons[id], now) && (stanId.Some? ==> diskons[id].idStan == stanId.value)
  {
    var rows := ActiveDiskonIndex(stanId, diskons, now);
    assert forall id :: id in rows <==>
      id in diskons && IsActive(diskons[id], now) && (stanId.Some? ==> diskons[id].idStan == stanId.value);
    EagerLoadThrowsIffRows(rows);
    if EagerLoadThrows(rows) then DiskonRefused(500) else Diskons(rows)
  }

  /** A single active discount makes the listing of active discounts fail. */
  lemma ActiveDiskonBreaksActiveIndex(d: Diskon, now: Stamp)
    requires IsActive(d, now)
    ensures ActiveDiskonIndex(None, map[1 := d], now) == map[1 := d]
    ensures ActiveDiskonIndexAsWritten(None, map[1 := d], now) == DiskonRefused(500)
  {
    assert 1 in ActiveDiskonIndex(None, map[1 := d], now);
  }

  /** `DiskonController::show` as written: 404 for an unknown id and 500 for every existing one. */
  function DiskonShowAsWritten(id: int, diskons: map<int, Diskon>, links: seq<Link>): (r: DiskonShowResponse)
    ensures r.DiskonNotFound? <==> id !in diskons
    ensures !r.DiskonShown?
    ensures r.DiskonShowFailed? <==> DiskonShow(id, diskons, links).DiskonShown?
  {
    if id !in diskons then DiskonNotFound
    else DiskonShowFailed
  }
}
