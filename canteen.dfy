/**
 * The state-changing handlers of the API over one mutable database: menus
 * (`MenuController`), discounts and their menu links (`DiskonController`),
 * orders and their status (`TransactionController`) and the stan profile
 * (`StanController`). Each handler answers with an HTTP status; on every
 * status but the success one the tables are left exactly as they were.
 * The exceptions are `StoreDiskonAsWritten` and `UpdateDiskonAsWritten`:
 * `DiskonController::store` and `update` build their response by loading the
 * relation `menuDiskon`, which `Diskon` does not declare, so they answer 500
 * after their writes are kept.
 */
module Canteen {
  import opened Wrappers
  import opened Calendar
  import opened Accounts
  import opened Catalog
  import opened Orders
  import opened Requests
  import opened Schema

  /** Every item of the order is a menu of the stan the order is placed at. */
  predicate ItemsFromStan(items: seq<OrderItem>, menus: map<int, Menu>, idStan: int)
    requires forall k :: 0 <= k < |items| ==> items[k].idMenu in menus
  {
    forall k :: 0 <= k < |items| ==> menus[items[k].idMenu].idStan == idStan
  }

  class Database {
    var stans: map<int, Stan>
    var menus: map<int, Menu>
    var diskons: map<int, Diskon>
    var links: seq<Link>
    var transaksis: map<int, Transaksi>
    var details: seq<Detail>
    var nextMenuId: int
    var nextDiskonId: int
    var nextTransaksiId: int

    /** The current contents of all tables. */
    function State(): Tables
      reads this
    {
      Tables(stans, menus, diskons, links, transaksis, details, nextMenuId, nextDiskonId, nextTransaksiId)
    }

    ghost predicate Valid()
      reads this
    {
      TablesValid(State())
    }

    /** A freshly migrated database holding the registered stans and nothing else. */
    constructor (registered: map<int, Stan>)
      ensures Valid()
      ensures State() == Tables(registered, map[], map[], [], map[], [], 1, 1, 1)
    {
      stans, menus, diskons, links := registered, map[], map[], [];
      transaksis, details := map[], [];
      nextMenuId, nextDiskonId, nextTransaksiId := 1, 1, 1;
    }

    /** `DB::rollback()`: every table gets back the contents it had at `DB::beginTransaction()`. */
    method Rollback(saved: Tables)
      modifies this
      ensures State() == saved
    {
      stans, menus, diskons, links := saved.stans, saved.menus, saved.diskons, saved.links;
      transaksis, details := saved.transaksis, saved.details;
      nextMenuId, nextDiskonId, nextTransaksiId := saved.nextMenuId, saved.nextDiskonId, saved.nextTransaksiId;
    }

    // ---------------------------------------------------------- menu

    /** `MenuController::store`; `foto` is the name under which an uploaded photo was stored. */
    method StoreMenu(user: User, input: MenuInput, foto: Option<string>) returns (status: int, id: int)
      requires Valid()
      modifies this
      ensures Valid()
      ensures !IsAdminStan(user) ==> status == 403
      ensures IsAdminStan(user) && !MenuInputValid(input) ==> status == 422
      ensures IsAdminStan(user) && MenuInputValid(input) && (user.stan.None? || user.stan.value !in old(stans))
              ==> status == 500
      ensures status == 201 <==> IsAdminStan(user) && MenuInputValid(input) && user.stan.Some? && user.stan.value in old(stans)
      ensures status == 201 ==>
        id == old(nextMenuId) && id !in old(menus)
        && State() == InsertMenu(old(State()), NewMenu(input, foto, user.stan.value))
      ensures status != 201 ==> State() == old(State())
    {
      id := 0;
      if !IsAdminStan(user) { return 403, id; }
      if !MenuInputValid(input) { return 422, id; }
      if user.stan.None? || user.stan.value !in stans { return 500, id; }
      var m := NewMenu(input, foto, user.stan.value);
      InsertMenuKeepsValid(State(), m);
      id := nextMenuId;
      menus := menus[id := m];
      nextMenuId := nextMenuId + 1;
      status := 201;
    }

    /**
     * `MenuController::update`: ownership is checked before the body is
     * validated; `foto` is the name of a newly uploaded photo, if any.
     */
    method UpdateMenu(user: User, id: int, patch: MenuPatch, foto: Option<string>) returns (status: int)
      requires Valid()
      modifies this
      ensures Valid()
      ensures !IsAdminStan(user) ==> status == 403
      ensures IsAdminStan(user) && id !in old(menus) ==> status == 404
      ensures IsAdminStan(user) && id in old(menus) && user.stan.None? ==> status == 500
      ensures IsAdminStan(user) && id in old(menus) && user.stan.Some? && user.stan.value != old(menus)[id].idStan
              ==> status == 403
      ensures status == 422 <==> IsAdminStan(user) && id in old(menus) && user.stan == Some(old(menus)[id].idStan)
                                 && !MenuPatchValid(patch)
      ensures status == 200 <==> IsAdminStan(user) && id in old(menus) && user.stan == Some(old(menus)[id].idStan)
                                 && MenuPatchValid(patch)
      ensures status == 200 ==> State() == ReplaceMenu(old(State()), id, ApplyMenuPatch(old(menus)[id], patch, foto))
      ensures status != 200 ==> State() == old(State())
    {
      if !IsAdminStan(user) { return 403; }
      if id !in menus { return 404; }
      if user.stan.None? { return 500; }
      if menus[id].idStan != user.stan.value { return 403; }
      if !MenuPatchValid(patch) { return 422; }
      var m := ApplyMenuPatch(menus[id], patch, foto);
      MenuPatchKeepsRowValid(menus[id], patch, foto);
      ReplaceMenuKeepsValid(State(), id, m);
      menus := menus[id := m];
      status := 200;
    }

    /** `MenuController::destroy`: the menu's links and order lines go with it. */
    method DestroyMenu(user: User, id: int) returns (status: int)
      requires Valid()
      modifies this
      ensures Valid()
      ensures !IsAdminStan(user) ==> status == 403
      ensures IsAdminStan(user) && id !in old(menus) ==> status == 404
      ensures IsAdminStan(user) && id in old(menus) && user.stan.None? ==> status == 500
      ensures IsAdminStan(user) && id in old(menus) && user.stan.Some? && user.stan.value != old(menus)[id].idStan
              ==> status == 403
      ensures status == 200 <==> IsAdminStan(user) && id in old(menus) && user.stan == Some(old(menus)[id].idStan)
      ensures status == 200 ==> State() == DeleteMenu(old(State()), id)
      ensures status != 200 ==> State() == old(State())
    {
      if !IsAdminStan(user) { return 403; }
      if id !in menus { return 404; }
      if user.stan.None? { return 500; }
      if menus[id].idStan != user.stan.value { return 403; }
      DeleteMenuKeepsValid(State(), id);
      menus := menus - {id};
      links := Filter(links, (l: Link) => l.idMenu != id);
      details := Filter(details, (l: Detail) => l.idMenu != id);
      status := 200;
    }

    // ---------------------------------------------------------- diskon

    /**
     * `DiskonController::store` as intended: the discount belongs to the
     * user's stan; each listed menu of that stan is linked, once per
     * occurrence in the list, and menus of other stans are skipped.
     */
    method StoreDiskon(user: User, input: DiskonInput) returns (status: int, id: int)
      requires Valid()
      modifies this
      ensures Valid()
      ensures !IsAdminStan(user) ==> status == 403
      ensures IsAdminStan(user) && !DiskonInputValid(input, old(menus)) ==> status == 422
      ensures IsAdminStan(user) && DiskonInputValid(input, old(menus)) && (user.stan.None? || user.stan.value !in old(stans))
              ==> status == 500
      ensures status == 201 <==> IsAdminStan(user) && DiskonInputValid(input, old(menus))
                                 && user.stan.Some? && user.stan.value in old(stans)
      ensures status == 201 ==>
        id == old(nextDiskonId) && id !in old(diskons)
        && State() == InsertDiskon(old(State()), NewDiskon(input, old(menus), user.stan.value), input.menuIds)
      ensures status != 201 ==> State() == old(State())
    {
      id := 0;
      if !IsAdminStan(user) { return 403, id; }
      if !DiskonInputValid(input, menus) { return 422, id; }
      if user.stan.None? || user.stan.value !in stans { return 500, id; }
      var idStan := user.stan.value;
      var d := NewDiskon(input, menus, idStan);
      ghost var before := State();
      InsertDiskonKeepsValid(before, d, input.menuIds);
      id := nextDiskonId;
      diskons := diskons[id := d];
      nextDiskonId := nextDiskonId + 1;
      ghost var created := State();
      var added: seq<Link> := [];
      var i := 0;
      while i < |input.menuIds|
        invariant 0 <= i <= |input.menuIds|
        invariant State() == created
        invariant added == LinksFor(id, input.menuIds[..i], before.menus, idStan)
      {
        var menuId := input.menuIds[i];
        LinksForPrefix(id, input.menuIds, before.menus, idStan, i);
        if menuId in menus && menus[menuId].idStan == idStan {
          added := added + [Link(menuId, id)];
        }
        i := i + 1;
      }
      assert input.menuIds[..i] == input.menuIds;
      links := links + added;
      status := 201;
    }

    /**
     * `DiskonController::update` as intended: ownership before validation;
     * the fields present in the body are assigned.
     */
    method UpdateDiskon(user: User, id: int, patch: DiskonPatch) returns (status: int)
      requires Valid()
      modifies this
      ensures Valid()
      ensures !IsAdminStan(user) ==> status == 403
      ensures IsAdminStan(user) && id !in old(diskons) ==> status == 404
      ensures IsAdminStan(user) && id in old(diskons) && user.stan.None? ==> status == 500
      ensures IsAdminStan(user) && id in old(diskons) && user.stan.Some? && user.stan.value != old(diskons)[id].idStan
              ==> status == 403
      ensures status == 422 <==> IsAdminStan(user) && id in old(diskons) && user.stan == Some(old(diskons)[id].idStan)
                                 && !DiskonPatchValid(patch)
      ensures status == 200 <==> IsAdminStan(user) && id in old(diskons) && user.stan == Some(old(diskons)[id].idStan)
                                 && DiskonPatchValid(patch)
      ensures status == 200 ==> State() == ReplaceDiskon(old(State()), id, ApplyDiskonPatch(old(diskons)[id], patch))
      ensures status != 200 ==> State() == old(State())
    {
      if !IsAdminStan(user) { return 403; }
      if id !in diskons { return 404; }
      if user.stan.None? { return 500; }
      if diskons[id].idStan != user.stan.value { return 403; }
      if !DiskonPatchValid(patch) { return 422; }
      var d := ApplyDiskonPatch(diskons[id], patch);
      PercentageInRange(diskons, id);
      DiskonPatchKeepsPercentage(diskons[id], patch);
      ReplaceDiskonKeepsValid(State(), id, d);
      diskons := diskons[id := d];
      status := 200;
    }

    /**
     * `DiskonController::store` as written: the discount and its links are
     * stored as by `StoreDiskon`, then loading `menuDiskon` for the response
     * throws. Without a database transaction the request answers 500 and
     * the new rows stay.
     */
    method StoreDiskonAsWritten(user: User, input: DiskonInput) returns (status: int)
      requires Valid()
      modifies this
      ensures Valid()
      ensures status != 201
      ensures !IsAdminStan(user) ==> status == 403
      ensures IsAdminStan(user) && !DiskonInputValid(input, old(menus)) ==> status == 422
      ensures IsAdminStan(user) && DiskonInputValid(input, old(menus)) ==> status == 500
      ensures IsAdminStan(user) && DiskonInputValid(input, old(menus)) && user.stan.Some? && user.stan.value in old(stans) ==>
        State() == InsertDiskon(old(State()), NewDiskon(input, old(menus), user.stan.value), input.menuIds)
        && old(nextDiskonId) in diskons && State() != old(State())
      ensures !(IsAdminStan(user) && DiskonInputValid(input, old(menus)) && user.stan.Some? && user.stan.value in old(stans))
              ==> State() == old(State())
    {
      var id;
      status, id := StoreDiskon(user, input);
      if status == 201 {
        status := 500;
      }
    }

    /**
     * `DiskonController::update` as written: the row is saved as by
     * `UpdateDiskon`, then loading `menuDiskon` for the response throws, so
     * the request answers 500 with the update kept.
     */
    method UpdateDiskonAsWritten(user: User, id: int, patch: DiskonPatch) returns (status: int)
      requires Valid()
      modifies this
      ensures Valid()
      ensures status != 200
      ensures !IsAdminStan(user) ==> status == 403
      ensures IsAdminStan(user) && id !in old(diskons) ==> status == 404
      ensures IsAdminStan(user) && id in old(diskons) && user.stan.None? ==> status == 500
      ensures IsAdminStan(user) && id in old(diskons) && user.stan.Some? && user.stan.value != old(diskons)[id].idStan
              ==> status == 403
      ensures status == 422 <==> IsAdminStan(user) && id in old(diskons) && user.stan == Some(old(diskons)[id].idStan)
                                 && !DiskonPatchValid(patch)
      ensures IsAdminStan(user) && id in old(diskons) && user.stan == Some(old(diskons)[id].idStan) && DiskonPatchValid(patch)
              ==> status == 500 && State() == ReplaceDiskon(old(State()), id, ApplyDiskonPatch(old(diskons)[id], patch))
      ensures !(IsAdminStan(user) && id in old(diskons) && user.stan == Some(old(diskons)[id].idStan) && DiskonPatchValid(patch))
              ==> State() == old(State())
    {
      status := UpdateDiskon(user, id, patch);
      if status == 200 {
        status := 500;
      }
    }

    /** `DiskonController::destroy`: the discount's links go with it. */
    method DestroyDiskon(user: User, id: int) returns (status: int)
      requires Valid()
      modifies this
      ensures Valid()
      ensures !IsAdminStan(user) ==> status == 403
      ensures IsAdminStan(user) && id !in old(diskons) ==> status == 404
      ensures IsAdminStan(user) && id in old(diskons) && user.stan.None? ==> status == 500
      ensures IsAdminStan(user) && id in old(diskons) && user.stan.Some? && user.stan.value != old(diskons)[id].idStan
              ==> status == 403
      ensures status == 200 <==> IsAdminStan(user) && id in old(diskons) && user.stan == Some(old(diskons)[id].idStan)
      ensures status == 200 ==> State() == DeleteDiskon(old(State()), id)
      ensures status != 200 ==> State() == old(State())
    {
      if !IsAdminStan(user) { return 403; }
      if id !in diskons { return 404; }
      if user.stan.None? { return 500; }
      if diskons[id].idStan != user.stan.value { return 403; }
      DeleteDiskonKeepsValid(State(), id);
      diskons := diskons - {id};
      links := Filter(links, (l: Link) => l.idDiskon != id);
      status := 200;
    }

    /** `DiskonController::attachMenu`: both rows must exist and belong to the user's stan. */
    method AttachMenu(user: User, idDiskon: int, idMenu: int) returns (status: int)
      requires Valid()
      modifies this
      ensures Valid()
      ensures !IsAdminStan(user) ==> status == 403
      ensures IsAdminStan(user) && (idDiskon !in old(diskons) || idMenu !in old(menus)) ==> status == 404
      ensures IsAdminStan(user) && idDiskon in old(diskons) && idMenu in old(menus) && user.stan.None? ==> status == 500
      ensures IsAdminStan(user) && idDiskon in old(diskons) && idMenu in old(menus) && user.stan.Some?
              && (old(diskons)[idDiskon].idStan != user.stan.value || old(menus)[idMenu].idStan != user.stan.value)
              ==> status == 403
      ensures status == 422 <==> IsAdminStan(user) && idDiskon in old(diskons) && idMenu in old(menus)
                                 && user.stan == Some(old(diskons)[idDiskon].idStan) == Some(old(menus)[idMenu].idStan)
                                 && Link(idMenu, idDiskon) in old(links)
      ensures status == 200 <==> IsAdminStan(user) && idDiskon in old(diskons) && idMenu in old(menus)
                                 && user.stan == Some(old(diskons)[idDiskon].idStan) == Some(old(menus)[idMenu].idStan)
                                 && Link(idMenu, idDiskon) !in old(links)
      ensures status == 200 ==> State() == AttachLink(old(State()), idMenu, idDiskon)
      ensures status != 200 ==> State() == old(State())
    {
      if !IsAdminStan(user) { return 403; }
      if idDiskon !in diskons || idMenu !in menus { return 404; }
      if user.stan.None? { return 500; }
      if diskons[idDiskon].idStan != user.stan.value || menus[idMenu].idStan != user.stan.value { return 403; }
      if Link(idMenu, idDiskon) in links { return 422; }
      AttachKeepsValid(State(), idMenu, idDiskon);
      links := links + [Link(idMenu, idDiskon)];
      status := 200;
    }

    /**
     * `DiskonController::detachMenu`: deletes every link of the pair and
     * answers 422 when there was none; the menu itself is not looked up.
     */
    method DetachMenu(user: User, idDiskon: int, idMenu: int) returns (status: int)
      requires Valid()
      modifies this
      ensures Valid()
      ensures !IsAdminStan(user) ==> status == 403
      ensures IsAdminStan(user) && idDiskon !in old(diskons) ==> status == 404
      ensures IsAdminStan(user) && idDiskon in old(diskons) && user.stan.None? ==> status == 500
      ensures IsAdminStan(user) && idDiskon in old(diskons) && user.stan.Some?
              && old(diskons)[idDiskon].idStan != user.stan.value
              ==> status == 403
      ensures status == 422 <==> IsAdminStan(user) && idDiskon in old(diskons) && user.stan == Some(old(diskons)[idDiskon].idStan)
                                 && Link(idMenu, idDiskon) !in old(links)
      ensures status == 200 <==> IsAdminStan(user) && idDiskon in old(diskons) && user.stan == Some(old(diskons)[idDiskon].idStan)
                                 && Link(idMenu, idDiskon) in old(links)
      ensures status == 200 ==> State() == DetachLinks(old(State()), idMenu, idDiskon)
      ensures status != 200 ==> State() == old(State())
    {
      if !IsAdminStan(user) { return 403; }
      if idDiskon !in diskons { return 404; }
      if user.stan.None? { return 500; }
      if diskons[idDiskon].idStan != user.stan.value { return 403; }
      DetachKeepsValid(State(), idMenu, idDiskon);
      var deleted := DeletedCount(links, idMenu, idDiskon);
      links := Filter(links, (l: Link) => l != Link(idMenu, idDiskon));
      if deleted == 0 { return 422; }
      status := 200;
    }

    // ---------------------------------------------------------- orders

    /**
     * `TransactionController::store`. The order row is written first and the
     * lines one item at a time, each priced with the first active discount
     * of its menu; a missing student profile or an item from another stan
     * raises inside the database transaction, which is rolled back (500).
     */
    method PlaceOrder(user: User, idStan: Option<int>, items: seq<OrderItem>, now: Stamp) returns (status: int, id: int)
      requires Valid()
      modifies this
      ensures Valid()
      ensures !IsSiswa(user) ==> status == 403
      ensures status == 422 <==> IsSiswa(user) && !OrderValid(idStan, items, old(stans).Keys, old(menus))
      ensures status == 500 <==> IsSiswa(user) && OrderValid(idStan, items, old(stans).Keys, old(menus))
                                 && (user.siswa.None? || !ItemsFromStan(items, old(menus), idStan.value))
      ensures status == 201 <==> IsSiswa(user) && OrderValid(idStan, items, old(stans).Keys, old(menus))
                                 && user.siswa.Some? && ItemsFromStan(items, old(menus), idStan.value)
      ensures status == 201 ==>
        id == old(nextTransaksiId) && id !in old(transaksis)
        && State() == InsertOrder(old(State()), idStan.value, user.siswa.value, items, now)
      ensures status != 201 ==> State() == old(State())
    {
      id := 0;
      if !IsSiswa(user) { return 403, id; }
      if !OrderValid(idStan, items, stans.Keys, menus) { return 422, id; }
      var saved := State();
      if user.siswa.None? {
        Rollback(saved);
        return 500, id;
      }
      id := nextTransaksiId;
      var order := Transaksi(now, idStan.value, user.siswa.value, StatusPending);
      transaksis := transaksis[id := order];
      nextTransaksiId := nextTransaksiId + 1;
      var i := 0;
      while i < |items|
        invariant 0 <= i <= |items|
        invariant transaksis == saved.transaksis[id := order] && nextTransaksiId == id + 1
        invariant stans == saved.stans && menus == saved.menus && diskons == saved.diskons && links == saved.links
        invariant nextMenuId == saved.nextMenuId && nextDiskonId == saved.nextDiskonId
        invariant details == saved.details + OrderLines(id, items[..i], saved.menus, saved.links, saved.diskons, now)
        invariant forall k :: 0 <= k < i ==> saved.menus[items[k].idMenu].idStan == idStan.value
      {
        var item := items[i];
        if menus[item.idMenu].idStan != idStan.value {
          Rollback(saved);
          return 500, 0;
        }
        var line := OrderLine(id, item, menus, links, diskons, now);
        OrderLinesPrefix(id, items, saved.menus, saved.links, saved.diskons, now, i);
        assert saved.details + OrderLines(id, items[..i + 1], saved.menus, saved.links, saved.diskons, now)
            == (saved.details + OrderLines(id, items[..i], saved.menus, saved.links, saved.diskons, now)) + [line];
        details := details + [line];
        i := i + 1;
      }
      assert items[..i] == items;
      InsertOrderKeepsValid(saved, idStan.value, user.siswa.value, items, now);
      status := 201;
    }

    /**
     * `TransactionController::updateStatus`: the body is validated before the
     * order is looked up; any listed status may follow any other.
     */
    method UpdateStatus(user: User, id: int, newStatus: Option<string>) returns (status: int)
      requires Valid()
      modifies this
      ensures Valid()
      ensures !IsAdminStan(user) ==> status == 403
      ensures status == 422 <==> IsAdminStan(user) && (newStatus.None? || !ValidStatus(newStatus.value))
      ensures IsAdminStan(user) && newStatus.Some? && ValidStatus(newStatus.value) && id !in old(transaksis) ==> status == 404
      ensures IsAdminStan(user) && newStatus.Some? && ValidStatus(newStatus.value) && id in old(transaksis)
              && user.stan.None?
              ==> status == 500
      ensures IsAdminStan(user) && newStatus.Some? && ValidStatus(newStatus.value) && id in old(transaksis)
              && user.stan.Some? && user.stan.value != old(transaksis)[id].idStan
              ==> status == 403
      ensures status == 200 <==> IsAdminStan(user) && newStatus.Some? && ValidStatus(newStatus.value)
                                 && id in old(transaksis) && user.stan == Some(old(transaksis)[id].idStan)
      ensures status == 200 ==> State() == SetStatus(old(State()), id, newStatus.value)
      ensures status != 200 ==> State() == old(State())
    {
      if !IsAdminStan(user) { return 403; }
      if newStatus.None? || !ValidStatus(newStatus.value) { return 422; }
      if id !in transaksis { return 404; }
      if user.stan.None? { return 500; }
      if transaksis[id].idStan != user.stan.value { return 403; }
      SetStatusKeepsValid(State(), id, newStatus.value);
      transaksis := transaksis[id := transaksis[id].(status := newStatus.value)];
      status := 200;
    }

    // ---------------------------------------------------------- stan

    /**
     * `StanController::updateProfile`: the fields present in the body are
     * assigned to the user's own stan row; without that row the handler fails.
     */
    method UpdateStanProfile(user: User, patch: StanPatch) returns (status: int)
      requires Valid()
      modifies this
      ensures Valid()
      ensures !IsAdminStan(user) ==> status == 403
      ensures status == 422 <==> IsAdminStan(user) && !StanPatchValid(patch)
      ensures status == 500 <==> IsAdminStan(user) && StanPatchValid(patch)
                                 && (user.stan.None? || user.stan.value !in old(stans))
      ensures status == 200 <==> IsAdminStan(user) && StanPatchValid(patch)
                                 && user.stan.Some? && user.stan.value in old(stans)
      ensures status == 200 ==>
        State() == ReplaceStan(old(State()), user.stan.value, ApplyStanPatch(old(stans)[user.stan.value], patch))
      ensures status != 200 ==> State() == old(State())
    {
      if !IsAdminStan(user) { return 403; }
      if !StanPatchValid(patch) { return 422; }
      if user.stan.None? || user.stan.value !in stans { return 500; }
      var idStan := user.stan.value;
      var s := ApplyStanPatch(stans[idStan], patch);
      ReplaceStanKeepsValid(State(), idStan, s);
      stans := stans[idStan := s];
      status := 200;
    }
  }
}
