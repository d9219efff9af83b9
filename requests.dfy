/**
 * Request bodies of the mutating handlers and their validation rules
 * (the `Validator::make` rule sets), plus the partial-update semantics of
 * the `if ($request->has(...))` assignment chains.
 */
module Requests {
  import opened Wrappers
  import opened Calendar
  import opened Catalog

  // ------------------------------------------------------------ menu

  /** `MenuController::store` body; `None` is a field missing from the request. */
  datatype MenuInput = MenuInput(nama: Option<string>, harga: Option<real>, jenis: Option<string>,
                                 deskripsi: Option<string>)

  /** `required|string|max:100`, `required|numeric|min:0`, `required|in:makanan,minuman`. */
  predicate MenuInputValid(i: MenuInput) {
    i.nama.Some? && |i.nama.value| <= 100
    && i.harga.Some? && i.harga.value >= 0.0
    && i.jenis.Some? && ValidJenis(i.jenis.value)
  }

  /** The row `store` creates for a valid body; `foto` is the stored upload's name, if any. */
  function NewMenu(i: MenuInput, foto: Option<string>, idStan: int): (m: Menu)
    requires MenuInputValid(i)
    ensures m.nama == i.nama.value && m.harga == i.harga.value && m.jenis == i.jenis.value
    ensures m.deskripsi == i.deskripsi && m.foto == foto && m.idStan == idStan
    ensures ValidJenis(m.jenis) && m.harga >= 0.0
  {
    Menu(i.nama.value, i.harga.value, i.jenis.value, foto, i.deskripsi, idStan)
  }

  /**
   * `MenuController::update` body: every field optional; `deskripsi` may be
   * present with a null value.
   */
  datatype MenuPatch = MenuPatch(nama: Option<string>, harga: Option<real>, jenis: Option<string>,
                                 deskripsi: Option<Option<string>>)

  predicate MenuPatchValid(p: MenuPatch) {
    (p.nama.Some? ==> |p.nama.value| <= 100)
    && (p.harga.Some? ==> p.harga.value >= 0.0)
    && (p.jenis.Some? ==> ValidJenis(p.jenis.value))
  }

  /**
   * Assigns exactly the fields present in the request (and the photo when a
   * new one was uploaded); the owning stan never changes.
   */
  function ApplyMenuPatch(m: Menu, p: MenuPatch, foto: Option<string>): (r: Menu)
    ensures r.nama == p.nama.GetOr(m.nama)
    ensures r.harga == p.harga.GetOr(m.harga)
    ensures r.jenis == p.jenis.GetOr(m.jenis)
    ensures r.deskripsi == p.deskripsi.GetOr(m.deskripsi)
    ensures r.foto == (if foto.Some? then foto else m.foto)
    ensures r.idStan == m.idStan
    ensures p == MenuPatch(None, None, None, None) && foto.None? ==> r == m
  {
    var m1 := if p.nama.Some? then m.(nama := p.nama.value) else m;
    var m2 := if p.harga.Some? then m1.(harga := p.harga.value) else m1;
    var m3 := if p.jenis.Some? then m2.(jenis := p.jenis.value) else m2;
    var m4 := if p.deskripsi.Some? then m3.(deskripsi := p.deskripsi.value) else m3;
    if foto.Some? then m4.(foto := foto) else m4
  }

  /** A valid patch keeps a valid row valid. */
  lemma MenuPatchKeepsRowValid(m: Menu, p: MenuPatch, foto: Option<string>)
    requires ValidJenis(m.jenis) && m.harga >= 0.0 && MenuPatchValid(p)
    ensures ValidJenis(ApplyMenuPatch(m, p, foto).jenis) && ApplyMenuPatch(m, p, foto).harga >= 0.0
  {
  }

  /** Sending the same update twice has the effect of sending it once. */
  lemma MenuPatchIdempotent(m: Menu, p: MenuPatch, foto: Option<string>)
    ensures ApplyMenuPatch(ApplyMenuPatch(m, p, foto), p, foto) == ApplyMenuPatch(m, p, foto)
  {
  }

  // ------------------------------------------------------------ diskon

  /** `DiskonController::store` body. */
  datatype DiskonInput = DiskonInput(nama: Option<string>, persentase: Option<real>,
                                     awal: Option<Stamp>, akhir: Option<Stamp>, menuIds: seq<int>)

  /**
   * `required|string|max:100`, `required|numeric|min:0|max:100`, two required
   * dates with `tanggal_akhir` `after_or_equal:tanggal_awal`, and every entry
   * of `menu_ids` an existing menu id.
   */
  predicate DiskonInputValid(i: DiskonInput, menus: map<int, Menu>) {
    i.nama.Some? && |i.nama.value| <= 100
    && i.persentase.Some? && 0.0 <= i.persentase.value <= 100.0
    && i.awal.Some? && i.akhir.Some? && Le(i.awal.value, i.akhir.value)
    && forall k :: 0 <= k < |i.menuIds| ==> i.menuIds[k] in menus
  }

  function NewDiskon(i: DiskonInput, menus: map<int, Menu>, idStan: int): (d: Diskon)
    requires DiskonInputValid(i, menus)
    ensures d.nama == i.nama.value && d.persentase == i.persentase.value
    ensures d.awal == i.awal.value && d.akhir == i.akhir.value && d.idStan == idStan
    ensures 0.0 <= d.persentase <= 100.0 && Le(d.awal, d.akhir)
  {
    Diskon(i.nama.value, i.persentase.value, i.awal.value, i.akhir.value, idStan)
  }

  /** `DiskonController::update` body: every field optional. */
  datatype DiskonPatch = DiskonPatch(nama: Option<string>, persentase: Option<real>,
                                     awal: Option<Stamp>, akhir: Option<Stamp>)

  /**
   * The update rules. `after_or_equal:tanggal_awal` compares the two dates
   * of the request only; when just one date is sent nothing is compared.
   */
  predicate DiskonPatchValid(p: DiskonPatch) {
    (p.nama.Some? ==> |p.nama.value| <= 100)
    && (p.persentase.Some? ==> 0.0 <= p.persentase.value <= 100.0)
    && (p.awal.Some? && p.akhir.Some? ==> Le(p.awal.value, p.akhir.value))
  }

  /** Assigns exactly the fields present in the request; the owner never changes. */
  function ApplyDiskonPatch(d: Diskon, p: DiskonPatch): (r: Diskon)
    ensures r.nama == p.nama.GetOr(d.nama)
    ensures r.persentase == p.persentase.GetOr(d.persentase)
    ensures r.awal == p.awal.GetOr(d.awal)
    ensures r.akhir == p.akhir.GetOr(d.akhir)
    ensures r.idStan == d.idStan
  {
    var d1 := if p.nama.Some? then d.(nama := p.nama.value) else d;
    var d2 := if p.persentase.Some? then d1.(persentase := p.persentase.value) else d1;
    var d3 := if p.awal.Some? then d2.(awal := p.awal.value) else d2;
    if p.akhir.Some? then d3.(akhir := p.akhir.value) else d3
  }

  /** A valid patch keeps the percentage of a valid row within [0, 100]. */
  lemma DiskonPatchKeepsPercentage(d: Diskon, p: DiskonPatch)
    requires 0.0 <= d.persentase <= 100.0 && DiskonPatchValid(p)
    ensures 0.0 <= ApplyDiskonPatch(d, p).persentase <= 100.0
  {
  }

  /**
   * A valid patch that sends both dates leaves an ordered window; one that
   * sends a single date can leave `tanggal_akhir` before `tanggal_awal`.
   */
  lemma DiskonPatchWindow(d: Diskon, p: DiskonPatch)
    requires DiskonPatchValid(p)
    ensures p.awal.Some? && p.akhir.Some? ==> Le(ApplyDiskonPatch(d, p).awal, ApplyDiskonPatch(d, p).akhir)
    ensures p.awal.None? && p.akhir.None? ==>
      (ApplyDiskonPatch(d, p).awal, ApplyDiskonPatch(d, p).akhir) == (d.awal, d.akhir)
  {
  }

  /** A concrete valid single-date patch that inverts an ordered window. */
  lemma SingleDatePatchCanInvertWindow()
    ensures
      var d := Diskon("promo", 10.0, Stamp(2025, 5, 1, 0), Stamp(2025, 5, 31, 0), 1);
      var p := DiskonPatch(None, None, Some(Stamp(2025, 6, 1, 0)), None);
      Le(d.awal, d.akhir) && DiskonPatchValid(p) && !Le(ApplyDiskonPatch(d, p).awal, ApplyDiskonPatch(d, p).akhir)
  {
  }

  // ------------------------------------------------------------ stan profile

  /** `StanController::updateProfile` body. */
  datatype StanPatch = StanPatch(namaStan: Option<string>, namaPemilik: Option<string>, telp: Option<string>)

  /** `string|max:100`, `string|max:100`, `string|max:20`. */
  predicate StanPatchValid(p: StanPatch) {
    (p.namaStan.Some? ==> |p.namaStan.value| <= 100)
    && (p.namaPemilik.Some? ==> |p.namaPemilik.value| <= 100)
    && (p.telp.Some? ==> |p.telp.value| <= 20)
  }

  // ------------------------------------------------------------ order

  /** One entry of the `items` array of `TransactionController::store`. */
  datatype OrderItem = OrderItem(idMenu: int, qty: int)

  /**
   * `id_stan` `required|exists:stan,id`, `items` `required|array|min:1`,
   * each `id_menu` an existing menu and each `qty` at least 1.
   */
  predicate OrderValid(idStan: Option<int>, items: seq<OrderItem>, stanIds: set<int>, menus: map<int, Menu>) {
    idStan.Some? && idStan.value in stanIds
    && |items| >= 1
    && forall k :: 0 <= k < |items| ==> items[k].idMenu in menus && items[k].qty >= 1
  }
}
