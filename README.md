# kantin-app: a Dafny model of the canteen ordering core

kantin-app is a school canteen API. Students (`siswa`) order food and
drinks from stalls (`stan`). Each stall's administrator (`admin_stan`)
does three things:
- maintains the stall's menu (`menu`);
- runs time-boxed percentage discounts (`diskon`), linked to menu items
  through `menu_diskon`;
- moves orders (`transaksi`, with lines in `detail_transaksi`) through the
  statuses `belum dikonfirm` → `dimasak` → `diantar` → `sampai`, and reads
  monthly income reports.

This project models that core:
- **Tables as values.** Every Eloquent query is read as a filter over
  in-memory tables:
  - maps from id to row for `stan`, `menu`, `diskon` and `transaksi`;
  - sequences of rows for `menu_diskon` and `detail_transaksi`.
- **Handlers that only read** are functions over those tables.
- **Handlers that write** are methods of the class `Canteen.Database`:
  - its fields are the tables and their auto-increment counters;
  - each method returns the HTTP status and states the whole new state through
    `State()` and one pure state transformer of module `Schema`;
  - the lemmas of `Schema` prove that each transformer keeps `TablesValid`:
    the foreign keys `menu.id_stan`, `diskon.id_stan`, `transaksi.id_stan`,
    `menu_diskon.id_menu`, `menu_diskon.id_diskon`,
    `detail_transaksi.id_transaksi` and `detail_transaksi.id_menu`; ids below
    each auto-increment counter; valid `jenis`, status and percentage, and
    non-negative prices. `transaksi.id_siswa` is not checked, because the
    `siswa` table is not part of this model.

Modules, in dependency order:
- `Wrappers`: `Option`.
- `Calendar`: timestamps as an abstract date record (year, month, day, second of day) with their total order.
- `Accounts`: users, role predicates, the `CheckRole` gate, profile resolution and the photo URL fallback.
- `Catalog`: menu and discount rows, the active-discount rules, discounted prices and the model scopes.
- `Orders`: orders and lines, totals, invoice numbers, status colours and labels, and the order scopes.
- `Reporting`: the by-month listings, monthly income and the daily breakdown.
- `Transactions`: the read-side handlers of `TransactionController`.
- `CatalogApi`: the read-side handlers of `MenuController` and `DiskonController`.
- `Requests`: request bodies, their validation rules and the partial-update semantics.
- `Schema`: the tables, their integrity invariant and one transformer per write.
- `Canteen`: the class `Database` with the state-changing handlers.

Modelling choices:
- **Time.** The clock is a parameter `now`.
- **Money.** Money and percentages are exact `real`s. The code never rounds.
- **Missing profile.** A handler that reads `$user->stan->id` or
  `$user->siswa->id` for a user without that profile fails with 500. The
  framework turns the null property access into an exception. Inside
  `TransactionController::store` that exception is caught, the database
  transaction is rolled back, and the handler answers 500. The user's
  `stan` is the id of the profile row; the handlers that store that id in a
  new row (`StoreMenu`, `StoreDiskon`) and `UpdateStanProfile` also answer
  500 when no `stan` row has it, since the relation then resolves to null.
- **Discounted price.** Orders and menu listings price an item with the
  first active discount (`$menu->activeDiskon()->first()`).
  - `Menu::getActiveDiskonPercentageAttribute` uses the maximum instead. Both
    are modelled: `FirstActivePrice` and `MenuDiscountedPrice`.
  - `FirstActivePriceVersusMaximum` relates the two: they agree when at most
    one discount is active.
  - Which active discount comes first depends on the database's row order. The
    model takes it from the order of the `menu_diskon` rows.

## Model

| member | source | states |
|---|---|---|
| Calendar.LeTotal | app/Models/Diskon.php:56-61 | any two timestamps are comparable, so every discount window test has an answer |
| Calendar.LeTransitive | app/Models/Stan.php:79 | the newest-first order on `tanggal` is transitive |
| Calendar.LeAntisymmetric | app/Models/Stan.php:79 | two timestamps each at most the other are equal |
| Calendar.LtIsNotLe | app/Models/Diskon.php:74-86 | `now < tanggal_awal` is exactly "not `tanggal_awal <= now`" |
| Accounts.RolesExclusive | app/Models/User.php:74-85 | `isSiswa` iff role is exactly `siswa`, `isAdminStan` iff role is exactly `admin_stan`, and never both |
| Accounts.ProfileOf | app/Models/User.php:90-93 | a siswa gets the siswa profile; every other role, including unknown ones, gets the stan profile; absent exactly when that relation is missing |
| Accounts.CheckRole | app/Http/Middleware/CheckRole.php:15-21 | the request passes unchanged iff a user is present and the role matches exactly; otherwise 403 |
| Accounts.GateAgreesWithRolePredicates | app/Http/Middleware/CheckRole.php:17-20 | the `siswa` and `admin_stan` gates agree with `isSiswa` and `isAdminStan`; no user means 403 |
| Accounts.SiswaFotoUrl | app/Models/Siswa.php:47-53 | the default image exactly when `foto` is empty, otherwise the stored path |
| Catalog.StatusText | app/Models/Diskon.php:74-86 | `Aktif` iff active, `Akan Datang` iff inactive with `now < tanggal_awal`, `Kedaluwarsa` otherwise |
| Catalog.ScopeActive | app/Models/Diskon.php:91-96 | exactly the discounts whose window contains `now`, rows unchanged |
| Catalog.ScopeUpcoming | app/Models/Diskon.php:101-105 | exactly the discounts with `tanggal_awal > now` |
| Catalog.ScopeExpired | app/Models/Diskon.php:110-113 | exactly the discounts with `tanggal_akhir < now` |
| Catalog.ScopesPartition | app/Models/Diskon.php:91-114 | with `tanggal_awal <= tanggal_akhir` a discount is in exactly one of the three scopes |
| Catalog.StatusTextMatchesScopes | app/Models/Diskon.php:74-114 | with an ordered window, each status text holds iff the discount is in the matching scope |
| Catalog.StanActiveDiskon | app/Models/Stan.php:62-69 | exactly this stan's discounts whose window contains `now` |
| Catalog.ActiveDiskonIds | app/Models/Menu.php:40-74 | a discount counts for a menu iff it is linked through `menu_diskon`, exists and is active at `now` |
| Catalog.MaxDiskonId | app/Models/Menu.php:79-88 | a member of the non-empty active list whose percentage is at least every other's |
| Catalog.ActivePercentage | app/Models/Menu.php:79-88 | 0 with no active discount, otherwise the maximum active percentage, never a sum |
| Catalog.ApplyPercentageBounds | app/Models/Menu.php:97-98 | `harga*(1-p/100)` lies in [0, harga] for `harga >= 0` and `0 <= p <= 100` |
| Catalog.ApplyPercentageAntitone | app/Models/Menu.php:97-98 | a larger percentage never gives a larger price |
| Catalog.ApplyZeroPercentage | app/Models/Menu.php:93-101 | a 0 percentage leaves the price unchanged |
| Catalog.DiscountedPrice | app/Models/Menu.php:93-101 | `harga` when the percentage is not positive, otherwise `harga*(1-p/100)`, within [0, harga] |
| Catalog.DiscountedPriceAntitone | app/Models/Menu.php:93-101 | the discounted price falls as the percentage rises |
| Catalog.MenuDiscountedPrice | app/Models/Menu.php:93-101 | `harga` with no active discount; within [0, harga] for valid rows |
| Catalog.AddingActiveDiscountNeverRaisesPrice | app/Models/Menu.php:79-102 | linking one more active discount never raises the discounted price |
| Catalog.FirstActivePrice | app/Http/Controllers/API/TransactionController.php:145-148 | the price with the first active discount, `harga` when none; within [0, harga] |
| Catalog.FirstActivePriceVersusMaximum | app/Models/Menu.php:79-101 | the maximum-discount price never exceeds the first-discount price, and they agree when at most one discount is active |
| Catalog.ScopeMakanan | app/Models/Menu.php:107-110 | exactly the rows with `jenis` `makanan` |
| Catalog.ScopeMinuman | app/Models/Menu.php:115-118 | exactly the rows with `jenis` `minuman` |
| Catalog.FoodAndDrinkPartitionMenu | app/Models/Menu.php:107-118 | the two scopes are disjoint and cover every menu with a valid `jenis` |
| Orders.Subtotal | app/Models/DetailTransaksi.php:46-49 | `harga_beli*qty`: 0 for no items, the stored price for one, non-negative for valid lines |
| Orders.LinesOf | app/Models/Transaksi.php:53-56 | exactly the lines whose `id_transaksi` is the order |
| Orders.LinesOfAppend | app/Models/Transaksi.php:53-56 | selecting an order's lines distributes over appending rows |
| Orders.Total | app/Models/Transaksi.php:61-70 | sum of the subtotals, non-negative when every line is |
| Orders.TotalAppend | app/Models/Transaksi.php:61-70 | the total of concatenated lines is the sum of the totals |
| Orders.TransaksiTotal | app/Models/Transaksi.php:61-70 | the accumulating loop returns the total of the order's lines, 0 with no lines |
| Orders.Digits | app/Models/Transaksi.php:75-78 | at least one character, all decimal digits |
| Orders.PadLeft | app/Models/Transaksi.php:75-78 | pads to the width with the fill character, keeps the string as suffix, never truncates |
| Orders.InvoiceNumber | app/Models/Transaksi.php:75-78 | `INV-` then the id left-padded with `0` to at least 6 digits; longer ids are not truncated |
| Orders.ParseDigits | app/Models/Transaksi.php:75-78 | reading back the decimal digits of `n` gives `n` |
| Orders.ParseIgnoresLeadingZeros | app/Models/Transaksi.php:75-78 | leading zeros do not change the value read |
| Orders.ZerosParseToZero | app/Models/Transaksi.php:75-78 | a run of zeros reads as 0 |
| Orders.InvoiceRoundTrip | app/Models/Transaksi.php:75-78 | parsing an invoice number gives back the id |
| Orders.StripLeadingZeros | app/Models/Transaksi.php:75-78 | never lengthens the string |
| Orders.DigitsHaveNoLeadingZero | app/Models/Transaksi.php:75-78 | the digits of a positive id do not start with `0` |
| Orders.StripZerosPrefix | app/Models/Transaksi.php:75-78 | stripping the zeros before a string that starts with a non-zero gives that string |
| Orders.InvoiceStripsToDigits | app/Models/Transaksi.php:75-78 | for id >= 1, removing `INV-` and the leading zeros gives the digits of the id |
| Orders.StatusColor | app/Models/Transaksi.php:83-92 | the four statuses map to warning, info, primary, success; anything else to secondary |
| Orders.StatusLabel | app/Models/Transaksi.php:97-106 | the four statuses map to their labels; anything else to `Unknown` |
| Orders.StatusDisplayInjective | app/Models/Transaksi.php:83-106 | distinct valid statuses get distinct labels and colours |
| Orders.ScopeStatus | app/Models/Transaksi.php:111-114 | exactly the orders with the given status |
| Orders.StatusScopesPartition | app/Models/Transaksi.php:111-114 | with enum statuses, each order is in exactly the scope of its own status, the four scopes cover all orders, and any other status selects nothing |
| Orders.ScopeByMonth | app/Models/Transaksi.php:119-123 | exactly the orders whose `tanggal` is in the month and year |
| Reporting.Selection | app/Models/Stan.php:74-81 | exactly the owner's orders in the month |
| Reporting.SortedKeys | app/Models/Stan.php:74-81 | every key of the selection exactly once |
| Reporting.InsertNewest | app/Models/Stan.php:79 | inserting into a newest-first list keeps it newest-first and adds exactly that id |
| Reporting.SortNewestFirst | app/Models/Stan.php:79 | a permutation of the input ordered by `tanggal`, newest first |
| Reporting.MonthListing | app/Models/Stan.php:74-81 | exactly the owner's orders in the month, each once, newest first |
| Reporting.StanTransaksiByMonth | app/Models/Stan.php:74-81 | exactly this stan's orders in the month, each once, newest first |
| Reporting.SiswaTransaksiByMonth | app/Models/Siswa.php:58-64 | exactly this student's orders in the month, each once, newest first |
| Reporting.Income | app/Models/Stan.php:86-98 | sum over the listing of each order's total; non-negative for valid lines |
| Reporting.SumOrderTotals | app/Models/Stan.php:90-95 | the nested loops accumulate exactly the income of the listing |
| Reporting.StanIncomeByMonth | app/Models/Stan.php:86-98 | the income of this stan's orders in the month, 0 when there are none |
| Reporting.IncomeAddLine | app/Models/Stan.php:86-98 | one more line adds its subtotal to the income iff its order is listed |
| Reporting.IncomeIsTotalOfListedLines | app/Models/Stan.php:86-98 | the income is the total of all lines of the listed orders |
| Reporting.IncomeOfNoLines | app/Models/Stan.php:86-98 | with no lines the income is 0 |
| Reporting.DayIncome | app/Http/Controllers/API/StanController.php:105-116 | 0 for a day with no order |
| Reporting.DailyBreakdown | app/Http/Controllers/API/StanController.php:105-116 | a key exactly for each day with an order, even one without lines; each value is that day's income |
| Reporting.DaySumOfBreakdown | app/Http/Controllers/API/StanController.php:105-116 | summing the breakdown over days 1..n is summing the day incomes |
| Reporting.DayIncomeSumStep | app/Http/Controllers/API/StanController.php:105-116 | the day incomes of a listing are those of its prefix plus the last order's total on its day |
| Reporting.DayIncomesAddUpToIncome | app/Http/Controllers/API/StanController.php:102-114 | the day incomes over days 1..31 add up to the monthly income |
| Reporting.NoDayIncome | app/Http/Controllers/API/StanController.php:105-116 | an empty listing has no day income |
| Reporting.OrCurrent | app/Http/Controllers/API/StanController.php:95-96 | a missing or 0 month or year is replaced by the current one |
| Reporting.IncomeByMonth | app/Http/Controllers/API/StanController.php:83-125 | 403 iff not a stan admin, 500 without the stan profile; otherwise `total_income`, `transaction_count` and a breakdown whose values add up to the income |
| Transactions.StanTransactionsByMonth | app/Http/Controllers/API/TransactionController.php:20-45 | 403 for a non-admin, 500 without the profile, else exactly the stan's orders of the month, newest first |
| Transactions.SiswaTransactionsByMonth | app/Http/Controllers/API/TransactionController.php:50-75 | 403 for a non-siswa, 500 without the profile, else exactly the student's orders of the month, newest first |
| Transactions.ViewAccess | app/Http/Controllers/API/TransactionController.php:86-93 | 403 iff a siswa is not the buyer or a stan admin is not the seller; other roles pass |
| Transactions.PartiesMayView | app/Http/Controllers/API/TransactionController.php:86-93 | the buyer and the seller are always let through |
| Transactions.Show | app/Http/Controllers/API/TransactionController.php:80-98 | 404 for an unknown id, then the access rule, else the order with exactly its lines |
| Transactions.CheckStatus | app/Http/Controllers/API/TransactionController.php:219-237 | 404, then the access rule, else the order's status |
| Transactions.CheckStatusAgreesWithShow | app/Http/Controllers/API/TransactionController.php:80-237 | both handlers accept and refuse the same callers with the same status |
| Transactions.PrintNota | app/Http/Controllers/API/TransactionController.php:242-261 | 404, then the access rule, else the order's lines with the loop total equal to the order total |
| CatalogApi.MenuIndex | app/Http/Controllers/API/MenuController.php:16-39 | one stan's menus when `stan_id` is given, else all; each priced with the first active discount, within [0, harga] |
| CatalogApi.MenuShow | app/Http/Controllers/API/MenuController.php:95-108 | 404 iff unknown, else the same priced row `index` shows |
| CatalogApi.DiskonIndex | app/Http/Controllers/API/DiskonController.php:18-41 | as intended (see Findings): a stan admin sees exactly the own stan's discounts (500 without the profile); others see one stan's when given, else all |
| CatalogApi.DiskonIndexAsWritten | app/Http/Controllers/API/DiskonController.php:18-41 | as written: 500 whenever at least one discount is selected; it agrees with the intended listing exactly when that lists nothing |
| CatalogApi.OneDiskonBreaksIndex | app/Http/Controllers/API/DiskonController.php:34 | with one discount stored, a caller who is not a stan admin gets 500 where the intended listing shows that discount |
| CatalogApi.LinkedMenus | app/Http/Controllers/API/DiskonController.php:131 | exactly the menus linked to the discount |
| CatalogApi.DiskonShow | app/Http/Controllers/API/DiskonController.php:129-136 | as intended (see Findings): 404 iff unknown, else the row with exactly its linked menus |
| CatalogApi.DiskonShowAsWritten | app/Http/Controllers/API/DiskonController.php:129-136 | as written: 404 iff unknown, and 500 exactly where the intended handler would show the discount |
| CatalogApi.ActiveDiskonIndex | app/Http/Controllers/API/DiskonController.php:46-67 | as intended (see Findings): the same rows as the `active` scope, or as `Stan::activeDiskon` for a given stan |
| CatalogApi.ActiveDiskonIndexAsWritten | app/Http/Controllers/API/DiskonController.php:46-67 | as written: 500 iff some discount (of the given stan) is active at `now`; otherwise the empty listing |
| CatalogApi.ActiveDiskonBreaksActiveIndex | app/Http/Controllers/API/DiskonController.php:58-61 | one active discount makes the handler answer 500 where the intended listing shows it |
| Requests.NewMenu | app/Http/Controllers/API/MenuController.php:76-84 | the created row carries the request's fields, the caller's stan and a valid `jenis` and price |
| Requests.ApplyMenuPatch | app/Http/Controllers/API/MenuController.php:144-173 | exactly the fields present in the request change; the stan never does |
| Requests.MenuPatchKeepsRowValid | app/Http/Controllers/API/MenuController.php:144-173 | a validated update keeps `jenis` valid and the price non-negative |
| Requests.MenuPatchIdempotent | app/Http/Controllers/API/MenuController.php:144-173 | sending the same update twice equals sending it once |
| Requests.NewDiskon | app/Http/Controllers/API/DiskonController.php:95-104 | the created row carries the request's fields and the caller's stan, with an ordered window and a percentage in [0, 100] |
| Requests.ApplyDiskonPatch | app/Http/Controllers/API/DiskonController.php:171-187 | exactly the fields present in the request change; the stan never does |
| Requests.DiskonPatchKeepsPercentage | app/Http/Controllers/API/DiskonController.php:159-169 | a validated update keeps the percentage in [0, 100] |
| Requests.DiskonPatchWindow | app/Http/Controllers/API/DiskonController.php:159-187 | sending both dates keeps the window ordered; sending none keeps it as it was |
| Requests.SingleDatePatchCanInvertWindow | app/Http/Controllers/API/DiskonController.php:159-187 | a validated update that sends only `tanggal_awal` can put it after `tanggal_akhir` |
| Schema.Filter | database/migrations/2025_05_02_070618_create_menu_diskon_table.php:13-14 | a delete keeps exactly the rows that do not match, in order; nothing is removed iff no row matches |
| Schema.LinesOfFilter | database/migrations/2025_05_02_070621_create_detail_transaksi_table.php:14 | deleting lines and then selecting an order's lines equals selecting and then deleting |
| Schema.FilterLowersTotal | database/migrations/2025_05_02_070621_create_detail_transaksi_table.php:14 | removing lines never raises an order's total |
| Schema.InsertMenuKeepsValid | app/Http/Controllers/API/MenuController.php:76-84 | the new menu gets an unused id, is added and nothing else changes; the tables stay valid |
| Schema.ReplaceMenuKeepsValid | app/Http/Controllers/API/MenuController.php:144-175 | a valid row replacing a menu keeps the tables valid |
| Schema.DeleteMenuKeepsValid | app/Http/Controllers/API/MenuController.php:207 | after the delete no link or order line refers to the menu and the tables stay valid |
| Schema.DeleteMenuDropsLines | database/migrations/2025_05_02_070621_create_detail_transaksi_table.php:14 | each order keeps exactly its lines of other menus, so past totals can only fall |
| Schema.LinksForMembers | app/Http/Controllers/API/DiskonController.php:107-118 | the created links are exactly those from the new discount to listed menus of the caller's stan |
| Schema.LinksForCounts | app/Http/Controllers/API/DiskonController.php:107-118 | a menu listed n times is linked n times; a menu of another stan is not linked |
| Schema.InsertDiskonKeepsValid | app/Http/Controllers/API/DiskonController.php:95-118 | the discount gets an unused id, every new link joins it to a menu of its own stan, the tables stay valid |
| Schema.ReplaceDiskonKeepsValid | app/Http/Controllers/API/DiskonController.php:171-189 | an update keeping the percentage in range keeps the tables valid |
| Schema.DeleteDiskonKeepsValid | app/Http/Controllers/API/DiskonController.php:216-217 | exactly the links of the discount are removed; the tables stay valid |
| Schema.DeletedCount | app/Http/Controllers/API/DiskonController.php:286-294 | the delete reports 0 rows iff the pair was not linked |
| Schema.AttachKeepsValid | app/Http/Controllers/API/DiskonController.php:256-259 | linking an existing menu and discount keeps the tables valid |
| Schema.DetachKeepsValid | app/Http/Controllers/API/DiskonController.php:290-292 | afterwards the pair is not linked; the tables stay valid |
| Schema.AttachThenDetachRestores | app/Http/Controllers/API/DiskonController.php:256-288 | attaching an unlinked pair and detaching it again restores the tables |
| Schema.CatalogEditsKeepOrderTotals | app/Models/DetailTransaksi.php:46-49 | editing menus, discounts or links never touches a stored line, so no order total changes |
| Schema.OrderLine | app/Http/Controllers/API/TransactionController.php:144-156 | the line carries the order id, the item's menu and quantity, and a price within [0, harga] |
| Schema.OrderLines | app/Http/Controllers/API/TransactionController.php:136-157 | one line per item, in request order |
| Schema.OrderTotalAtMostListTotal | app/Http/Controllers/API/TransactionController.php:144-156 | an order never costs more than its items at list price |
| Schema.InsertOrderKeepsValid | app/Http/Controllers/API/TransactionController.php:128-133 | the order gets an unused id and status `belum dikonfirm`; the tables stay valid |
| Schema.InsertOrderLines | app/Http/Controllers/API/TransactionController.php:136-157 | the stored lines of the new order are exactly one per item, in order |
| Schema.SetStatusKeepsValid | app/Http/Controllers/API/TransactionController.php:207-208 | any listed status may replace any other; the order's lines are unchanged |
| Schema.SetStatusMovesScope | app/Http/Controllers/API/TransactionController.php:207-208 | the updated order joins the `status` scope of its new status and leaves every other |
| Schema.ApplyStanPatch | app/Http/Controllers/API/StanController.php:60-72 | exactly the profile fields present in the request change; the owner never does |
| Schema.ReplaceStanKeepsValid | app/Http/Controllers/API/StanController.php:72 | replacing a stan row keeps the tables valid |
| Canteen.Database.constructor | database/migrations/2025_05_02_070614_create_stan_table.php:13-16 | a fresh database holds only the registered stans, with every counter at 1 |
| Canteen.Database.Rollback | app/Http/Controllers/API/TransactionController.php:167-169 | every table gets back its contents from the start of the database transaction |
| Canteen.Database.StoreMenu | app/Http/Controllers/API/MenuController.php:44-90 | 403, then 422, then 500 without the profile or its `stan` row; else 201 with exactly the new row under a fresh id; otherwise nothing changes |
| Canteen.Database.UpdateMenu | app/Http/Controllers/API/MenuController.php:113-179 | 403, 404, 500, 403 for another stan's menu, 422 after ownership; else exactly the present fields change |
| Canteen.Database.DestroyMenu | app/Http/Controllers/API/MenuController.php:184-212 | 403, 404, 500, 403; else the menu is removed with its links and order lines |
| Canteen.Database.StoreDiskon | app/Http/Controllers/API/DiskonController.php:72-124 | as intended (see Findings): 403, 422, 500 without the profile or its `stan` row; else 201 with the discount under a fresh id and one link per listed menu of the caller's stan; otherwise nothing changes |
| Canteen.Database.StoreDiskonAsWritten | app/Http/Controllers/API/DiskonController.php:72-124 | as written: never 201; 403, 422, else 500, and when the profile exists the discount and its links are stored all the same |
| Canteen.Database.UpdateDiskon | app/Http/Controllers/API/DiskonController.php:141-193 | as intended (see Findings): 403, 404, 500, 403 for another stan's discount, 422 after ownership; else 200 and exactly the present fields change |
| Canteen.Database.UpdateDiskonAsWritten | app/Http/Controllers/API/DiskonController.php:141-193 | as written: never 200; the same 403, 404, 500, 403, 422 chain, and where the intended handler answers 200 it answers 500 with the update saved |
| Canteen.Database.DestroyDiskon | app/Http/Controllers/API/DiskonController.php:198-222 | 403, 404, 500, 403; else the discount is removed with its links |
| Canteen.Database.AttachMenu | app/Http/Controllers/API/DiskonController.php:227-266 | 403, 404 for either row, 500, 403 unless both are the caller's, 422 for a linked pair; else exactly one link is added |
| Canteen.Database.DetachMenu | app/Http/Controllers/API/DiskonController.php:271-303 | 403, 404, 500, 403 on the discount only; 422 iff the pair was not linked; else every link of the pair is removed |
| Canteen.Database.PlaceOrder | app/Http/Controllers/API/TransactionController.php:103-176 | 403, 422; 500 with nothing changed without the profile or with an item of another stan; else 201 with one pending order and one line per item |
| Canteen.Database.UpdateStatus | app/Http/Controllers/API/TransactionController.php:181-214 | 403, 422 before lookup, 404, 500, 403 for another stan's order; else only that order's status changes |
| Canteen.Database.UpdateStanProfile | app/Http/Controllers/API/StanController.php:39-78 | 403, 422, 500 without the own stan row; else exactly the present profile fields change |

## Left out

- Authentication: issuing, refreshing and invalidating JWTs, password
  hashing, `getJWTIdentifier` and `getJWTCustomClaims`. These are library
  calls; the model receives the authenticated `User` as a parameter.
- Files and photos: `Storage` writes and deletes, `asset()` URL building,
  and the image type and size rules on uploaded photos. A newly stored
  photo name is a parameter of `StoreMenu` and `UpdateMenu`.
- The student and customer CRUD of `SiswaController` and `StanController`,
  and `StanController::profile`. They are outside the ordering core.
- The PDF and base64 part of `printNota` and the receipt view. Only the
  total is modelled.
- Routing. `routes/api.php` is only used to know which role gate guards
  each handler. Its route order is not modelled.
- Floating point. `harga`, `harga_beli` and `persentase_diskon` are SQL
  doubles; the model uses exact reals.
- Dates. Carbon parsing and the extraction of month, year and day are not
  modelled: timestamps are already-parsed records, and `now` is a
  parameter. Route parameters for month and year are `Option<int>`; a
  non-numeric value is not modelled.
- Request typing. A field of the wrong type (a non-numeric `harga`, a
  non-array `items`) is not modelled; fields are absent or well-typed.
- Row order for ties. The by-month listings order by `tanggal` only. The
  order of rows with equal `tanggal` depends on the database. The model
  sorts the primary keys ascending, then applies an insertion sort, and
  proves only the newest-first order and the permutation.
- Canteen.Database.PlaceOrder: a rolled-back order may still consume an
  auto-increment id in the database. The model restores the counter too.
- Concurrency. Two requests interleaving, and last-write-wins updates, are
  not modelled.
- Requests.DiskonPatchValid: `after_or_equal:tanggal_awal` is read as
  comparing the two dates of the request only. When just one date is sent,
  nothing is compared, so the stored window can end up inverted
  (`Requests.SingleDatePatchCanInvertWindow`).
- The `siswa` table and the foreign key `transaksi.id_siswa`: the student
  CRUD is outside the ordering core, so an order's `id_siswa` is taken from
  the user's profile without checking it against a table.
- The linked menus in the intended `DiskonController` responses: only
  `DiskonShow` returns them (as ids); the listings return the discount rows.

## Findings

| source | as written | input that shows it | evidently intended | confidence | as-written member | corrected member |
|---|---|---|---|---|---|---|
| app/Http/Controllers/API/DiskonController.php:18-41 | `index` eager-loads `menuDiskon.menu`, a relation `Diskon` does not declare, so loading it throws once a row is selected | any caller who is not a stan admin, no `stan_id`, one stored discount: 500 | load the declared relation `menu` and list the discounts | high, not executed | CatalogApi.DiskonIndexAsWritten | CatalogApi.DiskonIndex |
| app/Http/Controllers/API/DiskonController.php:46-67 | `getActiveDiskon` eager-loads `menuDiskon.menu` as well | one discount whose window contains `now`: 500 | list the active discounts | high, not executed | CatalogApi.ActiveDiskonIndexAsWritten | CatalogApi.ActiveDiskonIndex |
| app/Http/Controllers/API/DiskonController.php:129-136 | `show` eager-loads `menuDiskon.menu` before `findOrFail` returns | any existing discount id: 500 | the discount with its linked menus | high, not executed | CatalogApi.DiskonShowAsWritten | CatalogApi.DiskonShow |
| app/Http/Controllers/API/DiskonController.php:72-124 | `store` writes the discount and its links, then `load('menuDiskon.menu')` throws; there is no database transaction | a stan admin with a profile and a valid body: 500, and the rows stay | 201 with the new discount | high, not executed | Canteen.Database.StoreDiskonAsWritten | Canteen.Database.StoreDiskon |
| app/Http/Controllers/API/DiskonController.php:141-193 | `update` saves the row, then `load('menuDiskon.menu')` throws | the owning stan admin with a valid patch: 500, and the update is saved | 200 with the updated discount | high, not executed | Canteen.Database.UpdateDiskonAsWritten | Canteen.Database.UpdateDiskon |
