# Modern Tracker: license and inventory rules in Dafny

Modern Tracker is a Django REST backend with a Next.js client. A user
activates a license (serial) key. With a valid key whose plan includes
inventory, the user reaches the owner-scoped inventory endpoints that the
inventory URL router registers:
- products, with a low-stock list;
- the stock table, which inventory transactions update;
- purchase and sales orders, which post such transactions when completed;
- the analytics dashboard of totals.

The client's inventory page turns the product list into table rows with a
stock status, a category label and a status badge, and filters them with a
search box. Its sidebar is an accordion menu.

This project models those rules as immutable data and pure functions, lifted
off the ORM and HTTP layers. Times, the generated uuid text and the database
rows are parameters. Each modelled endpoint is a function from the tables and
the request to a response and the new tables. The inventory endpoints are
modelled for a request that has already passed the inventory permission,
which is modelled separately. "## Left out" lists the endpoints and view sets
that are not modelled.

| file | module | models |
|---|---|---|
| `wrappers.dfy` | `Wrappers`, `Http` | `Option`, `Result`, and a response as a status code plus a body |
| `text.dfy` | `Text` | Python's `strip`, `upper` and `replace('-', '')`; JavaScript's `toLowerCase` and `includes`; decimal text of a number |
| `seqs.dfy` | `Seqs` | order-preserving filter, subsequences, sums over sequences |
| `core_models.dfy` | `Accounts` | the user manager, `SerialKey.save` key formatting, `is_valid`, the key table and its one-to-one user field |
| `core_views.dfy` | `Activation` | `activate_key_view` as `(store, user, input, now) -> (response, store')` |
| `inventory_permissions.dfy` | `InventoryAccess` | `HasInventoryAccess.has_permission` as an ordered chain of checks |
| `inventory_models.dfy` | `Inventory` | the inventory tables, the stock update on a transaction's first save, `total_price`, `total_stock`, the per-owner `unique_together` constraints |
| `inventory_serializers.dfy` | `InventorySerializers` | `OrderSerializer.create`, product creation, read-only owner fields |
| `inventory_views.dfy` | `InventoryViews` | owner scoping, `complete_order`, `low_stock`, `dashboard_stats` |
| `inventory_page.dfy` | `InventoryPage` | the page's status mapping, category label, search filter and badge helpers |
| `sidebar.dfy` | `Sidebar` | the menu, `toggleMenu`, and sub-menu visibility |

## Representation choices
- **Decimal amounts.** `Decimal(…, 2)` amounts (stock quantities, prices,
  transaction quantities) are integers counting hundredths.
  - An order line's `quantity` is a whole number of units, so the transaction
    it becomes carries 100 times that many hundredths.
  - The dashboard valuation multiplies two hundredths, so it is counted in
    ten-thousandths.
  - The page's status threshold is in whole units and is compared with
    `100 * threshold` hundredths.
- **Stock table.** The table is a sequence of (product, location, quantity)
  rows in insertion order.
  - `Quantity(rows, p, l)` reads it as the map from a (product, location)
    cell to its quantity.
  - A missing cell reads as 0, the field's default. "## Left out" says why
    the source's arithmetic on a freshly created cell differs.
  - The lookup returns the first matching row.
- **Key table.** The key table is a map from key text to record, so key texts
  are unique by construction.
  - The one-to-one user field is the invariant `OneKeyPerUser`.
  - A successful activation releases every key the requester owns. While the
    invariant holds, that is exactly the one old key `request.user.serial_key`
    that the view releases.
- **Sidebar collapse.** The sidebar's collapsed flag belongs to the page that
  renders it. It is modelled together with `expandedMenu` in one state, and
  the collapse button is one more event.

## Model
| member | source | states |
|---|---|---|
| Text.Strip | BACKEND/core/views.py:20 | the stripped key neither starts nor ends with whitespace |
| Text.StripIsSlice | BACKEND/core/views.py:20 | the stripped key is a slice of the sent text with only whitespace cut off before and after it |
| Text.StripEmptyIffAllSpace | BACKEND/core/views.py:20-23 | a key strips to the empty string exactly when it is all whitespace |
| Text.StripIdempotent | BACKEND/core/views.py:20 | stripping a stripped key changes nothing |
| Text.StripDashes | BACKEND/core/models.py:53 | removing dashes leaves no dash, and a dash-free string is left as it is |
| Text.StripDashesLength | BACKEND/core/models.py:53 | removing dashes shortens the text by exactly its number of dashes |
| Accounts.StripDashesIsFilter | BACKEND/core/models.py:53 | removing dashes is filtering on "not a dash": every other character is kept, in order |
| Text.StripDashesAppend | BACKEND/core/models.py:53 | removing dashes works piece by piece over concatenation |
| Text.LowerOfUpper | FRONTEND/modern_tracker/src/app/inventory/page.tsx:236 | lower-casing an upper-cased term gives the lower-cased term |
| Text.ContainsPrefix | FRONTEND/modern_tracker/src/app/inventory/page.tsx:236 | a text that includes `a + b` includes `a` |
| Text.DecimalRoundTrip | FRONTEND/modern_tracker/src/app/inventory/page.tsx:84 | the decimal text of a number reads back as that number |
| Seqs.Filter | FRONTEND/modern_tracker/src/app/inventory/page.tsx:235-236 | the kept elements are exactly those passing the test, and they form an order-preserving subsequence |
| Seqs.FilterMultiset | FRONTEND/modern_tracker/src/app/inventory/page.tsx:235-236 | the filter keeps every occurrence of a passing element and no occurrence of a failing one |
| Seqs.FilterNarrower | FRONTEND/modern_tracker/src/app/inventory/page.tsx:236 | a stricter test keeps a subsequence of what a looser test keeps |
| Accounts.CreateUser | BACKEND/core/models.py:9-15 | fails with the phone-required error exactly when the phone is empty; succeeds exactly when the phone is non-empty and not in use, adding exactly the new user and changing no other user |
| Accounts.SetDefault | BACKEND/core/models.py:18-19 | a field the caller supplied is kept; a missing one becomes the default |
| Accounts.CreateSuperuser | BACKEND/core/models.py:17-21 | an empty phone fails with the phone-required error; creation succeeds exactly when the phone is non-empty and not in use, adding exactly the new user and changing no other user; the staff and superuser flags are the caller's values, or true when not supplied |
| Accounts.SuperuserDefaults | BACKEND/core/models.py:18-19 | without explicit flags a new superuser is staff and superuser; explicit false values are kept |
| Accounts.FormatKeyDigits | BACKEND/core/models.py:53-55 | removing the dashes of a generated key gives the first 16 characters of the dash-free, upper-cased uuid, in order |
| Accounts.UuidDigits | BACKEND/core/models.py:53 | a uuid's text without dashes is 32 hex digits |
| Accounts.FormatKeyShape | BACKEND/core/models.py:53-55 | a key generated from a uuid is 19 characters: four groups of four upper-case hex digits joined by dashes |
| Accounts.FormatKey | BACKEND/core/models.py:53-55 | a generated key is never longer than 19 characters, and is exactly 19 when the uuid has at least 16 characters besides dashes |
| Accounts.KeyOnSave | BACKEND/core/models.py:51-57 | a non-empty key is never altered by save; an empty key is replaced by one whose characters, dashes removed, are the first 16 of the dash-free, upper-cased uuid, and which is well formed when the uuid is |
| Accounts.ValidWindow | BACKEND/core/models.py:59-62 | both ends of the window are valid, validity holds between any two valid instants, and a reversed window is never valid |
| Accounts.KeyOf | BACKEND/core/models.py:38-44 | `user.serial_key` exists exactly when the user owns a key, and it is a key the user owns |
| Activation.ReleaseKeysOf | BACKEND/core/views.py:44-47 | afterwards the user owns no key; the user's keys become unowned and no other key changes |
| Activation.Claim | BACKEND/core/views.py:44-51 | the key's owner becomes the user, the user's other keys become unowned, and every other key is untouched |
| Activation.ActivateKey | BACKEND/core/views.py:22-53 | the store changes only with the activated answer; a 200 leaves the key owned by the requester; the set of keys never changes |
| Activation.TrimmedKey | BACKEND/core/views.py:20 | the key the view looks up never starts or ends with whitespace |
| Activation.Activate | BACKEND/core/views.py:19-56 | the same, for the untrimmed request field |
| Activation.ActivateTrimsFirst | BACKEND/core/views.py:20 | the answer depends only on the stripped key |
| Activation.BlankKeyRefused | BACKEND/core/views.py:20-23 | an absent, empty or all-whitespace key gives 400 "Key is required." and the store unchanged |
| Activation.UnknownKeyRefused | BACKEND/core/views.py:55-56 | a key missing from the store gives 404 and the store unchanged |
| Activation.ForeignKeyRefused | BACKEND/core/views.py:30-31 | a key owned by someone else gives 409 and the store unchanged |
| Activation.ExpiredKeyRefused | BACKEND/core/views.py:38-39 | an unowned key whose end is before now gives 400 "This key has expired." and the store unchanged |
| Activation.KeyEndingNowAccepted | BACKEND/core/views.py:38-39 | the expiry comparison is strict: a key ending exactly now is activated |
| Activation.ActivateIdempotent | BACKEND/core/views.py:34-35 | after any 200 answer, the same request answers "already active" and changes nothing |
| Activation.ActivationEffect | BACKEND/core/views.py:44-51 | a successful activation was of an unowned, unexpired key, which now belongs to the requester; the requester's other keys are released and all other keys are untouched |
| Activation.ClaimPreservesOneKeyPerUser | BACKEND/core/views.py:44-51 | claiming an unowned key keeps one key per user |
| Activation.ActivatePreservesOneKeyPerUser | BACKEND/core/views.py:19-56 | every outcome of the endpoint keeps one key per user |
| Activation.ActivationLeavesOneKey | BACKEND/core/views.py:44-51 | after a successful activation the requester owns exactly the activated key |
| InventoryAccess.HasInventoryAccess | BACKEND/inventory/permissions.py:10-34 | a denial always carries one of the four messages |
| InventoryAccess.FirstFailure | BACKEND/inventory/permissions.py:12-34 | a chain grants exactly when every check passes; otherwise it denies with the message of the first failing check |
| InventoryAccess.PermissionIsFirstFailure | BACKEND/inventory/permissions.py:12-32 | the permission equals the chain anonymous / no key / plan / expiry run in that order |
| InventoryAccess.GrantIffEntitled | BACKEND/inventory/permissions.py:10-34 | access is granted exactly to an authenticated user whose key includes inventory and is valid now |
| InventoryAccess.PlanCheckedBeforeExpiry | BACKEND/inventory/permissions.py:25-32 | a key without the inventory feature is refused with the plan message, whatever its validity |
| Inventory.ItemsOf | BACKEND/inventory/views.py:73 | an order's item list holds exactly the lines that point at that order |
| Inventory.TotalPrice | BACKEND/inventory/models.py:172-174 | a line's total is never negative when its unit price is not, and a line of at least one unit costs at least one unit price |
| Inventory.TotalPriceIsUnitsPrice | BACKEND/inventory/models.py:172-174 | a line's total equals its unit price added once for each of its units |
| Inventory.CellIndex | BACKEND/inventory/models.py:141 | the lookup finds the first row of the (product, location) cell, or reports that no row has it |
| Inventory.NoRowsNoStock | BACKEND/inventory/serializers.py:30-31 | a product without stock rows has a total stock of 0 |
| Inventory.AdjustAt | BACKEND/inventory/models.py:141-143 | get-or-create then adjust moves the cell by the adjustment, a missing cell starting from 0, and moves no other cell; the cell exists afterwards, and no cell appears that did not exist before |
| Inventory.AdjustUnique | BACKEND/inventory/models.py:111-112 | an adjustment never duplicates a (product, location) cell |
| Inventory.AdjustCells | BACKEND/inventory/models.py:141-143 | after an adjustment the cell exists and every earlier cell still does |
| Inventory.AdjustTotalAt | BACKEND/inventory/models.py:141-143 | an adjustment moves its product's total by the adjustment and no other product's total |
| Inventory.SaveTransactionEffect | BACKEND/inventory/models.py:137-150 | re-saving a stored transaction changes no stock; a first save moves each cell of its product by the inflow at that location (quantity in at the destination, out at the source) and no other product's cells |
| Inventory.SaveTransactionAt | BACKEND/inventory/models.py:139-148 | the same, for one cell |
| Inventory.SaveTransactionCells | BACKEND/inventory/models.py:139-148 | the source and destination cells exist after the save, and so does every earlier cell |
| Inventory.SaveTransactionUnique | BACKEND/inventory/models.py:137-150 | saving a transaction never duplicates a cell |
| Inventory.SaveTransactionHasCell | BACKEND/inventory/models.py:139-148 | after a first save the cells are exactly the earlier ones plus the transaction's source and destination cells |
| Inventory.SaveTransactionTotal | BACKEND/inventory/models.py:139-148 | a first save moves its product's total by the net inflow and leaves every other product's total |
| Inventory.TransferConservesTotal | BACKEND/inventory/models.py:140-148 | a transaction with both a source and a destination leaves its product's total stock unchanged |
| Inventory.SaveAll | BACKEND/inventory/views.py:73-85 | saving transactions in turn moves each cell by the sum of their inflows there |
| Inventory.SaveAllUnique | BACKEND/inventory/views.py:73-85 | saving transactions in turn keeps cells unique |
| Inventory.Insert | BACKEND/inventory/models.py:65-66 | an insert is refused exactly when a row with the same key exists; otherwise it adds exactly the new row and keeps the constraint |
| Inventory.SkuUniquePerOwner | BACKEND/inventory/models.py:65-66 | a product is refused exactly when the same owner already has that SKU; other owners' SKUs never interfere |
| Inventory.CategoryNameUniquePerOwner | BACKEND/inventory/models.py:22-24 | a category is refused exactly when the same owner already has that name |
| InventorySerializers.CreateOrder | BACKEND/inventory/serializers.py:68-75 | the new order belongs to the requester with the sent type, customer and status (DRAFT by default); its lines are exactly the entries sent; other orders, other orders' lines and the other tables are unchanged |
| InventorySerializers.CreatedLines | BACKEND/inventory/serializers.py:73-74 | the new order's lines are exactly the appended ones, and other orders' lines are unchanged |
| InventorySerializers.OrderWithoutItems | BACKEND/inventory/serializers.py:69 | an order sent without `items_data` has no lines |
| InventorySerializers.OrderOwnerReadOnly | BACKEND/inventory/serializers.py:60 | the owner a client sends does not affect the created order |
| InventorySerializers.CreateProduct | BACKEND/inventory/views.py:25-27 | the product is stamped with the requester as owner, with a threshold of 10 by default, and refused exactly when the requester already has that SKU; on success exactly the new product is added and every existing product is unchanged |
| InventorySerializers.ProductOwnerReadOnly | BACKEND/inventory/serializers.py:20 | the owner a client sends does not affect the created product |
| InventoryViews.ScopeInsert | BACKEND/inventory/views.py:21-27 | adding a row owned by one user changes only that user's scoped list, by that row |
| InventoryViews.CreateProductIsolation | BACKEND/inventory/views.py:21-27 | a product the requester creates is found by the requester's own detail lookup, and every other user's product list is exactly what it was |
| InventoryViews.Retrieve | BACKEND/inventory/views.py:60 | a detail lookup succeeds exactly for the requester's own rows; any other id is 404 |
| InventoryViews.LineTransaction | BACKEND/inventory/views.py:74-85 | an order line becomes a transaction of its product, owned by the requester, adding its units at the location for a PO and removing them for an SO, touching no other location; it is OUT exactly for an SO |
| InventoryViews.LineTransactions | BACKEND/inventory/views.py:73-85 | one transaction per order line, in the lines' order, each the transaction of that line |
| InventoryViews.LinesInflow | BACKEND/inventory/views.py:73-85 | an order's transactions together move each cell of the location by the order's units of that product, and no other cell |
| InventoryViews.CompleteOrder | BACKEND/inventory/views.py:58-89 | a refused request changes nothing; a processed one leaves the order COMPLETED |
| InventoryViews.CompleteOrderProcessed | BACKEND/inventory/views.py:58-89 | a processed request was for the requester's uncompleted order and a location in one of the requester's warehouses; it posted the order's lines there and marked the order completed |
| InventoryViews.CompleteOrderRefusals | BACKEND/inventory/views.py:60-71 | another owner's or a missing order gives 404; a completed order gives 400; a missing or zero location gives 400; a foreign location gives 403; none of these changes anything; every other status is accepted |
| InventoryViews.CompleteOrderOnce | BACKEND/inventory/views.py:62-88 | completing an order a second time is refused with 400 and changes nothing |
| InventoryViews.CompleteOrderStock | BACKEND/inventory/views.py:73-85 | completing a PO adds each product's ordered units at the location; an SO removes them; every other cell is unchanged |
| InventoryViews.LowStockByCells | BACKEND/inventory/views.py:35-40 | while (product, location) cells are unique, a product is listed exactly when it is the requester's and one of its cells holds at most its threshold |
| InventoryViews.SaveTransactionLowStockOthers | BACKEND/inventory/models.py:137-150 | saving a new transaction never adds or removes any product but its own from the low-stock list |
| InventoryViews.SaveTransactionMarksLow | BACKEND/inventory/models.py:137-150 | a new transaction that leaves a cell of one of the requester's products at or below the threshold puts the product on the list |
| InventoryViews.DashboardStats | BACKEND/inventory/views.py:117-139 | the low-stock count never exceeds the product count |
| InventoryViews.LowStockAtMostOwned | BACKEND/inventory/views.py:121-124 | the low-stock count is at most the requester's product count |
| InventoryViews.NoRowsNotLow | BACKEND/inventory/views.py:124 | a product without stock rows is never counted as low |
| InventoryViews.NoSalesNoItemsSold | BACKEND/inventory/views.py:132 | with no OUT transactions of the requester, items sold is 0 |
| InventoryViews.AdjustValuation | BACKEND/inventory/views.py:128-129 | adjusting a cell moves the valuation by the adjustment times the cost price when the product is the requester's, and not otherwise |
| InventoryViews.MoveKeepsValuation | BACKEND/inventory/views.py:128-129 | a debit and an equal credit of the same product leave the valuation unchanged |
| InventoryViews.TransferKeepsValuation | BACKEND/inventory/views.py:128-129 | saving a transfer between two locations leaves the requester's valuation unchanged |
| InventoryViews.CompleteOrderItemsSold | BACKEND/inventory/views.py:131-132 | completing an SO adds its units to items sold; completing a PO adds nothing |
| InventoryViews.SoldUnitsOfLines | BACKEND/inventory/views.py:132 | an SO's transactions sum to its units in items sold; a PO's add nothing |
| InventoryPage.StatusOf | FRONTEND/modern_tracker/src/app/inventory/page.tsx:76-78 | reading a status string gives the status whose label it is, or nothing when no status has that label |
| InventoryPage.LabelRoundTrip | FRONTEND/modern_tracker/src/app/inventory/page.tsx:76-78 | the three labels are distinct and read back as their status |
| InventoryPage.Classify | FRONTEND/modern_tracker/src/app/inventory/page.tsx:76-78 | out of stock exactly when the total is at most 0; low exactly when it is positive and at most the threshold; in stock exactly otherwise |
| InventoryPage.ClassifyMonotone | FRONTEND/modern_tracker/src/app/inventory/page.tsx:76-78 | more stock never gives a worse status; a higher threshold never gives a better one |
| InventoryPage.NoStockRowsOutOfStock | FRONTEND/modern_tracker/src/app/inventory/page.tsx:77 | a product without stock rows reads "Out of Stock" whatever its threshold |
| InventoryPage.CategoryLabel | FRONTEND/modern_tracker/src/app/inventory/page.tsx:84 | the label is "Uncategorized" exactly when the category is missing or 0 |
| InventoryPage.CategoryLabelRoundTrip | FRONTEND/modern_tracker/src/app/inventory/page.tsx:84 | a present category's label gives its id back; the fallback label gives none |
| InventoryPage.MapProduct | FRONTEND/modern_tracker/src/app/inventory/page.tsx:75-95 | each row gets one of the three statuses, the one its total and threshold classify to; the category label of its category, which is the fallback exactly when the category is missing or 0; the product's id, name, SKU and total |
| InventoryPage.Search | FRONTEND/modern_tracker/src/app/inventory/page.tsx:235-236 | the shown rows are an order-preserving subsequence of the rows, a row is shown exactly when its lower-cased name or SKU includes the lower-cased term, and every occurrence of a matching row is kept |
| InventoryPage.EmptySearchKeepsAll | FRONTEND/modern_tracker/src/app/inventory/page.tsx:236 | an empty term shows every row |
| InventoryPage.SearchIgnoresCase | FRONTEND/modern_tracker/src/app/inventory/page.tsx:236 | typing the term in lower or upper case shows the same rows |
| InventoryPage.SearchNarrows | FRONTEND/modern_tracker/src/app/inventory/page.tsx:236 | extending the term only removes rows |
| InventoryPage.StatusColor | FRONTEND/modern_tracker/src/app/inventory/page.tsx:136-143 | the default colour is given exactly to a string that is not one of the three status labels |
| InventoryPage.StatusIcon | FRONTEND/modern_tracker/src/app/inventory/page.tsx:145-152 | the default icon is given exactly to a string that is not one of the three status labels |
| InventoryPage.BadgeDistinguishesStatuses | FRONTEND/modern_tracker/src/app/inventory/page.tsx:136-152 | the three statuses get distinct colours and icons, none of them the default; any other string gets the default |
| InventoryPage.MappedRowsHaveBadges | FRONTEND/modern_tracker/src/app/inventory/page.tsx:136-152 | every mapped row gets a non-default colour and icon |
| Sidebar.Entries | FRONTEND/modern_tracker/src/components/Sidebar.tsx:142-158 | the rendered entries are exactly those of the groups |
| Sidebar.AdminNamesDistinct | FRONTEND/modern_tracker/src/components/Sidebar.tsx:48-85 | the ADMIN entries have distinct names |
| Sidebar.VendorNamesDistinct | FRONTEND/modern_tracker/src/components/Sidebar.tsx:86-101 | the VENDOR entries have distinct names |
| Sidebar.AdminVendorNamesDisjoint | FRONTEND/modern_tracker/src/components/Sidebar.tsx:48-101 | no ADMIN entry shares a name with a VENDOR entry |
| Sidebar.MenuEntries | FRONTEND/modern_tracker/src/components/Sidebar.tsx:48-102 | the rendered entries are the ADMIN entries followed by the VENDOR entries |
| Sidebar.MenuNamesDistinct | FRONTEND/modern_tracker/src/components/Sidebar.tsx:48-102 | no two entries of the menu share a name |
| Sidebar.ToggleMenu | FRONTEND/modern_tracker/src/components/Sidebar.tsx:36-46 | collapsed: nothing changes; otherwise the open menu is cleared exactly when it was the toggled one, and otherwise becomes the toggled one |
| Sidebar.ToggleTwice | FRONTEND/modern_tracker/src/components/Sidebar.tsx:41-44 | toggling a closed entry twice closes every sub-menu; toggling the open one twice restores it |
| Sidebar.Step | FRONTEND/modern_tracker/src/components/Sidebar.tsx:162-164 | a click on an entry without sub-items changes nothing; the collapse button flips collapse and keeps the open menu |
| Sidebar.AtMostOneSubMenu | FRONTEND/modern_tracker/src/components/Sidebar.tsx:191 | in a menu with distinct names at most one sub-menu is shown, and none while collapsed |
| Sidebar.ClickOpensOnlyThat | FRONTEND/modern_tracker/src/components/Sidebar.tsx:162-191 | clicking a closed parent entry on an expanded sidebar shows its sub-menu and no other |
| Sidebar.CollapseRestores | FRONTEND/modern_tracker/src/components/Sidebar.tsx:132-137 | collapsing and expanding again restores the state |
| Sidebar.RunKeepsConsistent | FRONTEND/modern_tracker/src/components/Sidebar.tsx:162-164 | clicks on a menu's entries keep the open name that of an entry with sub-items |
| Sidebar.RunShowsAtMostOne | FRONTEND/modern_tracker/src/components/Sidebar.tsx:34-46 | from the initial state, any actions leave at most one sub-menu shown, belonging to an entry with sub-items |
| Sidebar.MenuShowsAtMostOne | FRONTEND/modern_tracker/src/components/Sidebar.tsx:34-191 | the same for the sidebar's own menu |

## Left out
- The ORM, persistence and HTTP plumbing are left out: routers, serializers' field lists, JWT views, and `Response` objects beyond a status code and a message. Tables are maps and sequences; answers are values.
- The clock (`timezone.now`) and `uuid4` are parameters (`now`, the uuid text), not modelled.
- Concurrency is left out. Neither `activate_key_view` nor `complete_order` runs in a database transaction, and races between requests are not modelled.
- Accounts.CreateUser: the password hash (`set_password`) and the other user fields are not modelled. A flag the caller leaves out is false, Django's default for those fields.
- Activation.Activate: the key field is modelled as a JSON string or absent. A JSON `null`, number, boolean, list or object has no `strip` method, so `.strip()` raises and the answer is 500; the model reads an absent field as empty and has none of these values.
- Activation.Activate: an anonymous request is refused with 401 by `IsAuthenticated` before the view runs; the model always has a requesting user.
- The `allow_inventory` switch is read by the permission but is not a field of `SerialKey` in `BACKEND/core/models.py`; it is modelled as a boolean on the key record.
- Text.Upper, Text.Lower: case mapping covers ASCII letters only. The uuid text is ASCII hex, but product names and SKUs searched on the page may contain letters that JavaScript's `toLowerCase` maps and this model does not.
- InventoryViews.CompleteOrder, InventoryViews.LowStock, InventoryViews.DashboardStats, InventorySerializers.CreateProduct, InventorySerializers.CreateOrder: these endpoint models assume the request has already passed `IsAuthenticated` and `HasInventoryAccess` (`BACKEND/inventory/views.py:19`, `:114`). They take no key store or clock, and never give the 401 or 403 answers those checks produce. The permission itself is `InventoryAccess.HasInventoryAccess`, modelled on its own.
- InventoryViews.CompleteOrder: `location_id` is modelled as a JSON integer or absent, where absent and 0 are the falsy values. `request.data.get('location_id')` (`BACKEND/inventory/views.py:66`) is the raw JSON value. A string `"0"` is truthy, passes the missing-location check, and gets 403 from the location filter, where the model's `Some(0)` gets 400. A non-numeric string makes the `id=` lookup raise, which is a 500. Neither is modelled.
- Inventory.SaveTransaction: the model assumes the quantity arithmetic succeeds. A stock row that `get_or_create` creates holds its field default `0.00` as a Python float (`BACKEND/inventory/models.py:109`). Subtracting or adding a `Decimal` transaction quantity to it (`:142`, `:147`) then raises `TypeError`. So the first transaction through a new cell fails in the source, and a transfer into a new destination cell fails after its source cell has already been debited and saved (`:141-143`), losing that stock. `TransferConservesTotal` and `SaveTransactionEffect` describe the intended arithmetic, not that failure. `complete_order` posts whole-number quantities, which a float accepts, so its path is unaffected.
- Inventory.CellIndex: the stock table's unique key also includes `batch`, which the model leaves out. With several rows of one (product, location) in different batches, `get_or_create` raises; the model adjusts the first such row.
- Inventory.Adjust: `max_digits` limits on decimals are not modelled; quantities are unbounded integers.
- InventorySerializers.CreateOrder: each `items_data` entry is modelled as a line that does get created, with the shape `{product_id, quantity, unit_price}`. The source passes every key of each raw entry to `OrderItem.objects.create(order=order, **item)` unchecked (`BACKEND/inventory/serializers.py:62`, `:74`). Only a `product_id` key creates a line. The natural `product` key, the name `OrderItemSerializer` uses (`:57`), carries a JSON integer that Django's foreign-key descriptor rejects with a `ValueError`. Other cases also raise: a key that names no field, and an `order` key that clashes with the serializer's own `order=` argument. In each of these cases the order row saved at `:71` stays without its lines and the answer is 500. None of these failures is modelled. Extra keys that do name fields reach the model constructor unvalidated.
- InventoryViews.Retrieve: the 404 body text "Not found." is the older Django REST framework wording; later releases name the model ("No Order matches the given query."). Only the 404 status is version-independent.
- InventorySerializers.CreateOrder: the source creates the order and then its lines one at a time, so a line that fails to save leaves a partly created order; the model creates the order and all its lines in one step.
- InventoryPage.MapProduct: `parseFloat(p.selling_price)`, the image, bin, supplier and unit fields are display data and are not modelled; `total_stock` arrives as a number of hundredths instead of a float.
- The Tailwind class strings are kept only as values to compare; rendering, the mobile `isOpen` overlay, icons in the menu, and the fetch/redirect logic of the page are not modelled.
- `current_user_view` (`BACKEND/core/views.py:12-16`) and the JWT token views are not modelled: they only serialize the requester or issue tokens.
- The stock view set (`BACKEND/inventory/views.py:102-108`) is not modelled: neither its listing filtered by the product's owner nor its create, update and delete, which write stock rows directly. The model changes stock only through transactions.
- The supplier, category, warehouse and location view sets (`BACKEND/inventory/views.py:42-53`, `:93-99`) are defined but not registered by `BACKEND/inventory/urls.py`, so they are not reachable; only the per-owner uniqueness of categories is modelled.
- `FRONTEND/modern_tracker/src/app/page.tsx`, `Header.tsx`, `next.config.ts` and the two `admin.py` files are display code or configuration and are not part of this model.
