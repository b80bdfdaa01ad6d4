# Cafe stock management: the keyed record lists and stock rules

The cafe stock system keeps two tables, products (name, price, quantity) and suppliers (name,
contact, category). Each is held in memory as an ordered list of records and rewritten in full
to its CSV file after a change. Records are found by name, case-insensitively, and the first
match in list order wins. On top of the product list sit the stock rules: receiving a
delivery, recording a sale (refused when stock is short), a manual adjustment, and a
low-stock query with a suggested reorder amount.

The repository has several variants of this store, and they differ. Each one is modelled as
written:

- **main2.py** (`Managers`): `ProductManager` and `SupplierManager` reject an add whose name
  is already present, and delete only the first match. The daily stock menu changes the
  record that search returned.
- **product.py** (`ProductStore`) and **Supplier.py** (`SupplierStore`): these append
  without a duplicate check. Delete keeps every record whose name does not match, and it
  saves even when nothing matched. supplier.py is a byte-identical copy of Supplier.py, so
  `SupplierStore` models both.
- **stock.py** (`StockStore`): receive, sale and adjust on the first match.
- **Main.py** (`CafeMenu`): the update menus' "blank keeps the current value" merge. The
  sale pre-check in front of `record_sale`. The low-stock loop.
- **main3.py** (`StockSheet`): rows stay as CSV text. Sale and receipt need a positive
  amount, and they write the new count back as decimal text.

The store is sometimes described as both rejecting duplicate adds and deleting every match,
with a "not found" failure on delete. No variant does all three. main2.py rejects duplicates
but deletes only the first match. product.py and Supplier.py delete every match but never
reject or fail. The model follows the code.

Shared definitions:

- `Keys`: ASCII `Lower`, `SameName`, the first-match scan `FirstMatch`, positional and
  by-value removal, the filter `Without`, and name uniqueness `DistinctNames`.
- `Decimal`: `str()` and `int()` on quantities.
- `Records`: the record types and the field merges.
- `StockRules`: the stock rules as functions on the product list. `Receive`, `Sale` and
  `Adjust` return the new list or a refusal.

Every store class has two ghost fields. `saved` is the table as last written to its file.
`saves` counts full rewrites. "Saves" means `saved` becomes the current list and `saves`
goes up by one. "Does not save" means both stay unchanged. A search returns the position of
the record it found. That position stands for the reference to the dict that the Python
code returns and then sometimes changes in place.

## Model

| member | source | states |
|---|---|---|
| `Keys.Lower` | main2.py:51 | lowering keeps the length and maps each character through ASCII lowering |
| `Keys.SameName` | main2.py:51 | `a.lower() == b.lower()`: two names that match always have the same length |
| `Keys.SameNameChars` | main2.py:51 | two names match exactly when they have the same length and agree position by position once each character is lowered |
| `Keys.LowerIdempotent` | main2.py:49-53 | lowering twice is lowering once, so any spelling of a name matches its lowered form |
| `Keys.FirstMatch` | main2.py:49-53 | the result is the position of a record whose lowercased name equals the lowercased query, and no earlier record matches; None means no record matches |
| `Keys.FirstMatchSameKeys` | stock.py:28-53 | two lists with the same names position by position give the same first match for every query |
| `Keys.FirstMatchAfterAppend` | product.py:31-33 | after an append, an existing match still wins; otherwise the new record is found exactly when its name matches |
| `Keys.AppendFresh` | main2.py:55-60 | appending a record whose name matches nothing keeps names distinct, and a search in any spelling of that name finds the new last position |
| `Keys.RemoveAt` | main2.py:74 | removal drops exactly one position: length minus one, earlier records in place, later ones shifted down by one, and the multiset loses one copy of the removed record |
| `Keys.IndexOf` | main2.py:74 | the position `list.remove` drops: it holds a value equal to x, and no earlier position does |
| `Keys.RemoveValue` | main2.py:74 | `list.remove(x)` on a list holding x: one element fewer, the multiset loses exactly one x, elements before the first x stay in place, and later ones shift down by one; `Keys.RemoveFoundValue` proves that in `delete_product` this drops the first-match position |
| `Keys.RemoveFoundValue` | main2.py:72-74 | removing by value the record that search returned removes exactly the first-match position |
| `Keys.RemoveFirstOfDistinct` | main2.py:71-77 | when names are distinct, after deleting a name no record matches it |
| `Keys.RemoveFirstExposesNext` | main2.py:71-77 | when names repeat, the next record with the same name survives the delete and becomes the first match |
| `Keys.Rename` | main2.py:63-69 | when names are distinct, replacing the match of q with a record under a new unused name means q is no longer found and the new name is found at that position |
| `Keys.Without` | product.py:44 | the filter result contains exactly the records of the input whose name does not match, and it is no longer than the input |
| `Keys.WithoutAppend` | product.py:44 | the filter keeps the survivors' relative order (it distributes over concatenation) |
| `Keys.WithoutNoMatch` | product.py:44 | a list with no match is unchanged by the filter |
| `Keys.WithoutLeavesNoMatch` | product.py:44 | after the filter, a search for the name in any spelling finds nothing |
| `Keys.WithoutIdempotent` | product.py:44 | deleting the same name twice is the same as deleting it once |
| `Keys.WithoutShrinks` | product.py:44 | the list gets shorter exactly when some record matched |
| `Decimal.DigitsOf` | main3.py:132 | the digit text of a natural number is non-empty and all ASCII digits; below ten it is a single digit, and from ten up it has no leading zero, so `str()` writes the canonical text |
| `Decimal.DecimalString` | main3.py:132 | `str(n)` is non-empty and starts with '-' exactly when n is negative |
| `Decimal.ParseDecimal` | main3.py:129 | `int(s)` succeeds only on non-empty text, and every non-empty digit string reads as a non-negative number |
| `Decimal.DigitsRoundTrip` | main3.py:132 | reading the digit text of n gives back n |
| `Decimal.ParseDecimalString` | main3.py:129-132 | `int(str(n)) == n` for every integer n, so the stored quantity reads back as the count written |
| `Decimal.DecimalStringInjective` | main3.py:132 | different counts are written as different text |
| `Records.MergeProduct` | Main.py:69-73 | each field of the replacement product is the entered value when given, and the current value when left blank |
| `Records.MergeSupplier` | Main.py:149-153 | each supplier field is the entered text when non-blank, and the current text otherwise |
| `Records.MergeProductExtremes` | main2.py:204-207 | all-blank entries rebuild the current product, and fully entered values ignore it |
| `Records.MergeProductIdempotent` | Main.py:69-73 | applying the same entries twice gives the same product as applying them once |
| `Records.MergeSupplierExtremes` | main2.py:253-256 | all-blank entries rebuild the current supplier, and fully entered values ignore it |
| `Records.MergeSupplierIdempotent` | Main.py:149-153 | applying the same supplier entries twice gives the same result as once |
| `StockRules.WithQuantity` | main2.py:295 | changing a quantity in place changes only that position's quantity; name, price, length and every other record stay the same |
| `StockRules.Receive` | stock.py:28-34 | refused with NotFound exactly when no name matches; otherwise only the first match's quantity changes, by adding the amount |
| `StockRules.Sale` | stock.py:36-45 | NotFound exactly when nothing matches; InsufficientStock exactly when the first match holds less than the amount; otherwise only that quantity drops by the amount and stays non-negative |
| `StockRules.Adjust` | stock.py:47-53 | refused exactly when nothing matches; otherwise only the first match's quantity is set to the new value, whatever it was before |
| `StockRules.WithQuantityKeepsSearch` | stock.py:28-53 | a quantity change leaves every search result as it was |
| `StockRules.ReceiveThenSale` | stock.py:28-42 | receiving q and then selling q of a product with non-negative stock succeeds and restores the original list |
| `StockRules.SaleBounds` | main2.py:305-306 | a positive sale the stock covers goes through and leaves 0 <= new < old |
| `StockRules.ReceiveKeepsSearch` | stock.py:28-34 | an applied delivery never reorders or renames, so every later search finds the same position |
| `StockRules.SaleKeepsSearch` | stock.py:36-45 | an applied sale never reorders or renames, so every later search finds the same position |
| `StockRules.AdjustKeepsSearch` | stock.py:47-53 | an applied adjustment never reorders or renames, so every later search finds the same position |
| `StockRules.LowStock` | main2.py:333 | the low-stock list is never longer than the store |
| `StockRules.LowStockMembers` | main2.py:333 | a product is in the low-stock list exactly when it is in the store with quantity below the threshold |
| `StockRules.LowStockAppend` | main2.py:333 | the low-stock list keeps store order (it distributes over concatenation) |
| `StockRules.SuggestedOrder` | Main.py:223 | `threshold*2 - quantity` tops the product up to exactly twice the threshold, and for a product below the threshold it is more than the threshold; `StockRules.SuggestionExceedsThreshold` proves this for every listed item |
| `StockRules.ThresholdFromEntry` | Main.py:204 | `int(input(...) or 10)`: a blank entry gives the default (`CafeMenu.DefaultThreshold`, 10), a non-empty digit string gives a non-negative threshold, and only a non-blank entry can fail; `StockRules.ThresholdEntries` proves that the text of n reads as n |
| `StockRules.SuggestionExceedsThreshold` | Main.py:223 | for every low-stock item, the suggested order is greater than the threshold and tops the item up to twice the threshold |
| `StockRules.ThresholdEntries` | Main.py:204 | a blank threshold entry gives the default, and the decimal text of n gives n |
| `Managers.ProductManager.constructor` | main2.py:16-18 | the manager starts with the loaded table, which is also the saved table |
| `Managers.ProductManager.Save` | main2.py:33-44 | the saved table becomes the current list; the list is unchanged |
| `Managers.ProductManager.GetAllProducts` | main2.py:46-47 | returns the current list in store order |
| `Managers.ProductManager.SearchProduct` | main2.py:49-53 | the scan returns the first case-insensitive match or None |
| `Managers.ProductManager.AddProduct` | main2.py:55-61 | a name already present is rejected with no change and no save; otherwise the product is appended and saved, and distinct names stay distinct |
| `Managers.ProductManager.UpdateProduct` | main2.py:63-69 | returns true exactly when a match exists, then replaces only the first match's position and saves; otherwise nothing changes and nothing is saved |
| `Managers.ProductManager.DeleteProduct` | main2.py:71-77 | returns true exactly when a match exists, then removes exactly the first match, keeps the rest in order, and saves; otherwise nothing changes |
| `Managers.SupplierManager.constructor` | main2.py:81-83 | starts with the loaded supplier table as the saved table |
| `Managers.SupplierManager.Save` | main2.py:98-109 | the saved table becomes the current list |
| `Managers.SupplierManager.GetAllSuppliers` | main2.py:111-112 | returns the current supplier list |
| `Managers.SupplierManager.SearchSupplier` | main2.py:114-118 | returns the first case-insensitive match or None |
| `Managers.SupplierManager.AddSupplier` | main2.py:120-126 | rejects a present name without saving; otherwise appends and saves, and keeps names distinct |
| `Managers.SupplierManager.UpdateSupplier` | main2.py:128-134 | replaces only the first match and saves; with no match, returns false and changes nothing |
| `Managers.SupplierManager.DeleteSupplier` | main2.py:136-142 | removes exactly the first match and saves; with no match, returns false and changes nothing |
| `Managers.ReceiveDelivery` | main2.py:290-299 | the delivery changes the list exactly as `StockRules.Receive` says and saves; an unknown name changes nothing and is not saved |
| `Managers.RecordSale` | main2.py:300-312 | the sale changes the list exactly as `StockRules.Sale` says and saves; a refusal reports its reason, changes nothing and does not save |
| `Managers.UpdateMayDuplicateName` | main2.py:63-69 | update does not check the new name: replacing the first match with a record whose name matches any other product always breaks name uniqueness |
| `Managers.TeaRenamedToCoffee` | main2.py:63-69 | the case happens: in a list with distinct names, renaming "Tea" to "COFFEE" next to "Coffee" breaks name uniqueness |
| `ProductStore.Product.constructor` | product.py:5-7 | starts with the loaded table as the saved table |
| `ProductStore.Product.SaveProducts` | product.py:47-57 | the saved table becomes the current list |
| `ProductStore.Product.GetAllProducts` | product.py:22-23 | returns the current list |
| `ProductStore.Product.SearchProduct` | product.py:25-29 | returns the first case-insensitive match or None |
| `ProductStore.Product.AddProduct` | product.py:31-33 | always appends the product at the end (length plus one, earlier records unchanged) and saves |
| `ProductStore.Product.UpdateProduct` | product.py:35-41 | replaces only the first match and saves; with no match, returns false, changes nothing and does not save |
| `ProductStore.Product.DeleteProduct` | product.py:43-45 | the list becomes the order-preserving filter of non-matching products, and it is saved even when nothing matched |
| `ProductStore.AddedProductFound` | product.py:31-33 | after an unchecked add, a search for the new name finds an earlier same-named product if there is one, and otherwise the new last position |
| `ProductStore.DeletedProductGone` | product.py:43-45 | after a delete no product matches the name in any spelling, a second delete changes nothing, and the list shrinks exactly when something matched |
| `SupplierStore.Supplier.constructor` | Supplier.py:5-7 | starts with the loaded table as the saved table |
| `SupplierStore.Supplier.SaveSupplier` | Supplier.py:47-57 | the saved table becomes the current list |
| `SupplierStore.Supplier.GetAllSuppliers` | Supplier.py:22-23 | returns the current list |
| `SupplierStore.Supplier.SearchSupplier` | Supplier.py:25-29 | returns the first case-insensitive match or None |
| `SupplierStore.Supplier.AddSupplier` | Supplier.py:31-33 | always appends at the end and saves |
| `SupplierStore.Supplier.UpdateSupplier` | Supplier.py:35-41 | replaces only the first match and saves; with no match, returns false and changes nothing |
| `SupplierStore.Supplier.DeleteSupplier` | Supplier.py:43-45 | the list becomes the order-preserving filter of non-matching suppliers, and it is always saved |
| `SupplierStore.DeletedSupplierGone` | supplier.py:43-45 | after a delete no supplier matches the name in any spelling; deleting again changes nothing; the others keep their relative order; the list shrinks exactly when something matched |
| `StockStore.Stock.constructor` | stock.py:5-7 | starts with the loaded table as the saved table |
| `StockStore.Stock.SaveProducts` | stock.py:63-73 | the saved table becomes the current list |
| `StockStore.Stock.SearchProduct` | stock.py:22-26 | returns the first case-insensitive match or None |
| `StockStore.Stock.ReceiveStock` | stock.py:28-34 | returns true exactly when the receive rule applies, then takes its new list and saves; otherwise nothing changes and nothing is saved |
| `StockStore.Stock.RecordSale` | stock.py:36-45 | returns true exactly when the sale rule applies, then takes its new list and saves; short stock or an unknown name changes nothing, does not save, and never falls through to a later same-named product |
| `StockStore.Stock.AdjustStock` | stock.py:47-53 | sets the first match's quantity as the adjust rule says and saves; `reason` has no effect |
| `StockStore.ReceiveThenSell` | stock.py:28-42 | receiving q and then selling q of a product with non-negative stock leaves the list as it was, after two saves |
| `CafeMenu.UpdateProductFromMenu` | Main.py:56-76 | the update is attempted only when search finds the product; the first match becomes the field-wise merge of the entries over the current record, and the menu saves twice; otherwise nothing changes |
| `CafeMenu.UpdateSupplierFromMenu` | Main.py:137-156 | the same for suppliers: merge over the first match, or no change when the supplier is not found |
| `CafeMenu.SellFromMenu` | Main.py:282-297 | with the pre-check, the outcome and new state are exactly the sale rule's; a sale above the current stock never reaches `record_sale` and is not saved |
| `CafeMenu.CollectLowStock` | Main.py:204-210 | the loop collects exactly the low-stock products, in store order, and leaves the store unchanged |
| `CafeMenu.EspressoScenario` | Main.py:204-210 | "Espresso" at quantity 8 is low against the default threshold 10 and not against 5, and a blank entry gives 10 |
| `StockSheet.SearchItem` | main3.py:67-75 | returns the first row whose `Name` matches case-insensitively, or None |
| `StockSheet.RecordSale` | main3.py:124-139 | a sale is applied only when 0 < sold <= current; the row's Quantity becomes the decimal text of the difference and is saved; the new count reads back as a number in [0, current); non-numbers and rejected amounts change nothing |
| `StockSheet.ReceiveDelivery` | main3.py:141-156 | a receipt is applied only when the amount is positive; Quantity becomes the decimal text of the sum, reads back larger than before, and is saved; otherwise nothing changes |

## Left out

- CSV reading and writing (`_load`/`_save`, `load_products`/`save_products`,
  `load_suppliers`/`save_supplier`, `load_csv_data`/`save_csv_data`). This is file I/O, and
  the quoting rules live inside Python's `csv` module. The ghost `saved` snapshot stands in
  for the file. A load starts a store from a given list. In main3.py the `Saved` outcome marks
  the call to `save_csv_data`, and a failed write is not modelled.
- Menus, prompts, printing, `sys.exit` and the data-file existence checks. These are
  interactive glue. The menu flows that decide what reaches a store are modelled in
  `CafeMenu`, `Managers.ReceiveDelivery`, `Managers.RecordSale` and `StockSheet`.
- Main.py's product add, delete, receive and adjust branches (lines 47-54, 78-84, 269-280,
  303-315) and its supplier add and delete branches (lines 124-135, 158-164). They call the
  store operation and, for add and delete, `save_products` or `save_supplier` once more. Both
  delete branches first ask for confirmation (Main.py:80-81 and Main.py:160-161) and delete
  only on "y" or "Y". Those prompts are left out with the other prompts; a confirmed delete is
  `ProductStore.Product.DeleteProduct` or `SupplierStore.Supplier.DeleteSupplier`. The message
  at Main.py:280 reads the dict that search returned at Main.py:272. `receive_stock` has
  already raised that same dict in place (stock.py:31), so the message prints the new
  quantity plus the amount again. This is output only.
- Login in main2.py, Main.py and main3.py: an interactive credential check.
- `PurchaseOrder`, `Utils.format_date` and the custom purchase order branches. They read the
  clock and only print.
- Stock reports, `generate_stock_report`, and main3.py's product and supplier listings. These
  are output only.
- Price is carried as a number (`real`), not a binary float. No operation computes with it.
  Parsing typed-in prices and quantities with `float()`/`int()` in the main2.py and Main.py
  menus is input glue; the model takes the converted values. A ValueError there ends the
  program.
- `Keys.Lower`: lowers ASCII letters only; Python's `str.lower()` also lowers other Unicode letters.
- `Decimal.ParseDecimal`: accepts an optional sign followed by ASCII digits. Python's `int()`
  also strips surrounding whitespace and accepts underscores between digits and non-ASCII
  digits. Such text is read as invalid here.
- `StockSheet.RecordSale`, `StockSheet.ReceiveDelivery`: the Quantity cell is modelled as text
  that is always present. Both read it with `int(product.get('Quantity', 0))` (main3.py:129
  and main3.py:146). A row without that column (read as 0) and a short row holding None (a
  TypeError, reported like a ValueError) are not modelled.
- `Managers.ProductManager.GetAllProducts`: returns the list as a value. In Python it is the
  live list, and callers could change it through that reference. No caller does.
- `ProductStore.Product.GetAllProducts`: returns the list as a value rather than the live
  list. No caller changes it.
- Records are values, not shared dict objects. Changing "the dict that search returned" is
  modelled as changing that position of the list. No list in the source holds the same dict
  twice.
