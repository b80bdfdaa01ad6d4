/** The parts of Main.py's menus that decide what reaches the stores: the update menus' field
    merge, the sale pre-check in front of `record_sale`, and the low-stock loop with its
    suggested reorder amounts. Prompts and printing are not modelled; the entered values are
    parameters. */
module CafeMenu {
  import opened Keys
  import opened Records
  import opened StockRules
  import ProductStore
  import SupplierStore
  import StockStore

  /** The threshold used when the low-stock prompt is left blank. */
  const DefaultThreshold: int := 10

  /** "Update product details": an update is attempted only when search found the product; the
      replacement keeps each field left blank. The menu saves once more after `update_product`
      has saved. */
  method UpdateProductFromMenu(pm: ProductStore.Product, name: string,
                               newName: string, newPrice: Entry<Price>, newQuantity: Entry<int>)
    returns (found: bool)
    modifies pm
    ensures found <==> FirstMatch(old(pm.products), ProductName, name).Some?
    ensures found ==> var i := FirstMatch(old(pm.products), ProductName, name).value;
      pm.products == old(pm.products)[i := MergeProduct(old(pm.products)[i], newName, newPrice, newQuantity)] &&
      pm.saved == pm.products && pm.saves == old(pm.saves) + 2
    ensures !found ==> pm.products == old(pm.products) && pm.saved == old(pm.saved) && pm.saves == old(pm.saves)
  {
    var current := pm.SearchProduct(name);
    if current.None? {
      return false;
    }
    var updated := MergeProduct(pm.products[current.value], newName, newPrice, newQuantity);
    var ok := pm.UpdateProduct(name, updated);
    pm.SaveProducts();
    return true;
  }

  /** "Update supplier details": the same flow over the supplier table. */
  method UpdateSupplierFromMenu(sm: SupplierStore.Supplier, name: string,
                                newName: string, newContact: string, newCategory: string)
    returns (found: bool)
    modifies sm
    ensures found <==> FirstMatch(old(sm.suppliers), SupplierName, name).Some?
    ensures found ==> var i := FirstMatch(old(sm.suppliers), SupplierName, name).value;
      sm.suppliers == old(sm.suppliers)[i := MergeSupplier(old(sm.suppliers)[i], newName, newContact, newCategory)] &&
      sm.saved == sm.suppliers && sm.saves == old(sm.saves) + 2
    ensures !found ==> sm.suppliers == old(sm.suppliers) && sm.saved == old(sm.saved) && sm.saves == old(sm.saves)
  {
    var current := sm.SearchSupplier(name);
    if current.None? {
      return false;
    }
    var updated := MergeSupplier(sm.suppliers[current.value], newName, newContact, newCategory);
    var ok := sm.UpdateSupplier(name, updated);
    sm.SaveSupplier();
    return true;
  }

  /** "Record daily sales": a sale larger than the current stock is turned away before
      `record_sale` is called. The outcome is exactly the sale rule's. */
  method SellFromMenu(st: StockStore.Stock, name: string, quantity: int) returns (refused: Option<Refusal>)
    modifies st
    ensures Sale(old(st.products), name, quantity).Applied? ==>
      refused == None && st.products == Sale(old(st.products), name, quantity).rows &&
      st.saved == st.products && st.saves == old(st.saves) + 1
    ensures Sale(old(st.products), name, quantity).Refused? ==>
      refused == Some(Sale(old(st.products), name, quantity).why) &&
      st.products == old(st.products) && st.saved == old(st.saved) && st.saves == old(st.saves)
  {
    var product := st.SearchProduct(name);
    if product.None? {
      return Some(NotFound);
    }
    if quantity > st.products[product.value].quantity {
      return Some(InsufficientStock);
    }
    var ok := st.RecordSale(name, quantity);
    return None;
  }

  /** "Generate order for low stock items": collects, in store order, every product whose
      quantity is below the threshold, without changing the store. */
  method CollectLowStock(pm: ProductStore.Product, threshold: int) returns (items: seq<ProductRecord>)
    ensures items == LowStock(pm.products, threshold)
  {
    var products := pm.GetAllProducts();
    items := [];
    for k := 0 to |products|
      invariant items == LowStock(products[..k], threshold)
    {
      LowStockAppend(products[..k], [products[k]], threshold);
      assert products[..k + 1] == products[..k] + [products[k]];
      if products[k].quantity < threshold {
        items := items + [products[k]];
      }
    }
    assert products[..|products|] == products;
  }

  /** The low-stock scenario: "Espresso" at 8 is low against the default threshold of 10 and
      not against 5. */
  lemma EspressoScenario()
    ensures LowStock([ProductRecord("Espresso", 2.5, 8)], DefaultThreshold) == [ProductRecord("Espresso", 2.5, 8)]
    ensures LowStock([ProductRecord("Espresso", 2.5, 8)], 5) == []
    ensures ThresholdFromEntry("", DefaultThreshold) == Some(10)
  {
  }
}
