/** The product and supplier managers of main2.py and its daily stock operations. Each manager
    holds its table as a list of records; `saved` is the table as last written to its file and
    `saves` counts the full rewrites. Adding rejects a name already present; deleting removes
    only the first match. */
module Managers {
  import opened Keys
  import opened Records
  import opened StockRules

  class ProductManager {
    var products: seq<ProductRecord>
    ghost var saved: seq<ProductRecord>
    ghost var saves: nat

    /** The table as loaded from its file. */
    constructor (loaded: seq<ProductRecord>)
      ensures products == loaded && saved == loaded && saves == 0
    {
      products := loaded;
      saved := loaded;
      saves := 0;
    }

    /** Rewrites the whole file from the current list. */
    method Save()
      modifies this
      ensures products == old(products)
      ensures saved == products && saves == old(saves) + 1
    {
      saved := products;
      saves := saves + 1;
    }

    method GetAllProducts() returns (r: seq<ProductRecord>)
      ensures r == products
    {
      r := products;
    }

    /** The position of the first product whose name matches case-insensitively, or None. */
    method SearchProduct(name: string) returns (r: Option<nat>)
      ensures r == FirstMatch(products, ProductName, name)
    {
      var i := 0;
      while i < |products|
        invariant 0 <= i <= |products|
        invariant forall j :: 0 <= j < i ==> !SameName(ProductName(products[j]), name)
      {
        if SameName(products[i].name, name) {
          FirstMatchAt(products, ProductName, name, i);
          return Some(i);
        }
        i := i + 1;
      }
      return None;
    }

    /** A name already present (in any spelling) is rejected without saving; otherwise the
        product goes at the end and the file is rewritten. Distinct names stay distinct. */
    method AddProduct(product: ProductRecord)
      modifies this
      ensures FirstMatch(old(products), ProductName, product.name).Some? ==>
        products == old(products) && saved == old(saved) && saves == old(saves)
      ensures FirstMatch(old(products), ProductName, product.name).None? ==>
        products == old(products) + [product] && saved == products && saves == old(saves) + 1
      ensures DistinctNames(old(products), ProductName) ==> DistinctNames(products, ProductName)
    {
      var existing := SearchProduct(product.name);
      if existing.Some? {
        return;
      }
      AppendFresh(products, ProductName, product, product.name);
      products := products + [product];
      Save();
    }

    /** Replaces the first match with `updated` and saves; no match changes nothing. */
    method UpdateProduct(name: string, updated: ProductRecord) returns (ok: bool)
      modifies this
      ensures ok <==> FirstMatch(old(products), ProductName, name).Some?
      ensures ok ==> products == old(products)[FirstMatch(old(products), ProductName, name).value := updated]
      ensures ok ==> saved == products && saves == old(saves) + 1
      ensures !ok ==> products == old(products) && saved == old(saved) && saves == old(saves)
    {
      var i := 0;
      while i < |products|
        invariant 0 <= i <= |products|
        invariant products == old(products) && saved == old(saved) && saves == old(saves)
        invariant forall j :: 0 <= j < i ==> !SameName(ProductName(products[j]), name)
      {
        if SameName(products[i].name, name) {
          FirstMatchAt(products, ProductName, name, i);
          products := products[i := updated];
          Save();
          return true;
        }
        i := i + 1;
      }
      return false;
    }

    /** Removes (by value, as `list.remove` does) the product that search returned: exactly the
        first match, the rest keeping their order. No match changes nothing. */
    method DeleteProduct(name: string) returns (ok: bool)
      modifies this
      ensures ok <==> FirstMatch(old(products), ProductName, name).Some?
      ensures ok ==> products == RemoveAt(old(products), FirstMatch(old(products), ProductName, name).value)
      ensures ok ==> saved == products && saves == old(saves) + 1
      ensures !ok ==> products == old(products) && saved == old(saved) && saves == old(saves)
    {
      var found := SearchProduct(name);
      if found.None? {
        return false;
      }
      RemoveFoundValue(products, ProductName, name);
      products := RemoveValue(products, products[found.value]);
      Save();
      return true;
    }
  }

  class SupplierManager {
    var suppliers: seq<SupplierRecord>
    ghost var saved: seq<SupplierRecord>
    ghost var saves: nat

    constructor (loaded: seq<SupplierRecord>)
      ensures suppliers == loaded && saved == loaded && saves == 0
    {
      suppliers := loaded;
      saved := loaded;
      saves := 0;
    }

    method Save()
      modifies this
      ensures suppliers == old(suppliers)
      ensures saved == suppliers && saves == old(saves) + 1
    {
      saved := suppliers;
      saves := saves + 1;
    }

    method GetAllSuppliers() returns (r: seq<SupplierRecord>)
      ensures r == suppliers
    {
      r := suppliers;
    }

    method SearchSupplier(name: string) returns (r: Option<nat>)
      ensures r == FirstMatch(suppliers, SupplierName, name)
    {
      var i := 0;
      while i < |suppliers|
        invariant 0 <= i <= |suppliers|
        invariant forall j :: 0 <= j < i ==> !SameName(SupplierName(suppliers[j]), name)
      {
        if SameName(suppliers[i].name, name) {
          FirstMatchAt(suppliers, SupplierName, name, i);
          return Some(i);
        }
        i := i + 1;
      }
      return None;
    }

    method AddSupplier(supplier: SupplierRecord)
      modifies this
      ensures FirstMatch(old(suppliers), SupplierName, supplier.name).Some? ==>
        suppliers == old(suppliers) && saved == old(saved) && saves == old(saves)
      ensures FirstMatch(old(suppliers), SupplierName, supplier.name).None? ==>
        suppliers == old(suppliers) + [supplier] && saved == suppliers && saves == old(saves) + 1
      ensures DistinctNames(old(suppliers), SupplierName) ==> DistinctNames(suppliers, SupplierName)
    {
      var existing := SearchSupplier(supplier.name);
      if existing.Some? {
        return;
      }
      AppendFresh(suppliers, SupplierName, supplier, supplier.name);
      suppliers := suppliers + [supplier];
      Save();
    }

    method UpdateSupplier(name: string, updated: SupplierRecord) returns (ok: bool)
      modifies this
      ensures ok <==> FirstMatch(old(suppliers), SupplierName, name).Some?
      ensures ok ==> suppliers == old(suppliers)[FirstMatch(old(suppliers), SupplierName, name).value := updated]
      ensures ok ==> saved == suppliers && saves == old(saves) + 1
      ensures !ok ==> suppliers == old(suppliers) && saved == old(saved) && saves == old(saves)
    {
      var i := 0;
      while i < |suppliers|
        invariant 0 <= i <= |suppliers|
        invariant suppliers == old(suppliers) && saved == old(saved) && saves == old(saves)
        invariant forall j :: 0 <= j < i ==> !SameName(SupplierName(suppliers[j]), name)
      {
        if SameName(suppliers[i].name, name) {
          FirstMatchAt(suppliers, SupplierName, name, i);
          suppliers := suppliers[i := updated];
          Save();
          return true;
        }
        i := i + 1;
      }
      return false;
    }

    method DeleteSupplier(name: string) returns (ok: bool)
      modifies this
      ensures ok <==> FirstMatch(old(suppliers), SupplierName, name).Some?
      ensures ok ==> suppliers == RemoveAt(old(suppliers), FirstMatch(old(suppliers), SupplierName, name).value)
      ensures ok ==> saved == suppliers && saves == old(saves) + 1
      ensures !ok ==> suppliers == old(suppliers) && saved == old(saved) && saves == old(saves)
    {
      var found := SearchSupplier(name);
      if found.None? {
        return false;
      }
      RemoveFoundValue(suppliers, SupplierName, name);
      suppliers := RemoveValue(suppliers, suppliers[found.value]);
      Save();
      return true;
    }
  }

  /** "Receive stock delivery": the product dict that search returned gets the received amount
      added in place, then the table is saved. There is no check on the amount's sign. */
  method ReceiveDelivery(pm: ProductManager, name: string, quantity: int) returns (refused: Option<Refusal>)
    modifies pm
    ensures Receive(old(pm.products), name, quantity).Applied? ==>
      refused == None && pm.products == Receive(old(pm.products), name, quantity).rows &&
      pm.saved == pm.products && pm.saves == old(pm.saves) + 1
    ensures Receive(old(pm.products), name, quantity).Refused? ==>
      refused == Some(NotFound) &&
      pm.products == old(pm.products) && pm.saved == old(pm.saved) && pm.saves == old(pm.saves)
  {
    var found := pm.SearchProduct(name);
    if found.None? {
      return Some(NotFound);
    }
    var i := found.value;
    pm.products := pm.products[i := pm.products[i].(quantity := pm.products[i].quantity + quantity)];
    pm.Save();
    return None;
  }

  /** "Record sales": applied in place only when the product holds at least the amount sold. */
  method RecordSale(pm: ProductManager, name: string, quantity: int) returns (refused: Option<Refusal>)
    modifies pm
    ensures Sale(old(pm.products), name, quantity).Applied? ==>
      refused == None && pm.products == Sale(old(pm.products), name, quantity).rows &&
      pm.saved == pm.products && pm.saves == old(pm.saves) + 1
    ensures Sale(old(pm.products), name, quantity).Refused? ==>
      refused == Some(Sale(old(pm.products), name, quantity).why) &&
      pm.products == old(pm.products) && pm.saved == old(pm.saved) && pm.saves == old(pm.saves)
  {
    var found := pm.SearchProduct(name);
    if found.None? {
      return Some(NotFound);
    }
    var i := found.value;
    if pm.products[i].quantity >= quantity {
      pm.products := pm.products[i := pm.products[i].(quantity := pm.products[i].quantity - quantity)];
      pm.Save();
      return None;
    }
    return Some(InsufficientStock);
  }

  /** Updating never checks the new name against the others: replacing the first match of q
      with a record whose name matches any other product leaves two products with the same
      name. */
  lemma UpdateMayDuplicateName(s: seq<ProductRecord>, q: string, u: ProductRecord, j: nat)
    requires FirstMatch(s, ProductName, q).Some?
    requires j < |s| && j != FirstMatch(s, ProductName, q).value
    requires SameName(u.name, s[j].name)
    ensures !DistinctNames(s[FirstMatch(s, ProductName, q).value := u], ProductName)
  {
    var i := FirstMatch(s, ProductName, q).value;
    var t := s[i := u];
    assert t[i] == u && t[j] == s[j];
    if i < j {
      assert SameName(ProductName(t[i]), ProductName(t[j]));
    } else {
      assert SameName(ProductName(t[j]), ProductName(t[i]));
    }
  }

  /** The general case happens: renaming "Tea" to "COFFEE" next to "Coffee" in a list whose names
      were distinct. */
  lemma TeaRenamedToCoffee()
    ensures var s := [ProductRecord("Tea", 2.5, 8), ProductRecord("Coffee", 3.0, 4)];
      DistinctNames(s, ProductName) &&
      FirstMatch(s, ProductName, "tea") == Some(0) &&
      !DistinctNames(s[0 := ProductRecord("COFFEE", 2.5, 8)], ProductName)
  {
    var s := [ProductRecord("Tea", 2.5, 8), ProductRecord("Coffee", 3.0, 4)];
    assert |Lower("Tea")| != |Lower("Coffee")|;
    assert Lower("Tea") == Lower("tea");
    assert Lower("COFFEE") == Lower("Coffee");
    UpdateMayDuplicateName(s, "tea", ProductRecord("COFFEE", 2.5, 8), 1);
  }
}
