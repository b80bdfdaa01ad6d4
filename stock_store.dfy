/** The `Stock` class of stock.py: each operation scans the product list for the first
    case-insensitive match and changes that product's quantity in place before saving. */
module StockStore {
  import opened Keys
  import opened Records
  import opened StockRules

  class Stock {
    var products: seq<ProductRecord>
    ghost var saved: seq<ProductRecord>
    ghost var saves: nat

    constructor (loaded: seq<ProductRecord>)
      ensures products == loaded && saved == loaded && saves == 0
    {
      products := loaded;
      saved := loaded;
      saves := 0;
    }

    method SaveProducts()
      modifies this
      ensures products == old(products)
      ensures saved == products && saves == old(saves) + 1
    {
      saved := products;
      saves := saves + 1;
    }

    method SearchProduct(name: string) returns (r: Option<nat>)
      ensures r == FirstMatch(products, ProductName, name)
    {
      var i := 0;
      while i < |products|
        invariant 0 <= i <= |products|
        invariant forall j :: 0 <= j < i ==> !SameName(ProductName(products[j]), name)
      {
        if SameName(products[i].name, name) {
          FirstMatchAt(products, ProductName, name, i);
          return Some(i);
        }
        i := i + 1;
      }
      return None;
    }

    /** Adds `quantity` to the first match and saves; with no match nothing changes. */
    method ReceiveStock(name: string, quantity: int) returns (ok: bool)
      modifies this
      ensures ok <==> Receive(old(products), name, quantity).Applied?
      ensures ok ==> products == Receive(old(products), name, quantity).rows
      ensures ok ==> saved == products && saves == old(saves) + 1
      ensures !ok ==> products == old(products) && saved == old(saved) && saves == old(saves)
    {
      var i := 0;
      while i < |products|
        invariant 0 <= i <= |products|
        invariant products == old(products) && saved == old(saved) && saves == old(saves)
        invariant forall j :: 0 <= j < i ==> !SameName(ProductName(products[j]), name)
      {
        if SameName(products[i].name, name) {
          FirstMatchAt(products, ProductName, name, i);
          products := products[i := products[i].(quantity := products[i].quantity + quantity)];
          SaveProducts();
          return true;
        }
        i := i + 1;
      }
      return false;
    }

    /** Takes `quantity` from the first match when it holds that many, and saves. Otherwise
        nothing changes: the scan stops at the first match even when stock is short. */
    method RecordSale(name: string, quantity: int) returns (ok: bool)
      modifies this
      ensures ok <==> Sale(old(products), name, quantity).Applied?
      ensures ok ==> products == Sale(old(products), name, quantity).rows
      ensures ok ==> saved == products && saves == old(saves) + 1
      ensures !ok ==> products == old(products) && saved == old(saved) && saves == old(saves)
    {
      var i := 0;
      while i < |products|
        invariant 0 <= i <= |products|
        invariant products == old(products) && saved == old(saved) && saves == old(saves)
        invariant forall j :: 0 <= j < i ==> !SameName(ProductName(products[j]), name)
      {
        if SameName(products[i].name, name) {
          FirstMatchAt(products, ProductName, name, i);
          if products[i].quantity >= quantity {
            products := products[i := products[i].(quantity := products[i].quantity - quantity)];
            SaveProducts();
            return true;
          } else {
            return false;
          }
        }
        i := i + 1;
      }
      return false;
    }

    /** Overwrites the first match's quantity and saves; `reason` is not recorded anywhere. */
    method AdjustStock(name: string, newQuantity: int, reason: string) returns (ok: bool)
      modifies this
      ensures ok <==> Adjust(old(products), name, newQuantity).Applied?
      ensures ok ==> products == Adjust(old(products), name, newQuantity).rows
      ensures ok ==> saved == products && saves == old(saves) + 1
      ensures !ok ==> products == old(products) && saved == old(saved) && saves == old(saves)
    {
      var i := 0;
      while i < |products|
        invariant 0 <= i <= |products|
        invariant products == old(products) && saved == old(saved) && saves == old(saves)
        invariant forall j :: 0 <= j < i ==> !SameName(ProductName(products[j]), name)
      {
        if SameName(products[i].name, name) {
          FirstMatchAt(products, ProductName, name, i);
          products := products[i := products[i].(quantity := newQuantity)];
          SaveProducts();
          return true;
        }
        i := i + 1;
      }
      return false;
    }
  }

  /** Receiving q units of a product and then selling q units of it succeeds and restores every
      record, provided its quantity was not negative to begin with. */
  method ReceiveThenSell(st: Stock, name: string, quantity: int)
    requires FirstMatch(st.products, ProductName, name).Some?
    requires st.products[FirstMatch(st.products, ProductName, name).value].quantity >= 0
    modifies st
    ensures st.products == old(st.products)
    ensures st.saved == st.products && st.saves == old(st.saves) + 2
  {
    var received := st.ReceiveStock(name, quantity);
    ReceiveThenSale(old(st.products), name, quantity);
    var sold := st.RecordSale(name, quantity);
  }
}
