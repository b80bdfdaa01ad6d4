/** The `Product` class of product.py: the product table as a list of records. Unlike the
    main2.py manager it appends without a duplicate check and deletes every case-insensitive
    match, saving even when nothing matched. */
module ProductStore {
  import opened Keys
  import opened Records

  class Product {
    var products: seq<ProductRecord>
    ghost var saved: seq<ProductRecord>
    ghost var saves: nat

    constructor (loaded: seq<ProductRecord>)
      ensures products == loaded && saved == loaded && saves == 0
    {
      products := loaded;
      saved := loaded;
      saves := 0;
    }

    /** Rewrites the whole file from the current list; callers may also call it directly. */
    method SaveProducts()
      modifies this
      ensures products == old(products)
      ensures saved == products && saves == old(saves) + 1
    {
      saved := products;
      saves := saves + 1;
    }

    method GetAllProducts() returns (r: seq<ProductRecord>)
      ensures r == products
    {
      r := products;
    }

    method SearchProduct(name: string) returns (r: Option<nat>)
      ensures r == FirstMatch(products, ProductName, name)
    {
      var i := 0;
      while i < |products|
        invariant 0 <= i <= |products|
        invariant forall j :: 0 <= j < i ==> !SameName(ProductName(products[j]), name)
      {
        if SameName(products[i].name, name) {
          FirstMatchAt(products, ProductName, name, i);
          return Some(i);
        }
        i := i + 1;
      }
      return None;
    }

    /** Appends unconditionally and saves. */
    method AddProduct(product: ProductRecord)
      modifies this
      ensures products == old(products) + [product]
      ensures saved == products && saves == old(saves) + 1
    {
      products := products + [product];
      SaveProducts();
    }

    method UpdateProduct(name: string, updated: ProductRecord) returns (ok: bool)
      modifies this
      ensures ok <==> FirstMatch(old(products), ProductName, name).Some?
      ensures ok ==> products == old(products)[FirstMatch(old(products), ProductName, name).value := updated]
      ensures ok ==> saved == products && saves == old(saves) + 1
      ensures !ok ==> products == old(products) && saved == old(saved) && saves == old(saves)
    {
      var i := 0;
      while i < |products|
        invariant 0 <= i <= |products|
        invariant products == old(products) && saved == old(saved) && saves == old(saves)
        invariant forall j :: 0 <= j < i ==> !SameName(ProductName(products[j]), name)
      {
        if SameName(products[i].name, name) {
          FirstMatchAt(products, ProductName, name, i);
          products := products[i := updated];
          SaveProducts();
          return true;
        }
        i := i + 1;
      }
      return false;
    }

    /** Keeps only the products whose name does not match, and saves in every case. */
    method DeleteProduct(name: string)
      modifies this
      ensures products == Without(old(products), ProductName, name)
      ensures saved == products && saves == old(saves) + 1
    {
      products := Without(products, ProductName, name);
      SaveProducts();
    }
  }

  /** Adding without a duplicate check: a product already present under the same name keeps
      shadowing the new one in searches, which find the new record only when nothing matched. */
  lemma AddedProductFound(s: seq<ProductRecord>, product: ProductRecord, q: string)
    requires SameName(q, product.name)
    ensures FirstMatch(s + [product], ProductName, q).Some?
    ensures FirstMatch(s + [product], ProductName, q) ==
      if FirstMatch(s, ProductName, q).Some? then FirstMatch(s, ProductName, q) else Some(|s|)
  {
    FirstMatchAfterAppend(s, ProductName, product, q);
  }

  /** After deleting a name, a search for it in any spelling finds nothing; deleting it again
      leaves the list as it is; the list shrinks exactly when something matched. */
  lemma DeletedProductGone(s: seq<ProductRecord>, name: string, q: string)
    requires SameName(name, q)
    ensures FirstMatch(Without(s, ProductName, name), ProductName, q).None?
    ensures Without(Without(s, ProductName, name), ProductName, name) == Without(s, ProductName, name)
    ensures |Without(s, ProductName, name)| < |s| <==> FirstMatch(s, ProductName, name).Some?
  {
    WithoutLeavesNoMatch(s, ProductName, name, q);
    WithoutIdempotent(s, ProductName, name);
    WithoutShrinks(s, ProductName, name);
  }
}
