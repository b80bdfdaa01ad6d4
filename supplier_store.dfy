/** The `Supplier` class of Supplier.py (supplier.py is the same file under a lower-case name):
    the supplier table as a list of records, appending without a duplicate check and deleting
    every case-insensitive match. */
module SupplierStore {
  import opened Keys
  import opened Records

  class Supplier {
    var suppliers: seq<SupplierRecord>
    ghost var saved: seq<SupplierRecord>
    ghost var saves: nat

    constructor (loaded: seq<SupplierRecord>)
      ensures suppliers == loaded && saved == loaded && saves == 0
    {
      suppliers := loaded;
      saved := loaded;
      saves := 0;
    }

    method SaveSupplier()
      modifies this
      ensures suppliers == old(suppliers)
      ensures saved == suppliers && saves == old(saves) + 1
    {
      saved := suppliers;
      saves := saves + 1;
    }

    method GetAllSuppliers() returns (r: seq<SupplierRecord>)
      ensures r == suppliers
    {
      r := suppliers;
    }

    method SearchSupplier(name: string) returns (r: Option<nat>)
      ensures r == FirstMatch(suppliers, SupplierName, name)
    {
      var i := 0;
      while i < |suppliers|
        invariant 0 <= i <= |suppliers|
        invariant forall j :: 0 <= j < i ==> !SameName(SupplierName(suppliers[j]), name)
      {
        if SameName(suppliers[i].name, name) {
          FirstMatchAt(suppliers, SupplierName, name, i);
          return Some(i);
        }
        i := i + 1;
      }
      return None;
    }

    /** Appends unconditionally and saves. */
    method AddSupplier(supplier: SupplierRecord)
      modifies this
      ensures suppliers == old(suppliers) + [supplier]
      ensures saved == suppliers && saves == old(saves) + 1
    {
      suppliers := suppliers + [supplier];
      SaveSupplier();
    }

    method UpdateSupplier(name: string, updated: SupplierRecord) returns (ok: bool)
      modifies this
      ensures ok <==> FirstMatch(old(suppliers), SupplierName, name).Some?
      ensures ok ==> suppliers == old(suppliers)[FirstMatch(old(suppliers), SupplierName, name).value := updated]
      ensures ok ==> saved == suppliers && saves == old(saves) + 1
      ensures !ok ==> suppliers == old(suppliers) && saved == old(saved) && saves == old(saves)
    {
      var i := 0;
      while i < |suppliers|
        invariant 0 <= i <= |suppliers|
        invariant suppliers == old(suppliers) && saved == old(saved) && saves == old(saves)
        invariant forall j :: 0 <= j < i ==> !SameName(SupplierName(suppliers[j]), name)
      {
        if SameName(suppliers[i].name, name) {
          FirstMatchAt(suppliers, SupplierName, name, i);
          suppliers := suppliers[i := updated];
          SaveSupplier();
          return true;
        }
        i := i + 1;
      }
      return false;
    }

    /** Keeps only the suppliers whose name does not match, and saves in every case. */
    method DeleteSupplier(name: string)
      modifies this
      ensures suppliers == Without(old(suppliers), SupplierName, name)
      ensures saved == suppliers && saves == old(saves) + 1
    {
      suppliers := Without(suppliers, SupplierName, name);
      SaveSupplier();
    }
  }

  /** After deleting a name no supplier matches it in any spelling, deleting again changes
      nothing, the others keep their relative order, and the list shrinks exactly when
      something matched. */
  lemma DeletedSupplierGone(a: seq<SupplierRecord>, b: seq<SupplierRecord>, name: string, q: string)
    requires SameName(name, q)
    ensures FirstMatch(Without(a + b, SupplierName, name), SupplierName, q).None?
    ensures Without(Without(a + b, SupplierName, name), SupplierName, name) == Without(a + b, SupplierName, name)
    ensures Without(a + b, SupplierName, name) == Without(a, SupplierName, name) + Without(b, SupplierName, name)
    ensures |Without(a + b, SupplierName, name)| < |a + b| <==> FirstMatch(a + b, SupplierName, name).Some?
  {
    WithoutLeavesNoMatch(a + b, SupplierName, name, q);
    WithoutIdempotent(a + b, SupplierName, name);
    WithoutAppend(a, b, SupplierName, name);
    WithoutShrinks(a + b, SupplierName, name);
  }
}
