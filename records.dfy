/** The record shapes of the two tables, and the "blank entry keeps the current value" merge
    that the update menus build a replacement record with. */
module Records {

  /** A unit price. No operation of the store computes with it, so it is carried as a number. */
  type Price = real

  /** A product row once loaded: `{'name', 'price', 'quantity'}` with price and quantity converted. */
  datatype ProductRecord = ProductRecord(name: string, price: Price, quantity: int)

  /** A supplier row: `{'name', 'contact', 'category'}` (also stored under the keys
      `supplier_contact_information` and `supplier_product_category`). */
  datatype SupplierRecord = SupplierRecord(name: string, contact: string, category: string)

  /** A product row kept as the raw text of its `Name`, `Price` and `Quantity` columns. */
  datatype Row = Row(name: string, price: string, quantity: string)

  function ProductName(p: ProductRecord): string { p.name }

  function SupplierName(s: SupplierRecord): string { s.name }

  function RowName(r: Row): string { r.name }

  /** A typed-in number: left blank, or a value the menu has already converted. */
  datatype Entry<T> = Blank | Typed(value: T)

  function Choose<T>(e: Entry<T>, current: T): T
  {
    if e.Typed? then e.value else current
  }

  /** A blank text entry keeps the current text. */
  function ChooseText(entry: string, current: string): string
  {
    if entry != "" then entry else current
  }

  /** The replacement product the update menu builds: each field is the entered value, or the
      current value where the entry was left blank. */
  function MergeProduct(current: ProductRecord, name: string, price: Entry<Price>, quantity: Entry<int>)
    : (r: ProductRecord)
    ensures name != "" ==> r.name == name
    ensures name == "" ==> r.name == current.name
    ensures price.Typed? ==> r.price == price.value
    ensures price.Blank? ==> r.price == current.price
    ensures quantity.Typed? ==> r.quantity == quantity.value
    ensures quantity.Blank? ==> r.quantity == current.quantity
  {
    ProductRecord(ChooseText(name, current.name), Choose(price, current.price), Choose(quantity, current.quantity))
  }

  /** The replacement supplier the update menu builds, field by field as for products. */
  function MergeSupplier(current: SupplierRecord, name: string, contact: string, category: string)
    : (r: SupplierRecord)
    ensures r.name == (if name != "" then name else current.name)
    ensures r.contact == (if contact != "" then contact else current.contact)
    ensures r.category == (if category != "" then category else current.category)
  {
    SupplierRecord(ChooseText(name, current.name), ChooseText(contact, current.contact), ChooseText(category, current.category))
  }

  /** Leaving every entry blank rebuilds the current record; filling every entry ignores it. */
  lemma MergeProductExtremes(current: ProductRecord, other: ProductRecord)
    ensures MergeProduct(current, "", Blank, Blank) == current
    ensures other.name != "" ==>
      MergeProduct(current, other.name, Typed(other.price), Typed(other.quantity)) == other
  {
  }

  /** Entering the same values a second time changes nothing more. */
  lemma MergeProductIdempotent(current: ProductRecord, name: string, price: Entry<Price>, quantity: Entry<int>)
    ensures MergeProduct(MergeProduct(current, name, price, quantity), name, price, quantity)
         == MergeProduct(current, name, price, quantity)
  {
  }

  lemma MergeSupplierExtremes(current: SupplierRecord, other: SupplierRecord)
    ensures MergeSupplier(current, "", "", "") == current
    ensures other.name != "" && other.contact != "" && other.category != "" ==>
      MergeSupplier(current, other.name, other.contact, other.category) == other
  {
  }

  lemma MergeSupplierIdempotent(current: SupplierRecord, name: string, contact: string, category: string)
    ensures MergeSupplier(MergeSupplier(current, name, contact, category), name, contact, category)
         == MergeSupplier(current, name, contact, category)
  {
  }
}
