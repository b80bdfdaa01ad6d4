/** The daily stock operations of main3.py. Products stay as the raw text of their CSV columns
    and the operations change the list's rows in place, so the list is an array of rows. The
    quantity column is read with `int()` and written back with `str()`. */
module StockSheet {
  import opened Keys
  import opened Records
  import opened Decimal

  /** Which message the operation ends with; `Saved` is the only one that writes the file. */
  datatype SheetOutcome = Saved | ProductNotFound | InvalidInput | InvalidQuantity

  /** The first row whose `Name` matches case-insensitively, or None. */
  method SearchItem(data: array<Row>, name: string) returns (r: Option<nat>)
    ensures r == FirstMatch(data[..], RowName, name)
  {
    var i := 0;
    while i < data.Length
      invariant 0 <= i <= data.Length
      invariant forall j :: 0 <= j < i ==> !SameName(RowName(data[..][j]), name)
    {
      if SameName(data[i].name, name) {
        FirstMatchAt(data[..], RowName, name, i);
        return Some(i);
      }
      i := i + 1;
    }
    return None;
  }

  /** "Record a Sale": applied only when 0 < sold <= current stock, writing back the decimal
      text of the new count; a quantity that is not a number, or a sale out of range, changes
      nothing and is not saved. */
  method RecordSale(products: array<Row>, name: string, soldEntry: string) returns (r: SheetOutcome)
    modifies products
    ensures FirstMatch(old(products[..]), RowName, name).None? ==>
      r == ProductNotFound && products[..] == old(products[..])
    ensures FirstMatch(old(products[..]), RowName, name).Some? ==>
      var i := FirstMatch(old(products[..]), RowName, name).value;
      var current := ParseDecimal(old(products[..])[i].quantity);
      var sold := ParseDecimal(soldEntry);
      if current.None? || sold.None? then r == InvalidInput && products[..] == old(products[..])
      else if 0 < sold.value <= current.value then
        r == Saved &&
        products[..] == old(products[..])[i := old(products[..])[i].(quantity := DecimalString(current.value - sold.value))]
      else r == InvalidQuantity && products[..] == old(products[..])
    ensures r == Saved ==>
      var i := FirstMatch(old(products[..]), RowName, name).value;
      var before := ParseDecimal(old(products[..])[i].quantity);
      var after := ParseDecimal(products[i].quantity);
      before.Some? && after.Some? && 0 <= after.value < before.value
  {
    var found := SearchItem(products, name);
    if found.None? {
      return ProductNotFound;
    }
    var i := found.value;
    var current := ParseDecimal(products[i].quantity);
    if current.None? {
      return InvalidInput;
    }
    var sold := ParseDecimal(soldEntry);
    if sold.None? {
      return InvalidInput;
    }
    if 0 < sold.value <= current.value {
      ParseDecimalString(current.value - sold.value);
      products[i] := products[i].(quantity := DecimalString(current.value - sold.value));
      assert ParseDecimal(products[i].quantity) == Some(current.value - sold.value);
      assert products[..] == old(products[..])[i := old(products[..])[i].(quantity := DecimalString(current.value - sold.value))];
      return Saved;
    }
    return InvalidQuantity;
  }

  /** "Receive a Delivery": applied only when the received amount is positive, writing back the
      decimal text of the new count; otherwise nothing changes and nothing is saved. */
  method ReceiveDelivery(products: array<Row>, name: string, receivedEntry: string) returns (r: SheetOutcome)
    modifies products
    ensures FirstMatch(old(products[..]), RowName, name).None? ==>
      r == ProductNotFound && products[..] == old(products[..])
    ensures FirstMatch(old(products[..]), RowName, name).Some? ==>
      var i := FirstMatch(old(products[..]), RowName, name).value;
      var current := ParseDecimal(old(products[..])[i].quantity);
      var received := ParseDecimal(receivedEntry);
      if current.None? || received.None? then r == InvalidInput && products[..] == old(products[..])
      else if received.value > 0 then
        r == Saved &&
        products[..] == old(products[..])[i := old(products[..])[i].(quantity := DecimalString(current.value + received.value))]
      else r == InvalidQuantity && products[..] == old(products[..])
    ensures r == Saved ==>
      var i := FirstMatch(old(products[..]), RowName, name).value;
      var before := ParseDecimal(old(products[..])[i].quantity);
      var after := ParseDecimal(products[i].quantity);
      before.Some? && after.Some? && after.value > before.value
  {
    var found := SearchItem(products, name);
    if found.None? {
      return ProductNotFound;
    }
    var i := found.value;
    var current := ParseDecimal(products[i].quantity);
    if current.None? {
      return InvalidInput;
    }
    var received := ParseDecimal(receivedEntry);
    if received.None? {
      return InvalidInput;
    }
    if received.value > 0 {
      ParseDecimalString(current.value + received.value);
      products[i] := products[i].(quantity := DecimalString(current.value + received.value));
      assert ParseDecimal(products[i].quantity) == Some(current.value + received.value);
      assert products[..] == old(products[..])[i := old(products[..])[i].(quantity := DecimalString(current.value + received.value))];
      return Saved;
    }
    return InvalidQuantity;
  }
}
