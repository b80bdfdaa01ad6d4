/** The stock-quantity rules layered on the product list: receiving a delivery, recording a
    sale, a manual adjustment, and the low-stock query with its suggested reorder amount. Each
    rule acts on the first product whose name matches case-insensitively. */
module StockRules {
  import opened Keys
  import opened Records
  import opened Decimal

  datatype Refusal = NotFound | InsufficientStock

  /** The outcome of a stock rule: the new product list, or why nothing changed. */
  datatype Change = Applied(rows: seq<ProductRecord>) | Refused(why: Refusal)

  /** t is s with only the quantity of position i changed, to n. */
  ghost predicate QuantityChangedAt(s: seq<ProductRecord>, t: seq<ProductRecord>, i: nat, n: int)
  {
    |t| == |s| && i < |s| &&
    t[i].name == s[i].name && t[i].price == s[i].price && t[i].quantity == n &&
    forall j :: 0 <= j < |s| && j != i ==> t[j] == s[j]
  }

  function WithQuantity(s: seq<ProductRecord>, i: nat, n: int): (t: seq<ProductRecord>)
    requires i < |s|
    ensures QuantityChangedAt(s, t, i, n)
  {
    s[i := s[i].(quantity := n)]
  }

  /** Receiving `qty` units adds them to the first match; no match refuses. */
  function Receive(s: seq<ProductRecord>, name: string, qty: int): (c: Change)
    ensures c.Refused? <==> forall j :: 0 <= j < |s| ==> !SameName(s[j].name, name)
    ensures c.Refused? ==> c.why == NotFound
    ensures c.Applied? ==> var i := FirstMatch(s, ProductName, name).value;
      QuantityChangedAt(s, c.rows, i, s[i].quantity + qty)
  {
    match FirstMatch(s, ProductName, name)
    case None => Refused(NotFound)
    case Some(i) => Applied(WithQuantity(s, i, s[i].quantity + qty))
  }

  /** Selling `qty` units takes them from the first match when it holds at least that many;
      otherwise the whole sale is refused (a later product of the same name is not tried). */
  function Sale(s: seq<ProductRecord>, name: string, qty: int): (c: Change)
    ensures c == Refused(NotFound) <==> forall j :: 0 <= j < |s| ==> !SameName(s[j].name, name)
    ensures c == Refused(InsufficientStock) <==>
      FirstMatch(s, ProductName, name).Some? && s[FirstMatch(s, ProductName, name).value].quantity < qty
    ensures c.Applied? ==> var i := FirstMatch(s, ProductName, name).value;
      QuantityChangedAt(s, c.rows, i, s[i].quantity - qty) && c.rows[i].quantity >= 0
  {
    match FirstMatch(s, ProductName, name)
    case None => Refused(NotFound)
    case Some(i) =>
      if s[i].quantity >= qty then Applied(WithQuantity(s, i, s[i].quantity - qty))
      else Refused(InsufficientStock)
  }

  /** A manual adjustment overwrites the first match's quantity, whatever it was. */
  function Adjust(s: seq<ProductRecord>, name: string, newQuantity: int): (c: Change)
    ensures c.Refused? <==> forall j :: 0 <= j < |s| ==> !SameName(s[j].name, name)
    ensures c.Refused? ==> c.why == NotFound
    ensures c.Applied? ==> var i := FirstMatch(s, ProductName, name).value;
      QuantityChangedAt(s, c.rows, i, newQuantity)
  {
    match FirstMatch(s, ProductName, name)
    case None => Refused(NotFound)
    case Some(i) => Applied(WithQuantity(s, i, newQuantity))
  }

  /** Changing a quantity keeps every name, so every search finds the same position. */
  lemma WithQuantityKeepsSearch(s: seq<ProductRecord>, i: nat, n: int, q: string)
    requires i < |s|
    ensures FirstMatch(WithQuantity(s, i, n), ProductName, q) == FirstMatch(s, ProductName, q)
  {
    var t := WithQuantity(s, i, n);
    assert forall j :: 0 <= j < |s| ==> ProductName(s[j]) == ProductName(t[j]);
    FirstMatchSameKeys(s, t, ProductName, q);
  }

  /** Receiving unfolds to a quantity change at the first match. */
  lemma ReceiveAt(s: seq<ProductRecord>, name: string, qty: int, i: nat)
    requires FirstMatch(s, ProductName, name) == Some(i)
    ensures i < |s| && Receive(s, name, qty) == Applied(WithQuantity(s, i, s[i].quantity + qty))
  {
  }

  /** A sale the first match covers unfolds to a quantity change there. */
  lemma SaleAt(s: seq<ProductRecord>, name: string, qty: int, i: nat, n: int)
    requires FirstMatch(s, ProductName, name) == Some(i)
    requires s[i].quantity >= qty && n == s[i].quantity - qty
    ensures Sale(s, name, qty) == Applied(WithQuantity(s, i, n))
  {
  }

  /** Setting a quantity back to what it was restores the list. */
  lemma WithQuantityRestore(s: seq<ProductRecord>, i: nat, n: int)
    requires i < |s|
    ensures WithQuantity(WithQuantity(s, i, n), i, s[i].quantity) == s
  {
  }

  /** Receiving q units and then selling q units of the same product restores the list, as long
      as the product did not already hold a negative quantity. */
  lemma ReceiveThenSale(s: seq<ProductRecord>, name: string, qty: int)
    requires FirstMatch(s, ProductName, name).Some?
    requires s[FirstMatch(s, ProductName, name).value].quantity >= 0
    ensures Sale(Receive(s, name, qty).rows, name, qty) == Applied(s)
  {
    var i := FirstMatch(s, ProductName, name).value;
    var t := WithQuantity(s, i, s[i].quantity + qty);
    ReceiveAt(s, name, qty, i);
    WithQuantityKeepsSearch(s, i, s[i].quantity + qty, name);
    SaleAt(t, name, qty, i, s[i].quantity);
    WithQuantityRestore(s, i, s[i].quantity + qty);
  }

  /** A positive sale that the first match can cover goes through, leaves it at zero or more,
      and strictly lowers it. */
  lemma SaleBounds(s: seq<ProductRecord>, name: string, qty: int)
    requires FirstMatch(s, ProductName, name).Some?
    requires 0 < qty <= s[FirstMatch(s, ProductName, name).value].quantity
    ensures Sale(s, name, qty).Applied?
    ensures var i := FirstMatch(s, ProductName, name).value;
      0 <= Sale(s, name, qty).rows[i].quantity < s[i].quantity
  {
  }

  /** A delivery never reorders, renames or reprices a record, so a later search finds the same
      position. */
  lemma ReceiveKeepsSearch(s: seq<ProductRecord>, name: string, qty: int, q: string)
    requires Receive(s, name, qty).Applied?
    ensures FirstMatch(Receive(s, name, qty).rows, ProductName, q) == FirstMatch(s, ProductName, q)
  {
    var i := FirstMatch(s, ProductName, name).value;
    ReceiveAt(s, name, qty, i);
    WithQuantityKeepsSearch(s, i, s[i].quantity + qty, q);
  }

  /** The same for a sale. */
  lemma SaleKeepsSearch(s: seq<ProductRecord>, name: string, qty: int, q: string)
    requires Sale(s, name, qty).Applied?
    ensures FirstMatch(Sale(s, name, qty).rows, ProductName, q) == FirstMatch(s, ProductName, q)
  {
    var i := FirstMatch(s, ProductName, name).value;
    SaleAt(s, name, qty, i, s[i].quantity - qty);
    WithQuantityKeepsSearch(s, i, s[i].quantity - qty, q);
  }

  /** The same for a manual adjustment. */
  lemma AdjustKeepsSearch(s: seq<ProductRecord>, name: string, newQuantity: int, q: string)
    requires Adjust(s, name, newQuantity).Applied?
    ensures FirstMatch(Adjust(s, name, newQuantity).rows, ProductName, q) == FirstMatch(s, ProductName, q)
  {
    var i := FirstMatch(s, ProductName, name).value;
    WithQuantityKeepsSearch(s, i, newQuantity, q);
  }

  /** The products whose quantity is strictly below the threshold, in store order: the
      comprehension `[p for p in products if p['quantity'] < threshold]`. */
  function LowStock(s: seq<ProductRecord>, threshold: int): (r: seq<ProductRecord>)
    ensures |r| <= |s|
    decreases |s|
  {
    if |s| == 0 then []
    else (if s[0].quantity < threshold then [s[0]] else []) + LowStock(s[1..], threshold)
  }

  /** A product is listed exactly when it is in the store with a quantity below the threshold. */
  lemma {:induction false} LowStockMembers(s: seq<ProductRecord>, threshold: int)
    ensures forall p :: p in LowStock(s, threshold) <==> p in s && p.quantity < threshold
    decreases |s|
  {
    if |s| > 0 {
      LowStockMembers(s[1..], threshold);
      assert s == [s[0]] + s[1..];
    }
  }

  /** The query unfolds one product at a time. */
  lemma LowStockCons(s: seq<ProductRecord>, threshold: int)
    requires |s| > 0
    ensures LowStock(s, threshold) == (if s[0].quantity < threshold then [s[0]] else []) + LowStock(s[1..], threshold)
  {
  }

  /** The query keeps store order: it distributes over concatenation. */
  lemma {:induction false} LowStockAppend(a: seq<ProductRecord>, b: seq<ProductRecord>, threshold: int)
    ensures LowStock(a + b, threshold) == LowStock(a, threshold) + LowStock(b, threshold)
    decreases |a|
  {
    if |a| == 0 {
      assert a + b == b;
    } else {
      var h := if a[0].quantity < threshold then [a[0]] else [];
      assert LowStock(a + b, threshold) == h + LowStock(a[1..] + b, threshold) by {
        assert (a + b)[0] == a[0];
        assert (a + b)[1..] == a[1..] + b;
        LowStockCons(a + b, threshold);
      }
      assert LowStock(a, threshold) == h + LowStock(a[1..], threshold) by {
        LowStockCons(a, threshold);
      }
      LowStockAppend(a[1..], b, threshold);
      assert h + (LowStock(a[1..], threshold) + LowStock(b, threshold))
          == (h + LowStock(a[1..], threshold)) + LowStock(b, threshold);
    }
  }

  /** The amount offered as a reorder suggestion: twice the threshold less what is held. */
  function SuggestedOrder(threshold: int, quantity: int): (r: int)
    ensures quantity < threshold ==> r > threshold
    ensures quantity + r == 2 * threshold
  {
    threshold * 2 - quantity
  }

  /** For every low-stock product the suggestion is more than the threshold, so reordering it
      brings the product back above the threshold. */
  lemma SuggestionExceedsThreshold(s: seq<ProductRecord>, threshold: int)
    ensures forall p :: p in LowStock(s, threshold) ==>
      SuggestedOrder(threshold, p.quantity) > threshold &&
      p.quantity + SuggestedOrder(threshold, p.quantity) == 2 * threshold
  {
    LowStockMembers(s, threshold);
  }

  /** `int(input(...) or default)`: a blank entry gives the default, anything else is read as a
      number (None where Python raises ValueError). */
  function ThresholdFromEntry(entry: string, default: int): (r: Option<int>)
    ensures entry == "" ==> r == Some(default)
    ensures AllDigits(entry) && |entry| > 0 ==> r.Some? && r.value >= 0
    ensures r.None? ==> entry != ""
  {
    if entry == "" then Some(default) else ParseDecimal(entry)
  }

  /** A blank entry yields the default; the decimal text of a number yields that number; the
      entry is never mistaken for the default otherwise. */
  lemma ThresholdEntries(default: int, n: int)
    ensures ThresholdFromEntry("", default) == Some(default)
    ensures ThresholdFromEntry(DecimalString(n), default) == Some(n)
  {
    ParseDecimalString(n);
  }
}
