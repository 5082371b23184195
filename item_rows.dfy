/**
 * The per-row behaviour `setupCalculations` attaches to the item table
 * (script.js:157-200): the amount field follows quantity × unit price, the
 * unit price is reformatted as it is typed, and Enter in the unit price
 * moves the focus to the next field of the page.
 */
module ItemRows {
  import opened Wrappers
  import opened NumberCodec

  /** The amount text `calculateAmount` writes (script.js:166-171). */
  function AmountText(quantity: string, unitPrice: string): (r: string)
    ensures var p := Mul(ParseNumber(quantity), ParseNumber(unitPrice));
      (r == [] <==> p == NaN || p == Finite(0)) &&
      (r != [] ==> ParseNumber(r) == p)
  {
    var p := Mul(ParseNumber(quantity), ParseNumber(unitPrice));
    if p.Finite? then
      FormatThenParse(p.value);
      FormatNumber(Num(p))
    else FormatNumber(Num(p))
  }

  /** The unit-price text after the reformatting handler (script.js:177-179). */
  function Reformat(text: string): (r: string)
    ensures r == [] <==> ParseNumber(text) == NaN || ParseNumber(text) == Finite(0)
    ensures ParseNumber(text).Finite? ==> ParseNumber(r) == ParseNumber(text)
  {
    var n := ParseNumber(text);
    if n.Finite? then
      FormatThenParse(n.value);
      FormatNumber(Num(n))
    else FormatNumber(Num(n))
  }

  /** Reformatting an already reformatted unit price changes nothing. */
  lemma ReformatIdempotent(text: string)
    ensures Reformat(Reformat(text)) == Reformat(text)
  {
    var r := Reformat(text);
    if r == [] {
      assert ParseNumber(r) == Finite(0);
    } else {
      assert ParseNumber(r) == ParseNumber(text);
    }
  }

  /** Reformatting the unit price does not change the amount it gives. */
  lemma AmountIgnoresReformat(quantity: string, unitPrice: string)
    ensures AmountText(quantity, Reformat(unitPrice)) == AmountText(quantity, unitPrice)
  {
    var q, p := ParseNumber(quantity), ParseNumber(unitPrice);
    if p.NaN? {
      assert ParseNumber(Reformat(unitPrice)) == Finite(0);
      assert Mul(q, Finite(0)) == NaN || Mul(q, Finite(0)) == Finite(0);
    }
  }

  /** The three inputs of one item row that `setupCalculations` wires together. */
  class ItemRow {
    var quantity: string   // the 수량 input (key __4)
    var unitPrice: string  // the 단가 input (key __6)
    var amount: string     // the 금액 input (key __7)

    /** The amount field shows quantity × unit price, as `calculateAmount` computes it. */
    predicate Consistent()
      reads this
    {
      amount == AmountText(quantity, unitPrice)
    }

    /** Wiring a rendered row: the initial `calculateAmount()` of script.js:197. */
    constructor (quantity0: string, unitPrice0: string, amount0: string)
      ensures quantity == quantity0 && unitPrice == unitPrice0
      ensures Consistent()
    {
      quantity, unitPrice, amount := quantity0, unitPrice0, amount0;
      new;
      CalculateAmount();
    }

    /** `calculateAmount` (script.js:166-171). */
    method CalculateAmount()
      modifies this
      ensures quantity == old(quantity) && unitPrice == old(unitPrice)
      ensures amount == AmountText(quantity, unitPrice)
    {
      var q := ParseNumber(quantity);
      var p := ParseNumber(unitPrice);
      var a := Mul(q, p);
      amount := FormatNumber(Num(a));
    }

    /** The reformatting handler of the unit price (script.js:177-179). */
    method ReformatUnitPrice()
      modifies this
      ensures quantity == old(quantity) && amount == old(amount)
      ensures unitPrice == Reformat(old(unitPrice))
    {
      unitPrice := FormatNumber(Num(ParseNumber(unitPrice)));
    }

    /** An `input` event on the quantity: the new text, then `calculateAmount`. */
    method QuantityInput(text: string)
      modifies this
      ensures quantity == text && unitPrice == old(unitPrice)
      ensures Consistent()
    {
      quantity := text;
      CalculateAmount();
    }

    /**
     * An `input` event on the unit price: the new text, then the two
     * listeners in the order they were added, `calculateAmount` and the
     * reformatting. The amount still matches the reformatted price.
     */
    method UnitPriceInput(text: string)
      modifies this
      ensures quantity == old(quantity)
      ensures unitPrice == Reformat(text)
      ensures amount == AmountText(quantity, text)
      ensures Consistent()
    {
      unitPrice := text;
      CalculateAmount();
      ReformatUnitPrice();
      AmountIgnoresReformat(quantity, text);
    }
  }

  /** `list.indexOf(x)`: the first index holding `x`, or -1. */
  function IndexOf<T(==)>(list: seq<T>, x: T): (i: int)
    ensures -1 <= i < |list|
    ensures i == -1 <==> x !in list
    ensures i >= 0 ==> list[i] == x && x !in list[..i]
    decreases |list|
  {
    if list == [] then -1
    else if list[0] == x then 0
    else
      var j := IndexOf(list[1..], x);
      assert j >= 0 ==> list[..j + 1] == [list[0]] + list[1..][..j];
      if j == -1 then -1 else j + 1
  }

  /**
   * Enter in a unit-price field (script.js:187-192): the index of the field
   * that takes the focus among all fields of the page, if any.
   */
  function NextFocus<T(==)>(fields: seq<T>, current: T): (next: Option<nat>)
    ensures next.Some? <==> current in fields && IndexOf(fields, current) < |fields| - 1
    ensures next.Some? ==> 0 < next.value < |fields| && fields[next.value - 1] == current
                           && current !in fields[..next.value - 1]
  {
    var i := IndexOf(fields, current);
    if i > -1 && i < |fields| - 1 then Some(i + 1) else None
  }
}
