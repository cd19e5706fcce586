/** What an order is charged, which checkouts are refused and why, and what a confirmation changes. */
module Invoices {
  import opened Text
  import opened Fees
  import opened Checkout

  // ----- Amounts --------------------------------------------------------------------------

  /** The live price of every single unit in the cart, one after the other. */
  function UnitPrices(items: seq<CartItem>): seq<nat>
    requires AllSellable(items)
  {
    if items == [] then []
    else
      var n := |items| - 1;
      UnitPrices(items[..n]) + seq(items[n].quantity, _ => items[n].variant.value.priceCents)
  }

  function Total(prices: seq<nat>): nat {
    if prices == [] then 0 else Total(prices[..|prices| - 1]) + prices[|prices| - 1]
  }

  lemma {:induction false} TotalAppend(prices: seq<nat>, n: nat, price: nat)
    ensures Total(prices + seq(n, _ => price)) == Total(prices) + n * price
  {
    if n == 0 {
      assert prices + seq(n, _ => price) == prices;
    } else {
      var all := prices + seq(n, _ => price);
      assert all[..|all| - 1] == prices + seq(n - 1, _ => price);
      TotalAppend(prices, n - 1, price);
      assert n * price == (n - 1) * price + price;
    }
  }

  lemma {:induction false} LastLine(items: seq<CartItem>)
    requires items != [] && AllSellable(items)
    ensures AllSellable(items[..|items| - 1])
    ensures var n, lines := |items| - 1, LinesOf(items);
            && lines[..n] == LinesOf(items[..n])
            && lines[n].totalCents == items[n].quantity * items[n].variant.value.priceCents
  {
  }

  /** The subtotal is the price of every unit in the cart. */
  lemma {:induction false} SubtotalIsUnits(items: seq<CartItem>)
    requires AllSellable(items)
    ensures Subtotal(LinesOf(items)) == Total(UnitPrices(items))
  {
    hide LinesOf;
    if items != [] {
      var n := |items| - 1;
      LastLine(items);
      SubtotalIsUnits(items[..n]);
      TotalAppend(UnitPrices(items[..n]), items[n].quantity, items[n].variant.value.priceCents);
      LinesSize(items);
    } else {
      LinesSize(items);
    }
  }

  lemma {:induction false} LinesSize(items: seq<CartItem>)
    requires AllSellable(items)
    ensures |LinesOf(items)| == |items|
  {
  }

  /** Each line carries its item's quantity and live price. */
  lemma {:induction false} LinesCarry(items: seq<CartItem>, k: nat)
    requires AllSellable(items) && k < |items|
    ensures |LinesOf(items)| == |items|
    ensures var line, price := LinesOf(items)[k], items[k].variant.value.priceCents;
            line.quantity == items[k].quantity && line.unitPriceCents == price
            && line.totalCents == items[k].quantity * price
  {
  }

  /** The fee is within half a cent of the share of the subtotal, halves going up. */
  predicate NearestShare(fee: int, subtotal: nat, bps: int) {
    -5000 < 10000 * fee - subtotal * bps <= 5000
  }

  /**
   A new order is a DRAFT over exactly the given lines; it charges their subtotal, and a
   fee only to connected stores, the share of the subtotal rounded to the nearest cent.
   */
  lemma {:induction false} OrderCharges(s: State, l: Label)
    requires Accepted(s, l) && 0 <= l.bps <= 10000
    ensures var t, o, subtotal := Step(s, l), NewOrder(s, l), Subtotal(l.lines);
            && t.orders == s.orders + [o] && t.nextId == s.nextId + 1
            && o.id == s.nextId && o.createdAt == l.at && o.status == DRAFT && o.lines == l.lines
            && o.subtotalCents == subtotal && o.totalCents == subtotal
            && (!l.connected ==> o.applicationFeeCents == 0)
            && (l.connected ==> NearestShare(o.applicationFeeCents, subtotal, l.bps))
  {
    hide Subtotal, NextNumber, Used, PlatformFeeCents;
    FeeIsNearest(Subtotal(l.lines), l.bps, PlatformFeeCents(Subtotal(l.lines), l.bps));
  }

  // ----- Numbers ----------------------------------------------------------------------------

  predicate AllZeros(s: string) {
    forall k :: 0 <= k < |s| ==> s[k] == '0'
  }

  lemma {:induction false} ZerosRead(s: string)
    requires AllZeros(s)
    ensures LeadingDigits(s) == s
  {
    if s != "" {
      ZerosRead(s[1..]);
    }
  }

  lemma {:induction false} ZerosAreNothing(s: string)
    requires AllZeros(s)
    ensures DigitsValue(s) == 0
  {
    if s != "" {
      ZerosAreNothing(s[..|s| - 1]);
    }
  }

  /** The first order of a store is number 1001, and so is the one after a number without a value. */
  lemma {:induction false} NumbersStart(o: Order)
    requires AllZeros(o.number) || !IsDigit(o.number[0])
    ensures NextNumber([], 0) == "1001" && NextNumber([o], 0) == "1001"
  {
    if AllZeros(o.number) {
      ZerosRead(o.number);
      ZerosAreNothing(o.number);
    } else {
      assert LeadingDigits(o.number) == "";
    }
    ThousandOne();
  }

  lemma {:induction false} ThousandOne()
    ensures Digits(1001) == "1001"
  {
    assert Digits(1) == "1" && Digits(10) == "1" + "0" && Digits(100) == "1" + "0" + "0";
  }

  // ----- Confirmation -----------------------------------------------------------------------

  /** A confirmation makes the order with the id PENDING and changes nothing else of any order. */
  lemma {:induction false} ConfirmWrites(s: State, id: nat, k: nat)
    requires k < |s.orders|
    ensures var t := Step(s, Confirm(id));
            && |t.orders| == |s.orders| && t.nextId == s.nextId
            && t.orders[k].status == (if s.orders[k].id == id then PENDING else s.orders[k].status)
            && t.orders[k].(status := s.orders[k].status) == s.orders[k]
  {
  }

  // ----- Refusals ---------------------------------------------------------------------------

  /** Every item still has its variant, and the variant can be bought. */
  predicate AllAvailable(items: seq<CartItem>) {
    forall it :: it in items ==> it.variant.Some? && it.variant.value.available
  }

  /** What a cart has to be to go through checkout. */
  predicate CartReady(cart: Option<Cart>) {
    cart.Some? && !cart.value.converted && cart.value.items != [] && AllAvailable(cart.value.items)
  }

  /** A checkout is refused before its order exactly when Stripe or the store is missing or the cart is not ready. */
  lemma {:induction false} RefusedIff(stripe: bool, store: bool, cart: Option<Cart>)
    ensures Refusal(stripe, store, cart) == None <==> stripe && store && CartReady(cart)
    ensures Refusal(stripe, store, cart) == Some(StripeUnconfigured) <==> !stripe
    ensures Refusal(stripe, store, cart) == Some(StoreNotFound) <==> stripe && !store
    ensures Refusal(stripe, store, cart) == Some(CartNotFound) <==> stripe && store && cart == None
    ensures Refusal(stripe, store, cart) == Some(AlreadyCheckedOut) <==>
              stripe && store && cart.Some? && cart.value.converted
    ensures Refusal(stripe, store, cart) == Some(CartEmpty) <==>
              stripe && store && cart.Some? && !cart.value.converted && cart.value.items == []
    ensures Refusal(stripe, store, cart) == Some(ItemUnavailable) <==>
              stripe && store && cart.Some? && !cart.value.converted && !AllAvailable(cart.value.items)
  {
    if cart.Some? {
      assert forall i :: 0 <= i < |cart.value.items| ==> cart.value.items[i] in cart.value.items;
    }
  }
}
