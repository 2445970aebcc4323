/** `cart_summary`, the context processor that both billing and core
    define: fold the session's `"cart"` dict into an item count and a
    total. The dict's values are taken in insertion order; a value's
    `"qty"` and `"price"` keys may be absent. */
module SessionCart {
  import opened Common

  /** One value of the session cart dict. */
  datatype SessionItem = SessionItem(qty: Option<int>, price: Option<int>)

  function Qty(it: SessionItem): int {
    it.qty.GetOr(1)
  }

  function Price(it: SessionItem): int {
    it.price.GetOr(0)
  }

  /** `sum(item.get("qty", 1) for item in cart.values())`. */
  function CountOf(items: seq<SessionItem>): int {
    if items == [] then 0 else Qty(items[0]) + CountOf(items[1..])
  }

  /** `sum(item.get("price", 0) * item.get("qty", 1) for item in cart.values())`. */
  function TotalOf(items: seq<SessionItem>): int {
    if items == [] then 0 else Price(items[0]) * Qty(items[0]) + TotalOf(items[1..])
  }

  datatype Summary = Summary(count: int, total: int)

  /** billing/context_processors.py `cart_summary`: a missing cart reads as
      an empty dict. */
  function CartSummary(cart: Option<seq<SessionItem>>): (r: Summary)
    ensures cart.None? || cart.value == [] ==> r == Summary(0, 0)
  {
    var items := cart.GetOr([]);
    Summary(CountOf(items), TotalOf(items))
  }

  /** Adding one more value to the dict adds its quantity (1 when absent)
      to the count and its price times quantity (0 when the price is
      absent) to the total. */
  lemma {:induction false} SummarySnoc(items: seq<SessionItem>, it: SessionItem)
    ensures CountOf(items + [it]) == CountOf(items) + Qty(it)
    ensures TotalOf(items + [it]) == TotalOf(items) + Price(it) * Qty(it)
  {
    if items == [] {
      assert items + [it] == [it];
    } else {
      assert (items + [it])[1..] == items[1..] + [it];
      SummarySnoc(items[1..], it);
    }
  }

  /** An item without a price still counts, but adds nothing to the total. */
  lemma UnpricedItemCountsButCostsNothing(items: seq<SessionItem>, q: Option<int>)
    ensures var after := CartSummary(Some(items + [SessionItem(q, None)]));
            var before := CartSummary(Some(items));
            after.count == before.count + q.GetOr(1) && after.total == before.total
  {
    SummarySnoc(items, SessionItem(q, None));
  }

  /** With no quantities given the count is the number of values. */
  lemma {:induction false} CountWithoutQuantities(items: seq<SessionItem>)
    requires forall i :: 0 <= i < |items| ==> items[i].qty.None?
    ensures CountOf(items) == |items|
  {
    if items != [] {
      assert forall i :: 0 <= i < |items[1..]| ==> items[1..][i] == items[i + 1];
      CountWithoutQuantities(items[1..]);
    }
  }

  /** core/context_processors.py `cart_summary`: the same two sums,
      computed here in one pass over the values. It returns exactly what
      the billing version returns. */
  method CoreCartSummary(cart: Option<seq<SessionItem>>) returns (r: Summary)
    ensures r == CartSummary(cart)
  {
    var items := cart.GetOr([]);
    var count := 0;
    var total := 0;
    var i := 0;
    while i < |items|
      invariant 0 <= i <= |items|
      invariant count == CountOf(items[..i]) && total == TotalOf(items[..i])
    {
      assert items[..i + 1] == items[..i] + [items[i]];
      SummarySnoc(items[..i], items[i]);
      count := count + Qty(items[i]);
      total := total + Price(items[i]) * Qty(items[i]);
      i := i + 1;
    }
    assert items[..i] == items;
    r := Summary(count, total);
  }
}
