/** The booking cart: its items (billing/models.py `CartItem`), the three
    cart views of scheduling/views.py (`cart_add`, `cart_remove`,
    `cart_clear`) and the computed totals of `Cart`, all in integer cents.
    A cart's items are the rows of its item table in primary-key order; the
    map `View` is the same cart keyed by (employee, category, slot, date). */
module Carts {
  import opened Common
  import opened Dates
  import opened Money
  import opened Scheduling

  /** The fields of the (cart, service_category, time_slot, date, employee)
      uniqueness constraint, for one cart. */
  datatype CartKey = CartKey(employee: EmployeeId, category: CategoryId, slot: SlotId, date: CalendarDate)

  /** A cart item: its primary key, its key, the PRE-TAX unit price in
      cents and the quantity. */
  datatype CartItem = CartItem(id: nat, key: CartKey, unitPrice: int, quantity: nat)

  /** A cart's items, and the primary key the next new item receives. */
  datatype Cart = Cart(items: seq<CartItem>, nextId: nat)

  predicate UniqueKeys(items: seq<CartItem>) {
    forall i, j :: 0 <= i < j < |items| ==> items[i].key != items[j].key
  }

  /** Item keys are increasing (rows in primary-key order) and below the
      next key. */
  predicate IdsOrdered(items: seq<CartItem>, nextId: nat) {
    && (forall i, j :: 0 <= i < j < |items| ==> items[i].id < items[j].id)
    && (forall i :: 0 <= i < |items| ==> items[i].id < nextId)
  }

  /** What the database keeps true of every cart. */
  predicate Valid(c: Cart) {
    UniqueKeys(c.items) && IdsOrdered(c.items, c.nextId)
  }

  predicate HasKey(items: seq<CartItem>, key: CartKey) {
    exists i :: 0 <= i < |items| && items[i].key == key
  }

  /** Where the item with `key` sits, if there is one. */
  function IndexOfKey(items: seq<CartItem>, key: CartKey): (r: Option<nat>)
    ensures r.Some? ==> r.value < |items| && items[r.value].key == key
    ensures r.Some? ==> forall j :: 0 <= j < r.value ==> items[j].key != key
    ensures r.None? <==> !HasKey(items, key)
  {
    if items == [] then None
    else if items[0].key == key then Some(0)
    else
      match IndexOfKey(items[1..], key)
      case None =>
        assert forall i :: 1 <= i < |items| ==> items[i] == items[1..][i - 1];
        None
      case Some(j) =>
        assert forall i :: 1 <= i <= j ==> items[i] == items[1..][i - 1];
        Some(j + 1)
  }

  /** Where the item with primary key `id` sits, if there is one. */
  function IndexOfId(items: seq<CartItem>, id: nat): (r: Option<nat>)
    ensures r.Some? ==> r.value < |items| && items[r.value].id == id
    ensures r.None? <==> forall i :: 0 <= i < |items| ==> items[i].id != id
  {
    if items == [] then None
    else if items[0].id == id then Some(0)
    else
      match IndexOfId(items[1..], id)
      case None =>
        assert forall i :: 1 <= i < |items| ==> items[i] == items[1..][i - 1];
        None
      case Some(j) => Some(j + 1)
  }

  // ---------------------------------------------------------------------------
  // The cart as a map keyed by CartKey
  // ---------------------------------------------------------------------------

  function Keys(items: seq<CartItem>): set<CartKey> {
    set i | 0 <= i < |items| :: items[i].key
  }

  lemma KeysAreHasKey(items: seq<CartItem>, key: CartKey)
    ensures key in Keys(items) <==> HasKey(items, key)
  {
    if HasKey(items, key) {
      var i :| 0 <= i < |items| && items[i].key == key;
      assert items[i].key in Keys(items);
    }
  }

  /** The cart's items keyed by (employee, category, slot, date). */
  function View(items: seq<CartItem>): (m: map<CartKey, CartItem>)
    ensures m.Keys == Keys(items)
  {
    map k | k in Keys(items) :: items[IndexOfKey(items, k).value]
  }

  /** With unique keys every item is what the map holds under its key. */
  lemma ViewAt(items: seq<CartItem>, i: nat)
    requires UniqueKeys(items) && i < |items|
    ensures items[i].key in View(items) && View(items)[items[i].key] == items[i]
  {
    assert items[i].key in Keys(items);
  }

  /** A map that has exactly the keys of `items` and holds every item under
      its key is the view of `items`. */
  lemma ViewEq(items: seq<CartItem>, m: map<CartKey, CartItem>)
    requires UniqueKeys(items)
    requires Keys(items) == m.Keys
    requires forall i :: 0 <= i < |items| ==> m[items[i].key] == items[i]
    ensures View(items) == m
  {
    forall k | k in m ensures View(items)[k] == m[k] {
      var i := IndexOfKey(items, k).value;
      ViewAt(items, i);
    }
  }

  // ---------------------------------------------------------------------------
  // Upsert: CartItem.objects.get_or_create(...) followed by the price refresh
  // ---------------------------------------------------------------------------

  /** The item `get_or_create` finds or creates for `key`, with its unit
      price set to `price`: a found item keeps its id and quantity, a new
      one takes the next id and quantity 1. */
  function Upsert(c: Cart, key: CartKey, price: int): (r: Cart)
    ensures HasKey(c.items, key) ==> |r.items| == |c.items| && r.nextId == c.nextId
    ensures !HasKey(c.items, key) ==> |r.items| == |c.items| + 1 && r.nextId == c.nextId + 1
    ensures forall i :: 0 <= i < |c.items| && c.items[i].key != key ==> r.items[i] == c.items[i]
  {
    match IndexOfKey(c.items, key)
    case Some(i) => Cart(c.items[i := c.items[i].(unitPrice := price)], c.nextId)
    case None => Cart(c.items + [CartItem(c.nextId, key, price, 1)], c.nextId + 1)
  }

  /** Upsert keeps the cart valid. */
  lemma UpsertValid(c: Cart, key: CartKey, price: int)
    requires Valid(c)
    ensures Valid(Upsert(c, key, price))
  {
    var r := Upsert(c, key, price);
    match IndexOfKey(c.items, key)
    case Some(i) =>
      assert forall j :: 0 <= j < |c.items| ==> r.items[j].key == c.items[j].key && r.items[j].id == c.items[j].id;
    case None =>
      assert forall j :: 0 <= j < |c.items| ==> r.items[j] == c.items[j];
      assert UniqueKeys(r.items) by {
        forall j | 0 <= j < |c.items| ensures c.items[j].key != key {
          assert !HasKey(c.items, key);
        }
      }
  }

  /** Replacing an item by one with the same key keeps the key set. */
  lemma KeysOfUpdate(items: seq<CartItem>, i: nat, x: CartItem)
    requires i < |items| && x.key == items[i].key
    ensures Keys(items[i := x]) == Keys(items)
  {
    var u := items[i := x];
    forall k | k in Keys(u) ensures k in Keys(items) {
      var j :| 0 <= j < |u| && u[j].key == k;
      assert items[j].key == k;
    }
    forall k | k in Keys(items) ensures k in Keys(u) {
      var j :| 0 <= j < |items| && items[j].key == k;
      assert u[j].key == k;
    }
  }

  /** Appending an item adds its key. */
  lemma KeysOfAppend(items: seq<CartItem>, x: CartItem)
    ensures Keys(items + [x]) == Keys(items) + {x.key}
  {
    var u := items + [x];
    forall k | k in Keys(u) ensures k in Keys(items) + {x.key} {
      var j :| 0 <= j < |u| && u[j].key == k;
      if j < |items| {
        assert items[j].key == k;
      }
    }
    assert u[|items|].key == x.key;
    forall k | k in Keys(items) ensures k in Keys(u) {
      var j :| 0 <= j < |items| && items[j].key == k;
      assert u[j].key == k;
    }
  }

  lemma UniqueKeysOfUpdate(items: seq<CartItem>, i: nat, x: CartItem)
    requires UniqueKeys(items) && i < |items| && x.key == items[i].key
    ensures UniqueKeys(items[i := x])
  {
    assert forall j :: 0 <= j < |items| ==> items[i := x][j].key == items[j].key;
  }

  /** Replacing an item by one with the same key, on the map. */
  lemma ViewOfUpdate(items: seq<CartItem>, i: nat, x: CartItem)
    requires UniqueKeys(items) && i < |items| && x.key == items[i].key
    ensures View(items[i := x]) == View(items)[x.key := x]
  {
    var u := items[i := x];
    var m := View(items)[x.key := x];
    UniqueKeysOfUpdate(items, i, x);
    KeysOfUpdate(items, i, x);
    forall j | 0 <= j < |u| ensures m[u[j].key] == u[j] {
      if j != i {
        ViewAt(items, j);
        assert u[j] == items[j] && items[j].key != x.key;
      }
    }
    ViewEq(u, m);
  }

  /** Appending an item with a new key, on the map. */
  lemma ViewOfAppend(items: seq<CartItem>, x: CartItem)
    requires UniqueKeys(items) && !HasKey(items, x.key)
    ensures View(items + [x]) == View(items)[x.key := x]
  {
    var u := items + [x];
    var m := View(items)[x.key := x];
    assert forall j :: 0 <= j < |items| ==> u[j] == items[j];
    assert UniqueKeys(u);
    KeysOfAppend(items, x);
    forall j | 0 <= j < |items| ensures m[u[j].key] == u[j] {
      ViewAt(items, j);
    }
    ViewEq(u, m);
  }

  /** Refreshing an existing entry, on the map. */
  lemma UpsertFoundView(c: Cart, key: CartKey, price: int, i: nat)
    requires Valid(c) && IndexOfKey(c.items, key) == Some(i)
    ensures View(Upsert(c, key, price).items) == View(c.items)[key := c.items[i].(unitPrice := price)]
  {
    var x := c.items[i].(unitPrice := price);
    assert Upsert(c, key, price).items == c.items[i := x];
    ViewOfUpdate(c.items, i, x);
  }

  /** Creating a new entry, on the map. */
  lemma UpsertNewView(c: Cart, key: CartKey, price: int)
    requires Valid(c) && IndexOfKey(c.items, key).None?
    ensures View(Upsert(c, key, price).items) == View(c.items)[key := CartItem(c.nextId, key, price, 1)]
  {
    var n := CartItem(c.nextId, key, price, 1);
    assert Upsert(c, key, price).items == c.items + [n];
    ViewOfAppend(c.items, n);
  }

  /** The map form of `Upsert`: the entry under `key` is replaced with the
      refreshed (or new) item and every other entry is kept, and the cart
      stays valid. */
  lemma UpsertView(c: Cart, key: CartKey, price: int)
    requires Valid(c)
    ensures var r := Upsert(c, key, price);
            var v := View(c.items);
            && Valid(r)
            && View(r.items) == v[key := if key in v then v[key].(unitPrice := price) else CartItem(c.nextId, key, price, 1)]
  {
    UpsertValid(c, key, price);
    KeysAreHasKey(c.items, key);
    match IndexOfKey(c.items, key)
    case Some(i) =>
      ViewAt(c.items, i);
      UpsertFoundView(c, key, price, i);
    case None =>
      UpsertNewView(c, key, price);
  }

  /** Upserting the same key and price a second time changes nothing. */
  lemma UpsertTwice(c: Cart, key: CartKey, price: int)
    ensures Upsert(Upsert(c, key, price), key, price) == Upsert(c, key, price)
  {
    var r := Upsert(c, key, price);
    match IndexOfKey(c.items, key)
    case Some(i) =>
      assert forall j :: 0 <= j < |c.items| ==> r.items[j].key == c.items[j].key;
      assert IndexOfKey(r.items, key) == Some(i);
      assert r.items[i := r.items[i].(unitPrice := price)] == r.items;
    case None =>
      var n := |c.items|;
      assert forall j :: 0 <= j < n ==> r.items[j] == c.items[j];
      assert forall j :: 0 <= j < n ==> r.items[j].key != key;
      assert r.items[n].key == key;
      assert HasKey(r.items, key);
      assert IndexOfKey(r.items, key) == Some(n);
      assert r.items[n := r.items[n].(unitPrice := price)] == r.items;
  }

  // ---------------------------------------------------------------------------
  // cart_add
  // ---------------------------------------------------------------------------

  /** The four POST parameters of `cart_add`, absent when not posted. */
  datatype AddRequest = AddRequest(
    employeeId: Option<string>,
    serviceId: Option<string>,
    slotId: Option<string>,
    date: Option<string>)

  /** The rows `Model.objects.get(pk=...)` can find, by the posted key, and
      the price table `SERVICE_PRICES` by category name. */
  datatype Catalog = Catalog(
    employees: map<string, Employee>,
    categories: map<string, ServiceCategory>,
    slots: map<string, SlotId>,
    prices: map<string, Dec>)

  /** The three error answers of `cart_add` (status 400, 400, 404). */
  datatype AddError = MissingParameters | BadDateFormat | InvalidReference

  /** A view's answer: the cart afterwards, and the error it reported. */
  datatype Outcome<E> = Outcome(cart: Cart, error: Option<E>)

  /** The base rate when the category is not in the price table:
      `Decimal(str(25.00))`, which is `Decimal("25.0")`. */
  const DefaultRate: Dec := Dec(250, 1)

  /** A decimal with at most two places quantizes to cents exactly. */
  lemma QuantizeShortDecimal(units: int, scale: nat)
    requires scale <= 2
    ensures QuantizeCents(Dec(units, scale)) == units * Pow10(2 - scale)
  {
    var k := units * Pow10(2 - scale);
    var den := Pow10(scale);
    assert Pow10(0) == 1 && Pow10(1) == 10 && Pow10(2) == 100;
    assert k * den == units * 100 by {
      if scale == 0 {
      } else if scale == 1 {
        assert k == units * 10 && den == 10;
      } else {
        assert k == units && den == 100;
      }
    }
    assert NearestEven(units * 100, den, k);
    RoundHalfEvenUnique(units * 100, den, k);
  }

  /** `(base_rate * Decimal("2")).quantize(Decimal("0.01"))` in cents: the
      price of one two-hour block. */
  function UnitPrice(prices: map<string, Dec>, name: string): (r: int)
    ensures name !in prices ==> r == 5000
    ensures name in prices && prices[name].scale <= 2 ==>
              r == 2 * prices[name].units * Pow10(2 - prices[name].scale)
    ensures name in prices ==> NearestEven(200 * prices[name].units, Pow10(prices[name].scale), r)
  {
    var base := if name in prices then prices[name] else DefaultRate;
    if base.scale <= 2 then
      QuantizeShortDecimal(base.units * 2, base.scale);
      assert base.units * 2 * Pow10(2 - base.scale) == 2 * base.units * Pow10(2 - base.scale);
      QuantizeCents(Dec(base.units * 2, base.scale))
    else
      assert base.units * 2 * 100 == 200 * base.units;
      QuantizeCents(Dec(base.units * 2, base.scale))
  }

  /** `cart_add`: all four parameters must be present and non-empty, the
      date must read as `%Y-%m-%d`, and the three rows must exist; then the
      item for (employee, category, slot, date) is created with quantity 1
      or has its unit price refreshed. Every error leaves the cart as it
      was. */
  function CartAdd(c: Cart, req: AddRequest, catalog: Catalog): (r: Outcome<AddError>)
    ensures r.error.Some? ==> r.cart == c
    ensures r.error == Some(MissingParameters) <==>
              !(Truthy(req.employeeId) && Truthy(req.serviceId) && Truthy(req.slotId) && Truthy(req.date))
    ensures r.error == Some(BadDateFormat) <==>
              Truthy(req.employeeId) && Truthy(req.serviceId) && Truthy(req.slotId) && Truthy(req.date)
              && ParseIsoDate(req.date.value).None?
    ensures r.error == Some(InvalidReference) <==>
              Truthy(req.employeeId) && Truthy(req.serviceId) && Truthy(req.slotId) && Truthy(req.date)
              && ParseIsoDate(req.date.value).Some?
              && (req.employeeId.value !in catalog.employees || req.serviceId.value !in catalog.categories
                  || req.slotId.value !in catalog.slots)
    ensures r.error.None? ==>
              && Truthy(req.employeeId) && Truthy(req.serviceId) && Truthy(req.slotId) && Truthy(req.date)
              && req.employeeId.value in catalog.employees
              && req.serviceId.value in catalog.categories
              && req.slotId.value in catalog.slots
              && ParseIsoDate(req.date.value).Some?
              && r.cart == Upsert(c, RequestKey(req, catalog), UnitPrice(catalog.prices, catalog.categories[req.serviceId.value].name))
  {
    if !(Truthy(req.employeeId) && Truthy(req.serviceId) && Truthy(req.slotId) && Truthy(req.date)) then
      Outcome(c, Some(MissingParameters))
    else
      match ParseIsoDate(req.date.value)
      case None => Outcome(c, Some(BadDateFormat))
      case Some(date) =>
        if req.employeeId.value !in catalog.employees || req.serviceId.value !in catalog.categories
           || req.slotId.value !in catalog.slots then
          Outcome(c, Some(InvalidReference))
        else
          var employee := catalog.employees[req.employeeId.value];
          var service := catalog.categories[req.serviceId.value];
          var key := CartKey(employee.id, service.id, catalog.slots[req.slotId.value], date);
          Outcome(Upsert(c, key, UnitPrice(catalog.prices, service.name)), None)
  }

  /** The key `cart_add` files a request under, once it is accepted. */
  function RequestKey(req: AddRequest, catalog: Catalog): CartKey
    requires Truthy(req.employeeId) && Truthy(req.serviceId) && Truthy(req.slotId) && Truthy(req.date)
    requires req.employeeId.value in catalog.employees && req.serviceId.value in catalog.categories
    requires req.slotId.value in catalog.slots && ParseIsoDate(req.date.value).Some?
  {
    CartKey(catalog.employees[req.employeeId.value].id, catalog.categories[req.serviceId.value].id,
            catalog.slots[req.slotId.value], ParseIsoDate(req.date.value).value)
  }

  /** An accepted `cart_add`, seen on the map: the entry for the request's
      key now carries the freshly computed price, a new entry has quantity
      1, an existing one keeps its quantity and id, nothing else changes,
      and the cart stays valid. */
  lemma CartAddView(c: Cart, req: AddRequest, catalog: Catalog)
    requires Valid(c)
    ensures var r := CartAdd(c, req, catalog);
            r.error.None? ==>
              var key := RequestKey(req, catalog);
              var price := UnitPrice(catalog.prices, catalog.categories[req.serviceId.value].name);
              var v := View(c.items);
              && Valid(r.cart)
              && View(r.cart.items) == v[key := if key in v then v[key].(unitPrice := price) else CartItem(c.nextId, key, price, 1)]
  {
    var r := CartAdd(c, req, catalog);
    if r.error.None? {
      UpsertView(c, RequestKey(req, catalog), UnitPrice(catalog.prices, catalog.categories[req.serviceId.value].name));
    }
  }

  /** Adding the same request twice is the same as adding it once: one
      item for it, with its quantity untouched, and the same answer. */
  lemma CartAddTwice(c: Cart, req: AddRequest, catalog: Catalog)
    ensures var once := CartAdd(c, req, catalog);
            CartAdd(once.cart, req, catalog) == once
  {
    var once := CartAdd(c, req, catalog);
    if once.error.None? {
      UpsertTwice(c, RequestKey(req, catalog), UnitPrice(catalog.prices, catalog.categories[req.serviceId.value].name));
    }
  }

  // ---------------------------------------------------------------------------
  // cart_remove and cart_clear
  // ---------------------------------------------------------------------------

  datatype RemoveError = NotFound

  /** `cart_remove`: delete the cart's item with primary key `itemId`; a
      missing parameter or an id not in this cart answers "Not found." and
      deletes nothing. */
  function CartRemove(c: Cart, itemId: Option<nat>): (r: Outcome<RemoveError>)
    ensures r.error.Some? <==> itemId.None? || forall i :: 0 <= i < |c.items| ==> c.items[i].id != itemId.value
    ensures r.error.Some? ==> r.cart == c
    ensures r.error.None? ==> exists i :: 0 <= i < |c.items| && c.items[i].id == itemId.value
                                         && r.cart == Cart(c.items[..i] + c.items[i + 1..], c.nextId)
  {
    if itemId.None? then Outcome(c, Some(NotFound))
    else
      match IndexOfId(c.items, itemId.value)
      case None => Outcome(c, Some(NotFound))
      case Some(i) => Outcome(Cart(c.items[..i] + c.items[i + 1..], c.nextId), None)
  }

  /** Deleting the item at `i` keeps the cart valid. */
  lemma RemoveAtValid(c: Cart, i: nat)
    requires Valid(c) && i < |c.items|
    ensures Valid(Cart(c.items[..i] + c.items[i + 1..], c.nextId))
  {
    var rest := c.items[..i] + c.items[i + 1..];
    assert forall j :: 0 <= j < |rest| ==> rest[j] == c.items[if j < i then j else j + 1];
  }

  /** Deleting the item at `i` drops its key, and only its key when keys
      are unique. */
  lemma KeysOfRemove(items: seq<CartItem>, i: nat)
    requires UniqueKeys(items) && i < |items|
    ensures Keys(items[..i] + items[i + 1..]) == Keys(items) - {items[i].key}
  {
    var rest := items[..i] + items[i + 1..];
    var gone := items[i].key;
    assert forall j :: 0 <= j < |rest| ==> rest[j] == items[if j < i then j else j + 1];
    forall k | k in Keys(rest) ensures k in Keys(items) - {gone} {
      var j :| 0 <= j < |rest| && rest[j].key == k;
      var o := if j < i then j else j + 1;
      assert items[o].key == k;
    }
    forall k | k in Keys(items) - {gone} ensures k in Keys(rest) {
      var j :| 0 <= j < |items| && items[j].key == k;
      if j < i { assert rest[j].key == k; } else { assert rest[j - 1].key == k; }
    }
  }

  /** Deleting the item at `i` keeps the cart valid and drops exactly its
      key from the map. */
  lemma RemoveAtView(c: Cart, i: nat)
    requires Valid(c) && i < |c.items|
    ensures var rest := c.items[..i] + c.items[i + 1..];
            Valid(Cart(rest, c.nextId)) && View(rest) == View(c.items) - {c.items[i].key}
  {
    var rest := c.items[..i] + c.items[i + 1..];
    var m := View(c.items) - {c.items[i].key};
    RemoveAtValid(c, i);
    KeysOfRemove(c.items, i);
    forall j | 0 <= j < |rest| ensures m[rest[j].key] == rest[j] {
      var o := if j < i then j else j + 1;
      assert rest[j] == c.items[o];
      ViewAt(c.items, o);
    }
    ViewEq(rest, m);
  }

  /** A removal, seen on the map: the removed item's key disappears and
      every other entry is kept, and the cart stays valid. */
  lemma CartRemoveView(c: Cart, itemId: Option<nat>)
    requires Valid(c)
    ensures var r := CartRemove(c, itemId);
            r.error.None? ==>
              exists i :: 0 <= i < |c.items| && c.items[i].id == itemId.value
                          && Valid(r.cart)
                          && View(r.cart.items) == View(c.items) - {c.items[i].key}
  {
    var r := CartRemove(c, itemId);
    if r.error.None? {
      RemoveAtView(c, IndexOfId(c.items, itemId.value).value);
    }
  }

  /** `cart_clear` and `Cart.clear`: delete every item. */
  function CartClear(c: Cart): (r: Cart)
    ensures ItemCount(r) == 0 && !HasItems(r)
    ensures Valid(r) && View(r.items) == map[]
    ensures r.nextId == c.nextId
  {
    Cart([], c.nextId)
  }

  /** `Cart.item_count`. */
  function ItemCount(c: Cart): nat {
    |c.items|
  }

  /** `Cart.has_items`. */
  predicate HasItems(c: Cart) {
    c.items != []
  }

  /** On a valid cart, the item count is the number of map entries, and
      the cart has items exactly when the map is non-empty. */
  lemma ItemCountIsViewSize(c: Cart)
    requires Valid(c)
    ensures ItemCount(c) == |View(c.items)|
    ensures HasItems(c) <==> View(c.items) != map[]
    decreases |c.items|
  {
    KeysCount(c.items);
    if c.items != [] {
      assert c.items[0].key in View(c.items);
    }
  }

  lemma {:induction false} KeysCount(items: seq<CartItem>)
    requires UniqueKeys(items)
    ensures |Keys(items)| == |items|
  {
    if items != [] {
      var init := items[..|items| - 1];
      var last := items[|items| - 1];
      assert UniqueKeys(init) by {
        forall i, j | 0 <= i < j < |init| ensures init[i].key != init[j].key {
          assert init[i] == items[i] && init[j] == items[j];
        }
      }
      KeysCount(init);
      assert Keys(items) == Keys(init) + {last.key} by {
        forall k | k in Keys(items) ensures k in Keys(init) + {last.key} {
          var j :| 0 <= j < |items| && items[j].key == k;
          if j < |init| { assert init[j].key == k; }
        }
        forall k | k in Keys(init) ensures k in Keys(items) {
          var j :| 0 <= j < |init| && init[j].key == k;
          assert items[j].key == k;
        }
      }
      forall j | 0 <= j < |init| ensures init[j].key != last.key {
        assert init[j] == items[j];
      }
      assert last.key !in Keys(init);
    }
  }

  // ---------------------------------------------------------------------------
  // Totals
  // ---------------------------------------------------------------------------

  /** `CartItem.subtotal`: unit price times quantity. The source quantizes
      the product to cents; `ItemSubtotalIsQuantized` shows that loses
      nothing, so the product is used directly. */
  function ItemSubtotal(it: CartItem): (r: int)
    ensures it.unitPrice >= 0 ==> r >= 0
    ensures it.quantity == 1 ==> r == it.unitPrice
  {
    it.unitPrice * it.quantity
  }

  /** The quantized product of the source equals `ItemSubtotal`. */
  lemma ItemSubtotalIsQuantized(it: CartItem)
    ensures ItemSubtotal(it) == QuantizeCents(Dec(it.unitPrice * it.quantity, 2))
  {
    QuantizeCentsExact(it.unitPrice * it.quantity);
  }

  /** The plain sum of the item subtotals. */
  function SumSubtotals(items: seq<CartItem>): int {
    if items == [] then 0 else ItemSubtotal(items[0]) + SumSubtotals(items[1..])
  }

  predicate PricesNonNegative(items: seq<CartItem>) {
    forall i :: 0 <= i < |items| ==> items[i].unitPrice >= 0
  }

  /** `Cart.subtotal`: the sum of the item subtotals starting from 0.00.
      The source quantizes the sum; `SubtotalIsQuantized` shows that loses
      nothing. */
  function Subtotal(c: Cart): (r: int)
    ensures c.items == [] ==> r == 0
    ensures PricesNonNegative(c.items) ==> r >= 0
  {
    SubtotalNonNegative(c.items);
    SumSubtotals(c.items)
  }

  /** The quantized sum of the source equals `Subtotal`. */
  lemma SubtotalIsQuantized(c: Cart)
    ensures Subtotal(c) == QuantizeCents(Dec(SumSubtotals(c.items), 2))
  {
    QuantizeCentsExact(SumSubtotals(c.items));
  }

  lemma {:induction false} SubtotalNonNegative(items: seq<CartItem>)
    ensures PricesNonNegative(items) ==> SumSubtotals(items) >= 0
  {
    if items != [] {
      SubtotalNonNegative(items[1..]);
      assert PricesNonNegative(items) ==> PricesNonNegative(items[1..]) by {
        if PricesNonNegative(items) {
          forall i | 0 <= i < |items[1..]| ensures items[1..][i].unitPrice >= 0 {
            assert items[1..][i] == items[i + 1];
          }
        }
      }
    }
  }

  /** The sum splits over concatenation. */
  lemma {:induction false} SumSubtotalsAppend(a: seq<CartItem>, b: seq<CartItem>)
    ensures SumSubtotals(a + b) == SumSubtotals(a) + SumSubtotals(b)
  {
    if a == [] {
      assert a + b == b;
    } else {
      assert (a + b)[1..] == a[1..] + b;
      SumSubtotalsAppend(a[1..], b);
    }
  }

  /** The sum with the item at `i` replaced by `x`. */
  lemma {:induction false} SumSubtotalsUpdate(items: seq<CartItem>, i: nat, x: CartItem)
    requires i < |items|
    ensures SumSubtotals(items[i := x]) == SumSubtotals(items) - ItemSubtotal(items[i]) + ItemSubtotal(x)
  {
    if i > 0 {
      assert items[i := x][1..] == items[1..][i - 1 := x];
      SumSubtotalsUpdate(items[1..], i - 1, x);
    }
  }

  /** Adding a new item raises the subtotal by its price (its quantity
      is 1). */
  lemma SubtotalAfterAdd(c: Cart, key: CartKey, price: int)
    requires !HasKey(c.items, key)
    ensures Subtotal(Upsert(c, key, price)) == Subtotal(c) + price
  {
    var n := CartItem(c.nextId, key, price, 1);
    assert Upsert(c, key, price).items == c.items + [n];
    SumSubtotalsAppend(c.items, [n]);
    assert SumSubtotals([n]) == price + SumSubtotals([]);
  }

  /** Refreshing an item's price changes the subtotal by the price
      difference times the item's quantity. */
  lemma SubtotalAfterRefresh(c: Cart, key: CartKey, price: int, i: nat)
    requires IndexOfKey(c.items, key) == Some(i)
    ensures Subtotal(Upsert(c, key, price)) == Subtotal(c) + (price - c.items[i].unitPrice) * c.items[i].quantity
  {
    var it := c.items[i];
    var x := it.(unitPrice := price);
    assert Upsert(c, key, price).items == c.items[i := x];
    SumSubtotalsUpdate(c.items, i, x);
    assert ItemSubtotal(x) - ItemSubtotal(it) == (price - it.unitPrice) * it.quantity by {
      PriceChange(price, it.unitPrice, it.quantity);
    }
  }

  lemma PriceChange(p1: int, p0: int, q: nat)
    ensures p1 * q - p0 * q == (p1 - p0) * q
  {
  }

  /** The sum without the item at `i`. */
  lemma {:induction false} SumSubtotalsRemove(items: seq<CartItem>, i: nat)
    requires i < |items|
    ensures SumSubtotals(items[..i] + items[i + 1..]) == SumSubtotals(items) - ItemSubtotal(items[i])
  {
    var rest := items[..i] + items[i + 1..];
    if i == 0 {
      assert rest == items[1..];
    } else {
      var tail := items[1..];
      assert rest[0] == items[0];
      assert rest[1..] == tail[..i - 1] + tail[i..];
      assert tail[i - 1] == items[i];
      SumSubtotalsRemove(tail, i - 1);
    }
  }

  /** Removing an item lowers the subtotal by that item's subtotal. */
  lemma SubtotalAfterRemove(c: Cart, itemId: Option<nat>)
    ensures var r := CartRemove(c, itemId);
            r.error.None? ==>
              exists i :: 0 <= i < |c.items| && c.items[i].id == itemId.value
                          && Subtotal(r.cart) == Subtotal(c) - ItemSubtotal(c.items[i])
  {
    var r := CartRemove(c, itemId);
    if r.error.None? {
      SumSubtotalsRemove(c.items, IndexOfId(c.items, itemId.value).value);
    }
  }

  /** `Cart.tax`: the subtotal times the rate (billing.constants), rounded
      to cents half-to-even. */
  function Tax(c: Cart, rate: Dec): (r: int)
    ensures NearestEven(Subtotal(c) * rate.units, Pow10(rate.scale), r)
    ensures PricesNonNegative(c.items) && rate.units >= 0 ==> r >= 0
    ensures c.items == [] ==> r == 0
  {
    ApplyRate(Subtotal(c), rate)
  }

  /** `Cart.total`: subtotal plus tax, quantized to cents, which loses
      nothing since both are whole cents. */
  function Total(c: Cart, rate: Dec): (r: int)
    ensures r == Subtotal(c) + Tax(c, rate)
    ensures PricesNonNegative(c.items) && rate.units >= 0 ==> r >= Subtotal(c)
  {
    QuantizeCentsExact(Subtotal(c) + Tax(c, rate));
    QuantizeCents(Dec(Subtotal(c) + Tax(c, rate), 2))
  }
}
