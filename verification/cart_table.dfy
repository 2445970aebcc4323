/** The cart table and the two ways the code finds "the" cart of a request:
    `_get_or_create_cart` of billing/utils.py, which keys carts by owner and
    locked service address, and the owner-only `_get_or_create_cart` of
    scheduling/views.py (and billing/views.py). The owner is the logged-in
    user, or the session key of a guest. */
module CartTables {
  import opened Common
  import opened Session

  datatype Owner = User(userId: nat) | Guest(sessionKey: string)

  /** A `Cart` row: primary key, owner and `address_key` (NULL when the
      cart was made by the owner-only helper). */
  datatype CartRow = CartRow(id: nat, owner: Owner, addressKey: Option<string>)

  /** The rows in primary-key order, and the key the next row receives. */
  datatype CartTable = CartTable(rows: seq<CartRow>, nextId: nat)

  /** `get()` found more than one row. */
  datatype LookupError = MultipleObjectsReturned

  /** What the address-keyed helper keeps true: row keys are increasing and
      below the next key, and no owner has two carts for one address. */
  predicate Valid(t: CartTable) {
    && (forall i, j :: 0 <= i < j < |t.rows| ==> t.rows[i].id < t.rows[j].id)
    && (forall i :: 0 <= i < |t.rows| ==> t.rows[i].id < t.nextId)
    && (forall i, j :: 0 <= i < j < |t.rows| && t.rows[i].addressKey.Some? && t.rows[i].owner == t.rows[j].owner
          ==> t.rows[i].addressKey != t.rows[j].addressKey)
  }

  /** `address_key = request.session.get("service_address", "")`. */
  function AddressKey(s: Session): string {
    s.serviceAddress.GetOr("")
  }

  /** `Cart.objects.filter(owner=owner, address_key=key)`, in key order. */
  function Keyed(rows: seq<CartRow>, owner: Owner, key: string): (r: seq<CartRow>)
    ensures forall x :: x in r <==> x in rows && x.owner == owner && x.addressKey == Some(key)
    ensures (forall x :: x in rows ==> !(x.owner == owner && x.addressKey == Some(key))) ==> r == []
    decreases |rows|
  {
    if rows == [] then []
    else
      var last := rows[|rows| - 1];
      var init := rows[..|rows| - 1];
      assert forall x :: x in rows <==> x in init || x == last;
      Keyed(init, owner, key) + (if last.owner == owner && last.addressKey == Some(key) then [last] else [])
  }

  /** `Cart.objects.filter(owner=owner)`, in key order. */
  function Owned(rows: seq<CartRow>, owner: Owner): (r: seq<CartRow>)
    ensures forall x :: x in r <==> x in rows && x.owner == owner
    decreases |rows|
  {
    if rows == [] then []
    else
      var last := rows[|rows| - 1];
      var init := rows[..|rows| - 1];
      assert forall x :: x in rows <==> x in init || x == last;
      Owned(init, owner) + (if last.owner == owner then [last] else [])
  }

  /** `get_or_create(owner=owner, address_key=key)` of billing/utils.py:
      the one matching cart, or a new one; more than one match is an
      error. The answer is the table afterwards and the cart's key. */
  function GetOrCreateKeyed(t: CartTable, owner: Owner, key: string): (r: Result<(CartTable, nat), LookupError>)
    ensures r.Err? <==> |Keyed(t.rows, owner, key)| > 1
    ensures r.Ok? ==> exists x :: x in r.value.0.rows && x.id == r.value.1 && x.owner == owner && x.addressKey == Some(key)
    ensures r.Ok? ==> forall x :: x in t.rows ==> x in r.value.0.rows
    ensures r.Ok? && Keyed(t.rows, owner, key) != [] ==> r.value.0 == t
    ensures r.Ok? && Keyed(t.rows, owner, key) == [] ==>
              r.value.0.rows == t.rows + [CartRow(t.nextId, owner, Some(key))] && r.value.1 == t.nextId
  {
    var found := Keyed(t.rows, owner, key);
    if |found| == 0 then
      var row := CartRow(t.nextId, owner, Some(key));
      assert row in t.rows + [row];
      Ok((CartTable(t.rows + [row], t.nextId + 1), t.nextId))
    else if |found| == 1 then
      assert found[0] in found;
      Ok((t, found[0].id))
    else Err(MultipleObjectsReturned)
  }

  /** `get_or_create(owner=owner)` of scheduling/views.py and
      billing/views.py: the owner's one cart, whatever its address, or a
      new cart with no address; an owner with two carts is an error. */
  function GetOrCreateOwned(t: CartTable, owner: Owner): (r: Result<(CartTable, nat), LookupError>)
    ensures r.Err? <==> |Owned(t.rows, owner)| > 1
    ensures r.Ok? ==> exists x :: x in r.value.0.rows && x.id == r.value.1 && x.owner == owner
    ensures r.Ok? ==> forall x :: x in t.rows ==> x in r.value.0.rows
    ensures |Owned(t.rows, owner)| == 1 ==> r == Ok((t, Owned(t.rows, owner)[0].id))
    ensures Owned(t.rows, owner) == [] ==>
              r == Ok((CartTable(t.rows + [CartRow(t.nextId, owner, None)], t.nextId + 1), t.nextId))
  {
    var found := Owned(t.rows, owner);
    if |found| == 0 then
      var row := CartRow(t.nextId, owner, None);
      assert row in t.rows + [row];
      Ok((CartTable(t.rows + [row], t.nextId + 1), t.nextId))
    else if |found| == 1 then
      assert found[0] in found;
      Ok((t, found[0].id))
    else Err(MultipleObjectsReturned)
  }

  /** In a valid table an owner has at most one cart per address. */
  lemma {:induction false} KeyedAtMostOne(rows: seq<CartRow>, nextId: nat, owner: Owner, key: string)
    requires Valid(CartTable(rows, nextId))
    ensures |Keyed(rows, owner, key)| <= 1
    decreases |rows|
  {
    if rows != [] {
      var last := rows[|rows| - 1];
      var init := rows[..|rows| - 1];
      assert Valid(CartTable(init, nextId));
      KeyedAtMostOne(init, nextId, owner, key);
      if last.owner == owner && last.addressKey == Some(key) {
        forall x | x in init ensures !(x.owner == owner && x.addressKey == Some(key)) {
          var i :| 0 <= i < |init| && init[i] == x;
          assert rows[i] == x;
        }
        assert Keyed(init, owner, key) == [];
      }
    }
  }

  /** Appending a fresh row for an owner and address that have no cart
      yet keeps the table valid. */
  lemma AppendFreshValid(t: CartTable, owner: Owner, key: string)
    requires Valid(t)
    requires forall x :: x in t.rows ==> !(x.owner == owner && x.addressKey == Some(key))
    ensures Valid(CartTable(t.rows + [CartRow(t.nextId, owner, Some(key))], t.nextId + 1))
  {
    var row := CartRow(t.nextId, owner, Some(key));
    var rows := t.rows + [row];
    var n := |t.rows|;
    assert forall i :: 0 <= i < n ==> rows[i] == t.rows[i];
    assert rows[n] == row;
    forall i, j | 0 <= i < j < |rows| ensures rows[i].id < rows[j].id {
      if j == n { assert rows[i] == t.rows[i]; }
    }
    forall i, j | 0 <= i < j < |rows| && rows[i].addressKey.Some? && rows[i].owner == rows[j].owner
      ensures rows[i].addressKey != rows[j].addressKey
    {
      if j == n {
        assert rows[i] == t.rows[i] && t.rows[i] in t.rows;
      }
    }
  }

  /** The address-keyed helper never fails on a valid table, and keeps it
      valid. */
  lemma GetOrCreateKeyedValid(t: CartTable, owner: Owner, key: string)
    requires Valid(t)
    ensures GetOrCreateKeyed(t, owner, key).Ok?
    ensures Valid(GetOrCreateKeyed(t, owner, key).value.0)
  {
    KeyedAtMostOne(t.rows, t.nextId, owner, key);
    if Keyed(t.rows, owner, key) == [] {
      AppendFreshValid(t, owner, key);
    }
  }

  /** Filtering a table with one more row at the end. */
  lemma KeyedAppend(rows: seq<CartRow>, row: CartRow, owner: Owner, key: string)
    ensures Keyed(rows + [row], owner, key)
            == Keyed(rows, owner, key) + (if row.owner == owner && row.addressKey == Some(key) then [row] else [])
  {
    assert (rows + [row])[..|rows|] == rows;
  }

  /** The owner-only lookup, asked again, gives the same cart and creates
      nothing, whenever it succeeded the first time. */
  lemma GetOrCreateOwnedIdempotent(t: CartTable, owner: Owner)
    requires GetOrCreateOwned(t, owner).Ok?
    ensures var first := GetOrCreateOwned(t, owner);
            GetOrCreateOwned(first.value.0, owner) == first
  {
  }

  /** Asking again with the same owner and address gives the same cart and
      creates nothing. */
  lemma GetOrCreateKeyedIdempotent(t: CartTable, owner: Owner, key: string)
    requires Valid(t)
    ensures var first := GetOrCreateKeyed(t, owner, key);
            first.Ok? && GetOrCreateKeyed(first.value.0, owner, key) == first
  {
    KeyedAtMostOne(t.rows, t.nextId, owner, key);
    if Keyed(t.rows, owner, key) == [] {
      var row := CartRow(t.nextId, owner, Some(key));
      KeyedAppend(t.rows, row, owner, key);
      assert Keyed(t.rows + [row], owner, key) == [row];
    }
  }

  /** Distinct rows of a valid table have distinct keys. */
  lemma RowIdsDistinct(t: CartTable, x: CartRow, y: CartRow)
    requires Valid(t) && x in t.rows && y in t.rows && x != y
    ensures x.id != y.id
  {
    var i :| 0 <= i < |t.rows| && t.rows[i] == x;
    var j :| 0 <= j < |t.rows| && t.rows[j] == y;
    assert i < j || j < i;
  }

  /** The same owner with two different locked addresses gets two different
      carts. */
  lemma DistinctAddressesDistinctCarts(t: CartTable, owner: Owner, k1: string, k2: string)
    requires Valid(t) && k1 != k2
    ensures var r1 := GetOrCreateKeyed(t, owner, k1);
            r1.Ok? &&
            var r2 := GetOrCreateKeyed(r1.value.0, owner, k2);
            r2.Ok? && r1.value.1 != r2.value.1
  {
    GetOrCreateKeyedValid(t, owner, k1);
    var r1 := GetOrCreateKeyed(t, owner, k1);
    var t1 := r1.value.0;
    GetOrCreateKeyedValid(t1, owner, k2);
    var r2 := GetOrCreateKeyed(t1, owner, k2);
    var t2 := r2.value.0;
    var x1 :| x1 in t1.rows && x1.id == r1.value.1 && x1.owner == owner && x1.addressKey == Some(k1);
    var x2 :| x2 in t2.rows && x2.id == r2.value.1 && x2.owner == owner && x2.addressKey == Some(k2);
    assert x1 in t2.rows;
    RowIdsDistinct(t2, x1, x2);
  }

  /** Two different carts of one owner make the owner-only lookup fail. */
  lemma TwoCartsOwnedFail(t: CartTable, owner: Owner, x1: CartRow, x2: CartRow)
    requires x1 in t.rows && x2 in t.rows && x1 != x2 && x1.owner == owner && x2.owner == owner
    ensures GetOrCreateOwned(t, owner) == Err(MultipleObjectsReturned)
  {
    var owned := Owned(t.rows, owner);
    assert x1 in owned && x2 in owned;
    var i1 :| 0 <= i1 < |owned| && owned[i1] == x1;
    var i2 :| 0 <= i2 < |owned| && owned[i2] == x2;
    assert i1 != i2;
  }

  /** Once the address-keyed helper has given an owner carts for two
      addresses, the owner-only helper fails for that owner. */
  lemma OwnerLookupFailsAfterTwoAddresses(t: CartTable, owner: Owner, k1: string, k2: string)
    requires Valid(t) && k1 != k2
    ensures var r1 := GetOrCreateKeyed(t, owner, k1);
            r1.Ok? &&
            var r2 := GetOrCreateKeyed(r1.value.0, owner, k2);
            r2.Ok? && GetOrCreateOwned(r2.value.0, owner) == Err(MultipleObjectsReturned)
  {
    DistinctAddressesDistinctCarts(t, owner, k1, k2);
    var r1 := GetOrCreateKeyed(t, owner, k1);
    var t1 := r1.value.0;
    var r2 := GetOrCreateKeyed(t1, owner, k2);
    var t2 := r2.value.0;
    var x1 :| x1 in t1.rows && x1.id == r1.value.1 && x1.owner == owner && x1.addressKey == Some(k1);
    var x2 :| x2 in t2.rows && x2.id == r2.value.1 && x2.owner == owner && x2.addressKey == Some(k2);
    assert x1 in t2.rows;
    TwoCartsOwnedFail(t2, owner, x1, x2);
  }

  /** Every request without a locked address shares the owner's cart keyed
      by the empty address. */
  lemma UnlockedSessionsShareCart(t: CartTable, owner: Owner, s1: Session, s2: Session)
    requires s1.serviceAddress.None? && s2.serviceAddress.None?
    ensures GetOrCreateKeyed(t, owner, AddressKey(s1)) == GetOrCreateKeyed(t, owner, AddressKey(s2))
    ensures AddressKey(s1) == ""
  {
  }
}
