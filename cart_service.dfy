/** `CartService`: the user's OPEN cart, found or lazily created, and its lines. Every mutation
    ends by recomputing the cart's totals from its lines. */
module CartService {
  import opened Wrappers
  import opened Seqs
  import opened Store

  // ---------- the cart table ----------

  /** `cart.findFirst({ where: { userId, status: 'OPEN' } })`. */
  function OpenCartIndex(carts: seq<Cart>, userId: Id): (r: Option<nat>)
    ensures r.Some? ==> r.value < |carts| && carts[r.value].userId == userId && carts[r.value].status == OPEN
    ensures r.Some? ==> forall j :: 0 <= j < r.value ==> !(carts[j].userId == userId && carts[j].status == OPEN)
    ensures r.None? ==> forall j :: 0 <= j < |carts| ==> !(carts[j].userId == userId && carts[j].status == OPEN)
  {
    FirstIndex(carts, (c: Cart) => c.userId == userId && c.status == OPEN)
  }

  /** `cart.create({ data: { userId } })`: OPEN, no lines, every total zero. */
  function EmptyCart(id: Id, userId: Id): (c: Cart)
    ensures CartOk(c) && c.status == OPEN && c.userId == userId && c.items == []
  {
    Cart(id, userId, OPEN, 0, 0, 0, 0, [])
  }

  /** The cart table once `ensureOpenCart(userId)` has run. */
  function Ensured(carts: seq<Cart>, next: Id, userId: Id): (r: seq<Cart>)
    ensures OpenCartIndex(carts, userId).Some? ==> r == carts
    ensures OpenCartIndex(carts, userId).None? ==> r == carts + [EmptyCart(next, userId)]
    ensures OpenCartIndex(r, userId).Some?
  {
    if OpenCartIndex(carts, userId).Some? then carts
    else
      var r := carts + [EmptyCart(next, userId)];
      assert r[|carts|].userId == userId && r[|carts|].status == OPEN;
      r
  }

  /** `ensureOpenCart` finds an existing OPEN cart, or creates exactly one, and the user has an
      OPEN cart afterwards; the table invariant survives. */
  lemma EnsuredHasOpenCart(carts: seq<Cart>, next: Id, userId: Id)
    requires CartsOk(carts, next)
    ensures CartsOk(Ensured(carts, next, userId), if OpenCartIndex(carts, userId).Some? then next else next + 1)
    ensures OpenCartIndex(Ensured(carts, next, userId), userId).Some?
    ensures OpenCartIndex(carts, userId).Some? ==> OpenCartIndex(Ensured(carts, next, userId), userId) == OpenCartIndex(carts, userId)
    ensures OpenCartIndex(carts, userId).None? ==> OpenCartIndex(Ensured(carts, next, userId), userId) == Some(|carts|)
  {
    if OpenCartIndex(carts, userId).None? {
      var r := carts + [EmptyCart(next, userId)];
      IdsBelowAppend(carts, CartId, next, EmptyCart(next, userId));
      assert r[|carts|].userId == userId && r[|carts|].status == OPEN;
    }
  }

  /** Rewriting one cart row without touching its id, owner or status keeps the table invariant. */
  lemma CartsOkUpdate(carts: seq<Cart>, next: Id, k: nat, c: Cart)
    requires CartsOk(carts, next) && k < |carts|
    requires c.id == carts[k].id && c.userId == carts[k].userId && c.status == carts[k].status && CartOk(c)
    ensures CartsOk(carts[k := c], next)
    ensures forall u :: OpenCartIndex(carts[k := c], u) == OpenCartIndex(carts, u)
  {
    forall u ensures OpenCartIndex(carts[k := c], u) == OpenCartIndex(carts, u) {
      SameOpenCartIndex(carts, carts[k := c], u);
    }
  }

  lemma SameOpenCartIndex(a: seq<Cart>, b: seq<Cart>, u: Id)
    requires |a| == |b|
    requires forall i :: 0 <= i < |a| ==> a[i].userId == b[i].userId && a[i].status == b[i].status
    ensures OpenCartIndex(a, u) == OpenCartIndex(b, u)
  {
    var ra, rb := OpenCartIndex(a, u), OpenCartIndex(b, u);
    if ra.Some? && rb.Some? {
      assert !(ra.value < rb.value) && !(rb.value < ra.value);
    }
  }

  // ---------- the lines of one cart ----------

  /** The line of `productId`, found by the `(cartId, productId)` key. */
  function LineIndex(items: seq<CartItem>, productId: Id): (r: Option<nat>)
    ensures r.Some? ==> r.value < |items| && items[r.value].productId == productId
    ensures r.None? ==> forall j :: 0 <= j < |items| ==> items[j].productId != productId
  {
    FirstIndex(items, (l: CartItem) => l.productId == productId)
  }

  /** `cartItem.upsert`: an existing line gains `qty` and keeps its unit price and currency;
      otherwise a new line is appended with the given price and currency. */
  function Upsert(items: seq<CartItem>, productId: Id, qty: int, price: int, currency: string): (r: seq<CartItem>)
    ensures LineIndex(r, productId).Some?
    ensures LineIndex(items, productId).Some? ==>
      var i := LineIndex(items, productId).value;
      |r| == |items| && r[i].qty == items[i].qty + qty
      && r[i].unitPrice == items[i].unitPrice && r[i].currency == items[i].currency && r[i].productId == productId
    ensures LineIndex(items, productId).None? ==>
      r == items + [CartItem(productId, qty, price, currency)]
    ensures forall j :: 0 <= j < |items| && items[j].productId != productId ==> r[j] == items[j]
  {
    match LineIndex(items, productId)
    case Some(i) => items[i := items[i].(qty := items[i].qty + qty)]
    case None =>
      var r := items + [CartItem(productId, qty, price, currency)];
      assert r[|items|].productId == productId;
      r
  }

  /** `cartItem.update({ data: { qty } })`: the line's qty is set, not incremented; a missing line
      makes Prisma raise (record not found), modelled as `None`. */
  function SetQty(items: seq<CartItem>, productId: Id, qty: int): (r: Option<seq<CartItem>>)
    ensures r.None? <==> LineIndex(items, productId).None?
    ensures r.Some? ==>
      var i := LineIndex(items, productId).value;
      |r.value| == |items| && r.value[i] == items[i].(qty := qty)
      && forall j :: 0 <= j < |items| && j != i ==> r.value[j] == items[j]
  {
    match LineIndex(items, productId)
    case Some(i) => Some(items[i := items[i].(qty := qty)])
    case None => None
  }

  /** The lines `deleteMany` keeps: those of any other product. */
  function OtherProduct(productId: Id): CartItem -> bool {
    (l: CartItem) => l.productId != productId
  }

  /** `cartItem.deleteMany({ where: { cartId, productId } })`. */
  function DeleteLines(items: seq<CartItem>, productId: Id): (r: seq<CartItem>)
    ensures |r| <= |items|
    ensures forall j :: 0 <= j < |r| ==> r[j].productId != productId
  {
    Filter(items, OtherProduct(productId))
  }

  /** `recompute`: subtotal is Σ unitPrice·qty, discount and delivery fee are 0, and
      total = subtotal − discount + deliveryFee. */
  function Recompute(c: Cart): (r: Cart)
    ensures LinesOk(c.items) ==> CartOk(r)
    ensures r.items == c.items && r.id == c.id && r.userId == c.userId && r.status == c.status
  {
    var subtotal := Subtotal(c.items);
    c.(subtotal := subtotal, discount := 0, deliveryFee := 0, total := subtotal - 0 + 0)
  }

  /** An empty cart has every total zero. */
  lemma EmptyCartTotals(c: Cart)
    requires CartOk(c) && c.items == []
    ensures c.subtotal == 0 && c.discount == 0 && c.deliveryFee == 0 && c.total == 0
  {
  }

  // ---------- sums ----------

  function Contribution(l: CartItem): int { l.unitPrice * l.qty }

  lemma {:induction false} SubtotalAppend(a: seq<CartItem>, b: seq<CartItem>)
    ensures Subtotal(a + b) == Subtotal(a) + Subtotal(b)
  {
    if b == [] {
      assert a + b == a;
    } else {
      assert (a + b)[..|a + b| - 1] == a + b[..|b| - 1];
      SubtotalAppend(a, b[..|b| - 1]);
    }
  }

  /** Changing one line changes the subtotal by exactly the difference of its contribution. */
  lemma {:induction false} SubtotalUpdate(items: seq<CartItem>, i: nat, l: CartItem)
    requires i < |items|
    ensures Subtotal(items[i := l]) == Subtotal(items) - Contribution(items[i]) + Contribution(l)
  {
    var n := |items| - 1;
    if i < n {
      assert items[i := l][..n] == items[..n][i := l];
      SubtotalUpdate(items[..n], i, l);
    } else {
      assert items[i := l][..n] == items[..n];
    }
  }

  /** Adding `qty` of a product raises the subtotal by `qty` times the line's frozen unit price, or
      by `qty` times the current price for a new line. */
  lemma SubtotalUpsert(items: seq<CartItem>, productId: Id, qty: int, price: int, currency: string)
    ensures Subtotal(Upsert(items, productId, qty, price, currency)) == Subtotal(items) +
      (match LineIndex(items, productId)
       case Some(i) => items[i].unitPrice * qty
       case None => price * qty)
  {
    match LineIndex(items, productId)
    case Some(i) =>
      SubtotalUpdate(items, i, items[i].(qty := items[i].qty + qty));
      assert Contribution(items[i].(qty := items[i].qty + qty)) == Contribution(items[i]) + items[i].unitPrice * qty;
    case None =>
      SubtotalAppend(items, [CartItem(productId, qty, price, currency)]);
      assert Subtotal([CartItem(productId, qty, price, currency)]) == price * qty;
  }

  /** With one line per product, `deleteMany` by product removes exactly that product's line. */
  lemma DeleteLinesRemovesLine(items: seq<CartItem>, productId: Id)
    requires forall i, j :: 0 <= i < j < |items| ==> items[i].productId != items[j].productId
    ensures LineIndex(items, productId).None? ==> DeleteLines(items, productId) == items
    ensures LineIndex(items, productId).Some? ==> DeleteLines(items, productId) == RemoveAt(items, LineIndex(items, productId).value)
  {
    match LineIndex(items, productId)
    case None =>
      FilterAll(items, OtherProduct(productId));
    case Some(i) =>
      assert forall k :: i < k < |items| ==> items[k].productId != productId;
      DeleteLinesAt(items, i, productId);
  }

  lemma DeleteLinesAt(items: seq<CartItem>, i: nat, productId: Id)
    requires i < |items| && items[i].productId == productId
    requires forall k :: 0 <= k < |items| && k != i ==> items[k].productId != productId
    ensures DeleteLines(items, productId) == RemoveAt(items, i)
  {
    var a, m, b := items[..i], [items[i]], items[i + 1..];
    var keep := OtherProduct(productId);
    assert items == a + m + b;
    assert forall k :: 0 <= k < |a| ==> a[k] == items[k];
    assert forall k :: 0 <= k < |b| ==> b[k] == items[i + 1 + k];
    FilterAll(a, keep);
    FilterAll(b, keep);
    FilterNone(m, keep);
    FilterAppend(a, m, keep);
    assert Filter(a + m, keep) == a;
    FilterAppend(a + m, b, keep);
    assert DeleteLines(items, productId) == a + b;
  }

  /** Removing a product's line lowers the subtotal by exactly that line's contribution. */
  lemma SubtotalDeleteLines(items: seq<CartItem>, productId: Id)
    requires LinesOk(items)
    ensures Subtotal(DeleteLines(items, productId)) == Subtotal(items) -
      (match LineIndex(items, productId)
       case Some(i) => Contribution(items[i])
       case None => 0)
  {
    DeleteLinesRemovesLine(items, productId);
    if LineIndex(items, productId).Some? {
      SubtotalRemoveAt(items, LineIndex(items, productId).value);
    }
  }

  lemma SubtotalRemoveAt(items: seq<CartItem>, i: nat)
    requires i < |items|
    ensures Subtotal(RemoveAt(items, i)) == Subtotal(items) - Contribution(items[i])
  {
    var a, b := items[..i], items[i + 1..];
    assert RemoveAt(items, i) == a + b;
    assert items == a + [items[i]] + b;
    SubtotalAppend(a + [items[i]], b);
    SubtotalAppend(a, [items[i]]);
    SubtotalAppend(a, b);
    assert Subtotal([items[i]]) == Contribution(items[i]) by {
      assert [items[i]][..0] == [];
    }
  }

  // ---------- line invariants ----------

  /** Adding a positive qty keeps one line per product with qty at least 1. */
  lemma UpsertKeepsLinesOk(items: seq<CartItem>, productId: Id, qty: int, price: int, currency: string)
    requires LinesOk(items) && qty >= 1
    ensures LinesOk(Upsert(items, productId, qty, price, currency))
  {
  }

  lemma SetQtyKeepsLinesOk(items: seq<CartItem>, productId: Id, qty: int)
    requires LinesOk(items) && qty >= 1 && SetQty(items, productId, qty).Some?
    ensures LinesOk(SetQty(items, productId, qty).value)
  {
  }

  lemma DeleteLinesKeepsLinesOk(items: seq<CartItem>, productId: Id)
    requires LinesOk(items)
    ensures LinesOk(DeleteLines(items, productId))
    ensures LineIndex(DeleteLines(items, productId), productId).None?
  {
    DeleteLinesRemovesLine(items, productId);
  }

  /** Adding `a` then `b` of one product leaves the same lines as adding `a + b` once; the price
      and currency offered by the second add are ignored. */
  lemma UpsertTwice(items: seq<CartItem>, productId: Id, a: int, b: int,
                    price: int, currency: string, price2: int, currency2: string)
    ensures Upsert(Upsert(items, productId, a, price, currency), productId, b, price2, currency2)
            == Upsert(items, productId, a + b, price, currency)
  {
    var once := Upsert(items, productId, a, price, currency);
    match LineIndex(items, productId)
    case Some(i) =>
      assert LineIndex(once, productId) == Some(i) by {
        var k := LineIndex(once, productId).value;
        assert once[i].productId == productId;
        assert !(i < k);
        assert !(k < i);
      }
    case None =>
      assert LineIndex(once, productId) == Some(|items|) by {
        var k := LineIndex(once, productId).value;
        assert once[|items|].productId == productId;
        assert !(k < |items|);
      }
  }

  // ---------- the service ----------

  /** The qty `addItem` uses: a non-positive request adds 1. */
  function AddQty(qty: int): (q: int)
    ensures q >= 1
    ensures qty >= 1 ==> q == qty
  {
    if qty <= 0 then 1 else qty
  }

  /** The cart counter after `ensureOpenCart`: bumped only when a cart had to be created. */
  function EnsuredNext(carts: seq<Cart>, next: Id, userId: Id): (n: Id)
    ensures OpenCartIndex(carts, userId).Some? ==> n == next
    ensures OpenCartIndex(carts, userId).None? ==> n == next + 1
  {
    if OpenCartIndex(carts, userId).Some? then next else next + 1
  }

  /** `ensureOpenCart(userId)`: the index of the user's OPEN cart, created if there was none. */
  method EnsureOpenCart(db: Database, userId: Id) returns (k: nat)
    requires db.Valid()
    modifies db`carts, db`nextCartId
    ensures db.Valid()
    ensures db.carts == Ensured(old(db.carts), old(db.nextCartId), userId)
    ensures OpenCartIndex(db.carts, userId) == Some(k)
    ensures db.carts[k].items == OpenLines(old(db.carts), userId)
    ensures db.nextCartId == EnsuredNext(old(db.carts), old(db.nextCartId), userId)
  {
    EnsuredHasOpenCart(db.carts, db.nextCartId, userId);
    var found := OpenCartIndex(db.carts, userId);
    if found.Some? {
      k := found.value;
    } else {
      SaveCarts(db, db.carts + [EmptyCart(db.nextCartId, userId)], db.nextCartId + 1);
      k := |db.carts| - 1;
    }
  }

  /** Writes a cart table that keeps the cart invariant. */
  method SaveCarts(db: Database, carts: seq<Cart>, next: Id)
    requires db.Valid() && CartsOk(carts, next)
    modifies db`carts, db`nextCartId
    ensures db.Valid()
    ensures db.carts == carts && db.nextCartId == next
  {
    db.carts, db.nextCartId := carts, next;
  }

  /** Writes the recomputed cart back at `k`. */
  method SaveCart(db: Database, k: nat, items: seq<CartItem>) returns (c: Cart)
    requires db.Valid() && k < |db.carts| && LinesOk(items)
    modifies db`carts
    ensures db.Valid()
    ensures c == Recompute(old(db.carts[k]).(items := items))
    ensures CartOk(c) && c.items == items && c.userId == old(db.carts[k]).userId && c.status == old(db.carts[k]).status
      && c.id == old(db.carts[k]).id
    ensures db.carts == old(db.carts)[k := c]
    ensures forall u :: OpenCartIndex(db.carts, u) == OpenCartIndex(old(db.carts), u)
  {
    c := Recompute(db.carts[k].(items := items));
    CartsOkUpdate(db.carts, db.nextCartId, k, c);
    db.carts := db.carts[k := c];
  }

  /** `get(userId)`: the user's OPEN cart with its lines. */
  method Get(db: Database, userId: Id) returns (c: Cart)
    requires db.Valid()
    modifies db`carts, db`nextCartId
    ensures db.Valid()
    ensures db.carts == Ensured(old(db.carts), old(db.nextCartId), userId)
    ensures c.userId == userId && c.status == OPEN && CartOk(c)
    ensures OpenCartIndex(old(db.carts), userId).Some? ==> c == old(db.carts)[OpenCartIndex(old(db.carts), userId).value]
    ensures OpenCartIndex(old(db.carts), userId).None? ==> c.items == [] && c.total == 0
    ensures OpenCartIndex(db.carts, userId).Some? && c == db.carts[OpenCartIndex(db.carts, userId).value]
    ensures db.nextCartId == EnsuredNext(old(db.carts), old(db.nextCartId), userId)
  {
    var k := EnsureOpenCart(db, userId);
    c := db.carts[k];
  }

  /** The lines of the user's OPEN cart, or none when there is no such cart. */
  function OpenLines(carts: seq<Cart>, userId: Id): seq<CartItem> {
    match OpenCartIndex(carts, userId)
    case Some(k) => carts[k].items
    case None => []
  }

  /** `addItem(userId, productId, qty)`. */
  method AddItem(db: Database, userId: Id, productId: Id, qty: int) returns (r: Result<Cart>)
    requires db.Valid()
    modifies db`carts, db`nextCartId
    ensures db.Valid()
    ensures ProductIndex(old(db.products), productId).None? ==>
      r == Err(NotFound("Product not found")) && db.carts == Ensured(old(db.carts), old(db.nextCartId), userId)
    ensures ProductIndex(old(db.products), productId).Some? ==>
      var p := old(db.products)[ProductIndex(old(db.products), productId).value];
      var base := Ensured(old(db.carts), old(db.nextCartId), userId);
      var k := OpenCartIndex(base, userId).value;
      r.Ok? && r.value.userId == userId && r.value.status == OPEN && CartOk(r.value)
      && r.value.items == Upsert(OpenLines(old(db.carts), userId), productId, AddQty(qty), p.price, p.currency)
      && db.carts == base[k := r.value] && r.value.id == base[k].id
    ensures db.nextCartId == EnsuredNext(old(db.carts), old(db.nextCartId), userId)
  {
    var q := AddQty(qty);
    ghost var lines := OpenLines(db.carts, userId);
    ghost var base := Ensured(db.carts, db.nextCartId, userId);
    var k := EnsureOpenCart(db, userId);
    assert db.carts == base && OpenCartIndex(base, userId) == Some(k);
    var pi := ProductIndex(db.products, productId);
    if pi.None? {
      return Err(NotFound("Product not found"));
    }
    var p := db.products[pi.value];
    var c := UpsertLine(db, k, productId, q, p.price, p.currency);
    r := Ok(c);
  }

  /** Adds `qty` of the product to cart `k` and writes the recomputed cart back. */
  method UpsertLine(db: Database, k: nat, productId: Id, qty: int, price: int, currency: string) returns (c: Cart)
    requires db.Valid() && k < |db.carts| && qty >= 1
    modifies db`carts
    ensures db.Valid()
    ensures c.items == Upsert(old(db.carts[k]).items, productId, qty, price, currency)
    ensures CartOk(c) && c.userId == old(db.carts[k]).userId && c.status == old(db.carts[k]).status
      && c.id == old(db.carts[k]).id
    ensures db.carts == old(db.carts)[k := c]
  {
    var items := Upsert(db.carts[k].items, productId, qty, price, currency);
    UpsertKeepsLinesOk(db.carts[k].items, productId, qty, price, currency);
    c := SaveCart(db, k, items);
  }

  /** `updateItem(userId, productId, qty)`. */
  method UpdateItem(db: Database, userId: Id, productId: Id, qty: int) returns (r: Result<Cart>)
    requires db.Valid()
    modifies db`carts, db`nextCartId
    ensures db.Valid()
    ensures
      var base := Ensured(old(db.carts), old(db.nextCartId), userId);
      var k := OpenCartIndex(base, userId).value;
      var lines := OpenLines(old(db.carts), userId);
      if qty <= 0 then
        r.Ok? && r.value.items == DeleteLines(lines, productId) && db.carts == base[k := r.value] && CartOk(r.value)
        && r.value.id == base[k].id
      else if SetQty(lines, productId, qty).None? then
        r == Err(Internal("Record to update not found")) && db.carts == base
      else
        r.Ok? && r.value.items == SetQty(lines, productId, qty).value && db.carts == base[k := r.value] && CartOk(r.value)
        && r.value.id == base[k].id
    ensures db.nextCartId == EnsuredNext(old(db.carts), old(db.nextCartId), userId)
  {
    var k := EnsureOpenCart(db, userId);
    r := SetLineQty(db, k, productId, qty);
  }

  /** The write of `updateItem` on cart `k`: delete the line for qty at most 0, else set its qty. */
  method SetLineQty(db: Database, k: nat, productId: Id, qty: int) returns (r: Result<Cart>)
    requires db.Valid() && k < |db.carts|
    modifies db`carts
    ensures db.Valid()
    ensures
      var lines := old(db.carts[k]).items;
      if qty <= 0 then
        r.Ok? && r.value.items == DeleteLines(lines, productId) && db.carts == old(db.carts)[k := r.value] && CartOk(r.value)
        && r.value.id == old(db.carts[k]).id
      else if SetQty(lines, productId, qty).None? then
        r == Err(Internal("Record to update not found")) && db.carts == old(db.carts)
      else
        r.Ok? && r.value.items == SetQty(lines, productId, qty).value && db.carts == old(db.carts)[k := r.value] && CartOk(r.value)
        && r.value.id == old(db.carts[k]).id
  {
    var items := db.carts[k].items;
    if qty <= 0 {
      DeleteLinesKeepsLinesOk(items, productId);
      var c := SaveCart(db, k, DeleteLines(items, productId));
      r := Ok(c);
    } else {
      var updated := SetQty(items, productId, qty);
      if updated.None? {
        return Err(Internal("Record to update not found"));
      }
      SetQtyKeepsLinesOk(items, productId, qty);
      var c := SaveCart(db, k, updated.value);
      r := Ok(c);
    }
  }

  /** `removeItem(userId, productId)`. */
  method RemoveItem(db: Database, userId: Id, productId: Id) returns (c: Cart)
    requires db.Valid()
    modifies db`carts, db`nextCartId
    ensures db.Valid()
    ensures
      var base := Ensured(old(db.carts), old(db.nextCartId), userId);
      c.items == DeleteLines(OpenLines(old(db.carts), userId), productId) && CartOk(c)
      && db.carts == base[OpenCartIndex(base, userId).value := c] && c.id == base[OpenCartIndex(base, userId).value].id
    ensures db.nextCartId == EnsuredNext(old(db.carts), old(db.nextCartId), userId)
  {
    var k := EnsureOpenCart(db, userId);
    DeleteLinesKeepsLinesOk(db.carts[k].items, productId);
    c := SaveCart(db, k, DeleteLines(db.carts[k].items, productId));
  }

  /** `clear(userId)`. */
  method Clear(db: Database, userId: Id) returns (c: Cart)
    requires db.Valid()
    modifies db`carts, db`nextCartId
    ensures db.Valid()
    ensures
      var base := Ensured(old(db.carts), old(db.nextCartId), userId);
      c.items == [] && c.total == 0 && c.subtotal == 0 && db.carts == base[OpenCartIndex(base, userId).value := c]
      && c.id == base[OpenCartIndex(base, userId).value].id
    ensures db.nextCartId == EnsuredNext(old(db.carts), old(db.nextCartId), userId)
  {
    var k := EnsureOpenCart(db, userId);
    c := SaveCart(db, k, []);
  }
}
