/** `OrdersService`: checkout turns the user's OPEN cart into a PAID order in one transaction,
    reserving stock line by line; `list` and `detail` read the order table. */
module OrdersService {
  import opened Wrappers
  import opened Seqs
  import opened Text
  import opened JsNumbers
  import opened Store
  import opened CartService

  // ---------- order codes ----------

  /** The calendar date `genCode` reads from the clock (local time). */
  datatype CalendarDate = CalendarDate(year: nat, month: nat, day: nat)

  /** `String.prototype.padStart(width, fill)` with a one-character fill. */
  function PadStart(s: string, width: nat, fill: char): (r: string)
    ensures |s| >= width ==> r == s
    ensures |s| < width ==> |r| == width && r[width - |s|..] == s
    ensures forall i :: 0 <= i < |r| - |s| ==> r[i] == fill
  {
    if |s| >= width then s else seq(width - |s|, _ => fill) + s
  }

  /** `String.prototype.slice(start, end)` for non-negative bounds: both are clamped to the
      string's length. */
  function Slice(s: string, start: nat, end: nat): (r: string)
    ensures |r| <= |s| && (end <= |s| ==> |r| <= end - start || start > end)
    ensures start <= end && start <= |s| ==> r == s[start..if end < |s| then end else |s|]
    ensures start >= end || start >= |s| ==> r == []
  {
    var a := if start < |s| then start else |s|;
    var b := if end < |s| then end else |s|;
    if a < b then s[a..b] else []
  }

  function Ymd(d: CalendarDate): string {
    DecimalString(d.year) + PadStart(DecimalString(d.month), 2, '0') + PadStart(DecimalString(d.day), 2, '0')
  }

  /** `genCode()`: `rand36` is the text `Math.random().toString(36)` produced. */
  function GenCode(d: CalendarDate, rand36: string): (code: string)
    ensures |code| >= 5 && code[..4] == "ORD-"
  {
    "ORD-" + Ymd(d) + "-" + ToUpper(Slice(rand36, 2, 8))
  }

  /** Reads an order code of a four-digit year back into its date and suffix. */
  function ParseCode(code: string): (r: Option<(CalendarDate, string)>)
    ensures r.Some? ==> |code| >= 13 && code[..4] == "ORD-" && code[12] == '-' && r.value.1 == code[13..]
  {
    if |code| >= 13 && code[..4] == "ORD-" && code[12] == '-'
       && AllDigits(code[4..8]) && AllDigits(code[8..10]) && AllDigits(code[10..12]) then
      Some((CalendarDate(DigitsValue(code[4..8]), DigitsValue(code[8..10]), DigitsValue(code[10..12])), code[13..]))
    else None
  }

  lemma FourDigits(n: nat)
    requires 1000 <= n <= 9999
    ensures |NatDigits(n)| == 4
  {
    assert NatDigits(n) == NatDigits(n / 10) + [DigitChar(n % 10)];
    assert NatDigits(n / 10) == NatDigits(n / 100) + [DigitChar(n / 10 % 10)];
    assert NatDigits(n / 100) == NatDigits(n / 1000) + [DigitChar(n / 100 % 10)];
  }

  /** A month or a day printed with `padStart(2, '0')` is two digits that read back as itself. */
  lemma TwoDigits(n: nat)
    requires 1 <= n <= 99
    ensures var p := PadStart(DecimalString(n), 2, '0');
      |p| == 2 && AllDigits(p) && DigitsValue(p) == n
  {
    var p := PadStart(DecimalString(n), 2, '0');
    DigitsValueOfNatDigits(n);
    if n < 10 {
      assert p == ['0', DigitChar(n)];
      assert p[..1] == ['0'];
      assert ['0'][..0] == [];
    } else {
      assert NatDigits(n) == NatDigits(n / 10) + [DigitChar(n % 10)];
      assert p == NatDigits(n);
    }
  }

  /** The code of a date with a four-digit year reads back as that date and the upper-cased
      suffix, which holds at most six characters and no lower-case letter. */
  lemma ParseGenCode(d: CalendarDate, rand36: string)
    requires 1000 <= d.year <= 9999 && 1 <= d.month <= 12 && 1 <= d.day <= 31
    ensures ParseCode(GenCode(d, rand36)) == Some((d, ToUpper(Slice(rand36, 2, 8))))
    ensures |ToUpper(Slice(rand36, 2, 8))| <= 6
    ensures forall i :: 0 <= i < |ToUpper(Slice(rand36, 2, 8))| ==> !IsLower(ToUpper(Slice(rand36, 2, 8))[i])
  {
    var y := DecimalString(d.year);
    var m := PadStart(DecimalString(d.month), 2, '0');
    var dd := PadStart(DecimalString(d.day), 2, '0');
    var suffix := ToUpper(Slice(rand36, 2, 8));
    FourDigits(d.year);
    DigitsValueOfNatDigits(d.year);
    TwoDigits(d.month);
    TwoDigits(d.day);
    assert |y| == 4 && AllDigits(y) && DigitsValue(y) == d.year;
    assert |m| == 2 && AllDigits(m) && DigitsValue(m) == d.month;
    assert |dd| == 2 && AllDigits(dd) && DigitsValue(dd) == d.day;
    var code := GenCode(d, rand36);
    assert code == "ORD-" + y + m + dd + "-" + suffix;
    assert code[4..8] == y;
    assert code[8..10] == m;
    assert code[10..12] == dd;
    assert code[12] == '-';
    assert code[13..] == suffix;
  }

  // ---------- stock reservation ----------

  /** One line of checkout: the product must exist and hold at least `qty`; its stock is then
      decremented by `qty`. */
  function Step(products: seq<Product>, line: CartItem): (r: Result<seq<Product>>)
    ensures r.Err? <==> ProductIndex(products, line.productId).None? || products[ProductIndex(products, line.productId).value].stock < line.qty
    ensures r.Ok? ==> |r.value| == |products| && forall i :: 0 <= i < |products| ==> r.value[i].id == products[i].id
  {
    match ProductIndex(products, line.productId)
    case None => Err(BadRequest("Product not found"))
    case Some(j) =>
      if products[j].stock < line.qty then Err(BadRequest("Insufficient stock"))
      else Ok(products[j := products[j].(stock := products[j].stock - line.qty)])
  }

  /** The product table after checkout's per-line checks and decrements, line by line; the first
      failing line's error otherwise. */
  function Reserve(products: seq<Product>, lines: seq<CartItem>): (r: Result<seq<Product>>)
    ensures r.Err? ==> r.error in {BadRequest("Product not found"), BadRequest("Insufficient stock")}
    ensures r.Ok? ==> |r.value| == |products|
    decreases |lines|
  {
    if lines == [] then Ok(products)
    else match Step(products, lines[0])
      case Err(e) => Err(e)
      case Ok(next) => Reserve(next, lines[1..])
  }

  predicate DistinctIds(products: seq<Product>) {
    forall i, j :: 0 <= i < j < |products| ==> products[i].id != products[j].id
  }

  /** Total quantity the lines ask of product `id`. */
  function QtyOf(lines: seq<CartItem>, id: Id): int {
    if lines == [] then 0 else (if lines[0].productId == id then lines[0].qty else 0) + QtyOf(lines[1..], id)
  }

  predicate Mentions(lines: seq<CartItem>, id: Id) {
    exists k :: 0 <= k < |lines| && lines[k].productId == id
  }

  lemma {:induction false} QtyOfAbsent(lines: seq<CartItem>, id: Id)
    requires !Mentions(lines, id)
    ensures QtyOf(lines, id) == 0
  {
    if lines != [] {
      assert !Mentions(lines[1..], id);
      QtyOfAbsent(lines[1..], id);
    }
  }

  /** On success each product's stock drops by exactly what the lines ask of it, nothing else of
      the product changes, and a product that some line asks for is left with stock ≥ 0. */
  lemma {:induction false} ReserveStock(products: seq<Product>, lines: seq<CartItem>)
    requires DistinctIds(products)
    requires Reserve(products, lines).Ok?
    ensures var after := Reserve(products, lines).value;
      |after| == |products|
      && (forall j :: 0 <= j < |products| ==> after[j] == products[j].(stock := products[j].stock - QtyOf(lines, products[j].id)))
      && (forall j :: 0 <= j < |products| && Mentions(lines, products[j].id) ==> after[j].stock >= 0)
    decreases |lines|
  {
    if lines != [] {
      var next := Step(products, lines[0]).value;
      var j0 := ProductIndex(products, lines[0].productId).value;
      assert next == products[j0 := products[j0].(stock := products[j0].stock - lines[0].qty)];
      assert DistinctIds(next);
      ReserveStock(next, lines[1..]);
      var after := Reserve(products, lines).value;
      assert after == Reserve(next, lines[1..]).value;
      forall j | 0 <= j < |products| && Mentions(lines, products[j].id)
        ensures after[j].stock >= 0
      {
        var k :| 0 <= k < |lines| && lines[k].productId == products[j].id;
        if k > 0 {
          assert lines[1..][k - 1].productId == products[j].id;
        } else if !Mentions(lines[1..], products[j].id) {
          QtyOfAbsent(lines[1..], products[j].id);
          assert j == j0;
        }
      }
    }
  }

  /** What a line needs from the product table as it was before checkout. */
  predicate Available(products: seq<Product>, line: CartItem) {
    ProductIndex(products, line.productId).Some?
    && products[ProductIndex(products, line.productId).value].stock >= line.qty
  }

  /** With one line per product, checkout can reserve everything exactly when every line's
      product exists and holds enough stock before checkout starts. */
  lemma {:induction false} ReserveSucceeds(products: seq<Product>, lines: seq<CartItem>)
    requires DistinctIds(products)
    requires forall i, j :: 0 <= i < j < |lines| ==> lines[i].productId != lines[j].productId
    ensures Reserve(products, lines).Ok? <==> forall k :: 0 <= k < |lines| ==> Available(products, lines[k])
    decreases |lines|
  {
    if lines != [] {
      var step := Step(products, lines[0]);
      if step.Ok? {
        var next := step.value;
        var j0 := ProductIndex(products, lines[0].productId).value;
        assert DistinctIds(next);
        forall k | 1 <= k < |lines|
          ensures Available(next, lines[k]) <==> Available(products, lines[k])
        {
          assert lines[k].productId != lines[0].productId;
          SameIndexAfterStock(products, j0, next[j0], lines[k].productId);
        }
        ReserveSucceeds(next, lines[1..]);
        assert forall k :: 1 <= k < |lines| ==> lines[1..][k - 1] == lines[k];
      } else {
        assert !Available(products, lines[0]);
      }
    }
  }

  /** Rewriting one product's stock leaves every lookup by id where it was. */
  lemma SameIndexAfterStock(products: seq<Product>, j0: nat, p: Product, id: Id)
    requires j0 < |products| && p.id == products[j0].id
    requires products[j0].id != id
    ensures ProductIndex(products[j0 := p], id) == ProductIndex(products, id)
    ensures ProductIndex(products, id).Some? ==>
      products[j0 := p][ProductIndex(products, id).value] == products[ProductIndex(products, id).value]
  {
    var updated := products[j0 := p];
    var a, b := ProductIndex(updated, id), ProductIndex(products, id);
    if b.Some? {
      assert b.value != j0 && updated[b.value].id == id;
    }
    if a.Some? {
      assert a.value != j0 && products[a.value].id == id;
    }
  }

  // ---------- snapshots ----------

  /** Order items copy productId, qty, unit price and currency from the cart lines, never from the
      product's current price. */
  function Snapshot(lines: seq<CartItem>): (items: seq<OrderItem>)
    ensures |items| == |lines|
    ensures forall i :: 0 <= i < |lines| ==>
      items[i].productId == lines[i].productId && items[i].qty == lines[i].qty
      && items[i].unitPrice == lines[i].unitPrice && items[i].currency == lines[i].currency
  {
    seq(|lines|, i requires 0 <= i < |lines| => OrderItem(lines[i].productId, lines[i].qty, lines[i].unitPrice, lines[i].currency))
  }

  function ItemsTotal(items: seq<OrderItem>): int {
    if items == [] then 0 else ItemsTotal(items[..|items| - 1]) + items[|items| - 1].unitPrice * items[|items| - 1].qty
  }

  /** The order's items add up to the cart total the order copies. */
  lemma {:induction false} SnapshotTotal(lines: seq<CartItem>)
    ensures ItemsTotal(Snapshot(lines)) == Subtotal(lines)
  {
    if lines != [] {
      var n := |lines| - 1;
      assert Snapshot(lines)[..n] == Snapshot(lines[..n]);
      SnapshotTotal(lines[..n]);
    }
  }

  lemma OrderTotalIsItemsTotal(c: Cart)
    requires CartOk(c)
    ensures ItemsTotal(Snapshot(c.items)) == c.total
  {
    SnapshotTotal(c.items);
  }

  // ---------- checkout ----------

  /** The cart that checkout uses: the user's OPEN cart, when it has lines. */
  function CheckoutCart(carts: seq<Cart>, userId: Id): (k: Option<nat>)
    ensures k.Some? <==> OpenCartIndex(carts, userId).Some? && carts[OpenCartIndex(carts, userId).value].items != []
    ensures k.Some? ==> k == OpenCartIndex(carts, userId)
  {
    match OpenCartIndex(carts, userId)
    case None => None
    case Some(k) => if carts[k].items == [] then None else Some(k)
  }

  /** Closing the only OPEN cart of a user leaves the user without one, so a second checkout
      finds nothing to check out. */
  lemma ClosedCartIsGone(carts: seq<Cart>, userId: Id)
    requires OneOpenCartPerUser(carts) && OpenCartIndex(carts, userId).Some?
    ensures var k := OpenCartIndex(carts, userId).value;
      OpenCartIndex(carts[k := carts[k].(status := CHECKED_OUT)], userId).None?
      && CheckoutCart(carts[k := carts[k].(status := CHECKED_OUT)], userId).None?
  {
  }

  lemma DistinctIdsOf(products: seq<Product>, next: Id)
    requires ProductsOk(products, next)
    ensures DistinctIds(products)
  {
  }

  /** `checkout(userId)`; `today` and `rand36` are what `genCode` reads from the clock and from
      `Math.random`. The transaction is all or nothing: every failure leaves the database as it
      was. */
  method Checkout(db: Database, userId: Id, today: CalendarDate, rand36: string) returns (r: Result<Order>)
    requires db.Valid()
    modifies db`products, db`orders, db`nextOrderId, db`carts
    ensures db.Valid()
    ensures r.Err? ==>
      db.products == old(db.products) && db.orders == old(db.orders) && db.carts == old(db.carts)
      && db.nextOrderId == old(db.nextOrderId)
    ensures CheckoutCart(old(db.carts), userId).None? ==> r == Err(BadRequest("Cart empty"))
    ensures CheckoutCart(old(db.carts), userId).Some? ==>
      var cart := old(db.carts)[CheckoutCart(old(db.carts), userId).value];
      Reserve(old(db.products), cart.items).Err? ==> r == Err(Reserve(old(db.products), cart.items).error)
    ensures CheckoutCart(old(db.carts), userId).Some? ==>
      var k := CheckoutCart(old(db.carts), userId).value;
      var cart := old(db.carts)[k];
      Reserve(old(db.products), cart.items).Ok? ==>
        r == Ok(Order(old(db.nextOrderId), GenCode(today, rand36), userId, cart.total, PAID, Snapshot(cart.items)))
        && db.products == Reserve(old(db.products), cart.items).value
        && db.orders == old(db.orders) + [r.value]
        && db.nextOrderId == old(db.nextOrderId) + 1
        && db.carts == old(db.carts)[k := cart.(status := CHECKED_OUT)]
  {
    var found := CheckoutCart(db.carts, userId);
    if found.None? {
      return Err(BadRequest("Cart empty"));
    }
    var k := found.value;
    var cart := db.carts[k];
    var reserved, items := ReserveLines(db.products, cart.items);
    if reserved.Err? {
      return Err(reserved.error);
    }
    DistinctIdsOf(db.products, db.nextProductId);
    ReserveKeepsProductsOk(db.products, db.nextProductId, cart.items);
    var order := Order(db.nextOrderId, GenCode(today, rand36), userId, cart.total, PAID, items);
    CloseCartKeepsCartsOk(db.carts, db.nextCartId, userId);
    Commit(db, reserved.value, order, db.carts[k := cart.(status := CHECKED_OUT)]);
    r := Ok(order);
  }

  /** The writes of a successful checkout transaction, applied together. */
  method Commit(db: Database, products: seq<Product>, order: Order, carts: seq<Cart>)
    requires db.Valid()
    requires ProductsOk(products, db.nextProductId) && order.id == db.nextOrderId && CartsOk(carts, db.nextCartId)
    modifies db`products, db`orders, db`nextOrderId, db`carts
    ensures db.Valid()
    ensures db.products == products && db.orders == old(db.orders) + [order] && db.carts == carts
    ensures db.nextOrderId == old(db.nextOrderId) + 1
  {
    IdsBelowAppend(db.orders, OrderId, db.nextOrderId, order);
    db.products := products;
    db.orders := db.orders + [order];
    db.nextOrderId := db.nextOrderId + 1;
    db.carts := carts;
  }

  /** The loop of checkout over the cart lines, on a staged copy of the product table: the
      reservation and the order items it snapshots. */
  method ReserveLines(products: seq<Product>, lines: seq<CartItem>) returns (r: Result<seq<Product>>, items: seq<OrderItem>)
    ensures r == Reserve(products, lines)
    ensures r.Ok? ==> items == Snapshot(lines)
  {
    var staged := products;
    items := [];
    var i := 0;
    while i < |lines|
      invariant 0 <= i <= |lines|
      invariant Reserve(products, lines) == Reserve(staged, lines[i..])
      invariant items == Snapshot(lines[..i])
    {
      assert lines[i..][1..] == lines[i + 1..];
      var line := lines[i];
      var pj := ProductIndex(staged, line.productId);
      if pj.None? {
        return Err(BadRequest("Product not found")), items;
      }
      var p := staged[pj.value];
      if p.stock < line.qty {
        return Err(BadRequest("Insufficient stock")), items;
      }
      staged := staged[pj.value := p.(stock := p.stock - line.qty)];
      items := items + [OrderItem(p.id, line.qty, line.unitPrice, line.currency)];
      assert lines[..i + 1] == lines[..i] + [line];
      i := i + 1;
    }
    assert lines[..i] == lines;
    assert lines[i..] == [];
    r := Ok(staged);
  }

  /** Checkout changes stock only, so ids and slugs stay as they were. */
  lemma ReserveKeepsProductsOk(products: seq<Product>, next: Id, lines: seq<CartItem>)
    requires ProductsOk(products, next) && Reserve(products, lines).Ok?
    ensures ProductsOk(Reserve(products, lines).value, next)
  {
    ReserveStock(products, lines);
  }

  /** Closing the OPEN cart keeps the cart table's invariant. */
  lemma CloseCartKeepsCartsOk(carts: seq<Cart>, next: Id, userId: Id)
    requires CartsOk(carts, next) && OpenCartIndex(carts, userId).Some?
    ensures var k := OpenCartIndex(carts, userId).value;
      CartsOk(carts[k := carts[k].(status := CHECKED_OUT)], next)
  {
  }

  // ---------- reads ----------

  /** `list(userId)`: the user's orders, newest first. Rows are inserted in creation order, so
      newest first is the table read backwards. */
  function List(orders: seq<Order>, userId: Id): (r: seq<Order>)
    ensures forall i :: 0 <= i < |r| ==> r[i].userId == userId && r[i] in orders
    ensures forall i :: 0 <= i < |orders| && orders[i].userId == userId ==> orders[i] in r
  {
    Reverse(Filter(orders, (o: Order) => o.userId == userId))
  }

  /** Newest first: ids, which grow with creation time, strictly decrease along the list. */
  lemma ListNewestFirst(orders: seq<Order>, next: Id, userId: Id)
    requires OrdersOk(orders, next)
    ensures forall i, j :: 0 <= i < j < |List(orders, userId)| ==> List(orders, userId)[i].id > List(orders, userId)[j].id
  {
    var f := Filter(orders, (o: Order) => o.userId == userId);
    IdsBelowFilter(orders, OrderId, next, (o: Order) => o.userId == userId);
    assert forall i, j :: 0 <= i < j < |f| ==> f[i].id < f[j].id by {
      assert forall i, j :: 0 <= i < j < |f| ==> OrderId(f[i]) < OrderId(f[j]);
    }
  }

  /** `detail(userId, id)`: the order with that id, if it belongs to the user. */
  function Detail(orders: seq<Order>, userId: Id, id: Id): (r: Option<Order>)
    ensures r.Some? ==> r.value.id == id && r.value.userId == userId && r.value in orders
    ensures r.None? <==> forall i :: 0 <= i < |orders| ==> !(orders[i].id == id && orders[i].userId == userId)
  {
    match FirstIndex(orders, (o: Order) => o.id == id && o.userId == userId)
    case Some(i) => Some(orders[i])
    case None => None
  }
}
