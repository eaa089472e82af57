/** The rows of the shop's database tables and the database itself: one sequence of rows per
    table, in insertion order, and a counter per table that hands out row ids. */
module Store {
  import opened Wrappers
  import opened Seqs

  /** Row ids. Each table draws them from its own counter, so ids grow with insertion order. */
  type Id = nat

  datatype Role = ADMIN | USER
  datatype Provider = EMAIL | PHONE | GOOGLE | FACEBOOK

  datatype User = User(id: Id, email: Option<string>, phone: Option<string>, fullName: string, role: Role)

  /** A login method of a user; `passwordHash` holds a digest, never a password. */
  datatype Account = Account(userId: Id, provider: Provider, providerUserId: string,
                             email: Option<string>, phone: Option<string>, passwordHash: Option<string>)

  /** A refresh-token grant; `token` holds the digest of the raw refresh token. */
  datatype Session = Session(id: Id, userId: Id, token: string, userAgent: Option<string>,
                             ip: Option<string>, expiresAt: int)

  /** Prices are integer cents. `rating` is kept as an integer score. */
  datatype Product = Product(id: Id, name: string, slug: string, sku: Option<string>, brand: Option<string>,
                             description: Option<string>, price: int, compareAtPrice: Option<int>,
                             currency: string, unit: Option<string>, unitLabel: Option<string>,
                             badges: seq<string>, stock: int, isActive: bool, categoryId: Option<string>,
                             rating: int, reviewCount: int)

  datatype Image = Image(id: Id, productId: Id, url: string, alt: Option<string>, pos: int)

  datatype CartStatus = OPEN | CHECKED_OUT

  /** A row of the cartItem table; the rows of one cart are kept inside that cart, in insertion
      order, and `(cart, productId)` is unique. */
  datatype CartItem = CartItem(productId: Id, qty: int, unitPrice: int, currency: string)

  datatype Cart = Cart(id: Id, userId: Id, status: CartStatus, subtotal: int, discount: int,
                       deliveryFee: int, total: int, items: seq<CartItem>)

  datatype OrderStatus = PENDING | PAID
  datatype OrderItem = OrderItem(productId: Id, qty: int, unitPrice: int, currency: string)
  datatype Order = Order(id: Id, code: string, userId: Id, total: int, status: OrderStatus, items: seq<OrderItem>)

  datatype WishlistItem = WishlistItem(userId: Id, productId: Id)

  function UserId(u: User): Id { u.id }
  function SessionId(s: Session): Id { s.id }
  function ProductId(p: Product): Id { p.id }
  function ImageId(i: Image): Id { i.id }
  function CartId(c: Cart): Id { c.id }
  function OrderId(o: Order): Id { o.id }

  /** Row ids strictly increase along the table and stay below the table's counter. */
  predicate IdsBelow<T>(rows: seq<T>, id: T -> Id, next: Id) {
    (forall i, j :: 0 <= i < j < |rows| ==> id(rows[i]) < id(rows[j]))
    && (forall i :: 0 <= i < |rows| ==> id(rows[i]) < next)
  }

  /** Appending a row with the counter's id and bumping the counter keeps `IdsBelow`. */
  lemma IdsBelowAppend<T>(rows: seq<T>, id: T -> Id, next: Id, row: T)
    requires IdsBelow(rows, id, next) && id(row) == next
    ensures IdsBelow(rows + [row], id, next + 1)
  {
  }

  /** Deleting one row keeps `IdsBelow`. */
  lemma IdsBelowRemoveAt<T>(rows: seq<T>, id: T -> Id, next: Id, k: nat)
    requires IdsBelow(rows, id, next) && k < |rows|
    ensures IdsBelow(rows[..k] + rows[k + 1..], id, next)
  {
    var r := rows[..k] + rows[k + 1..];
    assert forall i :: 0 <= i < |r| ==> r[i] == rows[if i < k then i else i + 1];
  }

  /** Deleting every row that fails a test keeps `IdsBelow`. */
  lemma {:induction false} IdsBelowFilter<T>(rows: seq<T>, id: T -> Id, next: Id, p: T -> bool)
    requires IdsBelow(rows, id, next)
    ensures IdsBelow(Filter(rows, p), id, next)
  {
    if rows != [] {
      var init := rows[..|rows| - 1];
      assert IdsBelow(init, id, next);
      IdsBelowFilter(init, id, next, p);
      var f := Filter(init, p);
      assert forall i :: 0 <= i < |f| ==> id(f[i]) < id(rows[|rows| - 1]) by {
        forall i | 0 <= i < |f| ensures id(f[i]) < id(rows[|rows| - 1]) {
          assert f[i] in init;
        }
      }
    }
  }

  predicate UsersOk(users: seq<User>, next: Id) {
    IdsBelow(users, UserId, next)
    && (forall i, j :: 0 <= i < j < |users| && users[i].email.Some? ==> users[i].email != users[j].email)
    && (forall i, j :: 0 <= i < j < |users| && users[i].phone.Some? ==> users[i].phone != users[j].phone)
  }

  /** `(provider, providerUserId)` is unique, and every account belongs to a user row that has
      been created (users are never deleted). */
  predicate AccountsOk(accounts: seq<Account>, nextUser: Id) {
    (forall i, j :: 0 <= i < j < |accounts| ==>
      (accounts[i].provider, accounts[i].providerUserId) != (accounts[j].provider, accounts[j].providerUserId))
    && forall i :: 0 <= i < |accounts| ==> accounts[i].userId < nextUser
  }

  /** Session digests are pairwise distinct: fresh random tokens do not collide. */
  predicate SessionsOk(sessions: seq<Session>, next: Id) {
    IdsBelow(sessions, SessionId, next)
    && forall i, j :: 0 <= i < j < |sessions| ==> sessions[i].token != sessions[j].token
  }

  /** Slugs are unique. */
  predicate ProductsOk(products: seq<Product>, next: Id) {
    IdsBelow(products, ProductId, next)
    && forall i, j :: 0 <= i < j < |products| ==> products[i].slug != products[j].slug
  }

  predicate ImagesOk(images: seq<Image>, next: Id) { IdsBelow(images, ImageId, next) }

  predicate OrdersOk(orders: seq<Order>, next: Id) { IdsBelow(orders, OrderId, next) }

  /** `(userId, productId)` is unique. */
  predicate WishlistOk(wishlist: seq<WishlistItem>) {
    forall i, j :: 0 <= i < j < |wishlist| ==> wishlist[i] != wishlist[j]
  }

  /** Σ unitPrice·qty over the lines, summed from the first line on as `reduce` does. */
  function Subtotal(items: seq<CartItem>): int {
    if items == [] then 0 else Subtotal(items[..|items| - 1]) + items[|items| - 1].unitPrice * items[|items| - 1].qty
  }

  /** One line per product, each with qty at least 1. */
  predicate LinesOk(items: seq<CartItem>) {
    (forall i, j :: 0 <= i < j < |items| ==> items[i].productId != items[j].productId)
    && (forall i :: 0 <= i < |items| ==> items[i].qty >= 1)
  }

  /** A cart row as every cart mutation leaves it: well-formed lines and totals that agree with
      them. */
  predicate CartOk(c: Cart) {
    LinesOk(c.items)
    && c.subtotal == Subtotal(c.items) && c.discount == 0 && c.deliveryFee == 0 && c.total == c.subtotal
  }

  /** At most one OPEN cart per user. */
  predicate OneOpenCartPerUser(carts: seq<Cart>) {
    forall i, j :: 0 <= i < j < |carts| && carts[i].status == OPEN && carts[j].status == OPEN
      ==> carts[i].userId != carts[j].userId
  }

  predicate CartsOk(carts: seq<Cart>, next: Id) {
    IdsBelow(carts, CartId, next)
    && (forall i :: 0 <= i < |carts| ==> CartOk(carts[i]))
    && OneOpenCartPerUser(carts)
  }

  /** `findUnique({ where: { id } })` on the product table. */
  function ProductIndex(products: seq<Product>, id: Id): (r: Option<nat>)
    ensures r.Some? ==> r.value < |products| && products[r.value].id == id
    ensures r.Some? ==> forall j :: 0 <= j < r.value ==> products[j].id != id
    ensures r.None? ==> forall j :: 0 <= j < |products| ==> products[j].id != id
  {
    FirstIndex(products, (p: Product) => p.id == id)
  }

  /** `findUnique({ where: { id } })` on the user table. */
  function UserIndex(users: seq<User>, id: Id): (r: Option<nat>)
    ensures r.Some? ==> r.value < |users| && users[r.value].id == id
    ensures r.Some? ==> forall j :: 0 <= j < r.value ==> users[j].id != id
    ensures r.None? ==> forall j :: 0 <= j < |users| ==> users[j].id != id
  {
    FirstIndex(users, (u: User) => u.id == id)
  }

  /** `findUnique({ where: { id } })` on the session table. */
  function SessionIndex(sessions: seq<Session>, id: Id): (r: Option<nat>)
    ensures r.Some? ==> r.value < |sessions| && sessions[r.value].id == id
    ensures r.Some? ==> forall j :: 0 <= j < r.value ==> sessions[j].id != id
    ensures r.None? ==> forall j :: 0 <= j < |sessions| ==> sessions[j].id != id
  {
    FirstIndex(sessions, (s: Session) => s.id == id)
  }

  /** The row at `k` removed, as `delete` leaves a table. */
  function RemoveAt<T>(rows: seq<T>, k: nat): (r: seq<T>)
    requires k < |rows|
    ensures |r| == |rows| - 1
    ensures forall i :: 0 <= i < k ==> r[i] == rows[i]
    ensures forall i :: k <= i < |r| ==> r[i] == rows[i + 1]
  {
    rows[..k] + rows[k + 1..]
  }

  class Database {
    var users: seq<User>
    var accounts: seq<Account>
    var sessions: seq<Session>
    var products: seq<Product>
    var images: seq<Image>
    var carts: seq<Cart>
    var orders: seq<Order>
    var wishlist: seq<WishlistItem>
    var nextUserId: Id
    var nextSessionId: Id
    var nextProductId: Id
    var nextImageId: Id
    var nextCartId: Id
    var nextOrderId: Id

    /** The constraints the schema and the services keep on every table. */
    predicate Valid()
      reads this
    {
      UsersOk(users, nextUserId) && AccountsOk(accounts, nextUserId) && SessionsOk(sessions, nextSessionId)
      && ProductsOk(products, nextProductId) && ImagesOk(images, nextImageId)
      && CartsOk(carts, nextCartId) && OrdersOk(orders, nextOrderId) && WishlistOk(wishlist)
    }

    /** An empty database. */
    constructor ()
      ensures Valid()
      ensures users == [] && accounts == [] && sessions == [] && products == [] && images == []
      ensures carts == [] && orders == [] && wishlist == []
      ensures nextUserId == 0 && nextSessionId == 0 && nextProductId == 0 && nextImageId == 0
      ensures nextCartId == 0 && nextOrderId == 0
    {
      users, accounts, sessions, products, images, carts, orders, wishlist := [], [], [], [], [], [], [], [];
      nextUserId, nextSessionId, nextProductId, nextImageId, nextCartId, nextOrderId := 0, 0, 0, 0, 0, 0;
    }
  }
}
