/** `WishlistService`: a set of (user, product) pairs that `toggle` flips and `remove`
    deletes from. Rows are appended as they are created, so table order is `createdAt` order. */
module WishlistService {
  import opened Wrappers
  import opened Seqs
  import opened Store
  import ProductsService

  /** The ORM's error when `delete` finds no row. */
  const NoRecord := Internal("Record to delete does not exist")
  /** The ORM's error when `create` names a user or product that does not exist. */
  const MissingReference := Internal("Foreign key constraint failed on the field: (userId, productId)")

  /** `findUnique({ where: { userId_productId } })`. */
  function EntryIndex(wishlist: seq<WishlistItem>, item: WishlistItem): (r: Option<nat>)
    ensures r.Some? ==> r.value < |wishlist| && wishlist[r.value] == item
    ensures r.None? <==> item !in wishlist
  {
    FirstIndex(wishlist, (w: WishlistItem) => w == item)
  }

  /** The table after `toggle` on `item`: deleted when present, appended when absent. */
  function Toggled(wishlist: seq<WishlistItem>, item: WishlistItem): (r: seq<WishlistItem>)
    ensures |r| == if item in wishlist then |wishlist| - 1 else |wishlist| + 1
  {
    match EntryIndex(wishlist, item)
    case Some(k) => RemoveAt(wishlist, k)
    case None => wishlist + [item]
  }

  /** Deleting a row keeps pairs unique; with unique pairs the deleted pair is gone and every
      other pair is still there. */
  lemma RemoveEntry(wishlist: seq<WishlistItem>, k: nat)
    requires WishlistOk(wishlist) && k < |wishlist|
    ensures WishlistOk(RemoveAt(wishlist, k))
    ensures wishlist[k] !in RemoveAt(wishlist, k)
    ensures forall other :: other != wishlist[k] ==> (other in RemoveAt(wishlist, k) <==> other in wishlist)
  {
    var rest := RemoveAt(wishlist, k);
    forall i, j | 0 <= i < j < |rest|
      ensures rest[i] != rest[j]
    {
      var i0 := if i < k then i else i + 1;
      var j0 := if j < k then j else j + 1;
      assert rest[i] == wishlist[i0] && rest[j] == wishlist[j0] && i0 < j0;
    }
    forall other | other != wishlist[k]
      ensures other in rest <==> other in wishlist
    {
      if other in wishlist {
        var i :| 0 <= i < |wishlist| && wishlist[i] == other;
        assert i != k;
        if i < k { assert rest[i] == other; } else { assert rest[i - 1] == other; }
      }
    }
  }

  /** `toggle` keeps pairs unique, leaves the pair present exactly when it was absent, and
      changes no other pair. */
  lemma ToggleFlips(wishlist: seq<WishlistItem>, item: WishlistItem)
    requires WishlistOk(wishlist)
    ensures WishlistOk(Toggled(wishlist, item))
    ensures item in Toggled(wishlist, item) <==> item !in wishlist
    ensures forall other :: other != item ==> (other in Toggled(wishlist, item) <==> other in wishlist)
  {
    match EntryIndex(wishlist, item)
    case Some(k) => RemoveEntry(wishlist, k);
    case None =>
      var r := wishlist + [item];
      assert r[|wishlist|] == item;
      forall other | other != item && other in r
        ensures other in wishlist
      {
        var i :| 0 <= i < |r| && r[i] == other;
        assert i < |wishlist| && wishlist[i] == other;
      }
  }

  /** Toggling the same pair twice restores the set of pairs; starting from an absent pair it
      restores the table exactly (a pair liked again is a new, newest row). */
  lemma {:induction false} ToggleTwice(wishlist: seq<WishlistItem>, item: WishlistItem)
    requires WishlistOk(wishlist)
    ensures multiset(Toggled(Toggled(wishlist, item), item)) == multiset(wishlist)
    ensures item !in wishlist ==> Toggled(Toggled(wishlist, item), item) == wishlist
  {
    ToggleFlips(wishlist, item);
    match EntryIndex(wishlist, item)
    case Some(k) =>
      var rest := RemoveAt(wishlist, k);
      assert EntryIndex(rest, item).None?;
      assert wishlist == wishlist[..k] + [item] + wishlist[k + 1..];
      assert rest == wishlist[..k] + wishlist[k + 1..];
    case None =>
      var added := wishlist + [item];
      var j := EntryIndex(added, item).value;
      assert j == |wishlist|;
      assert RemoveAt(added, j) == wishlist;
  }

  /** `toggle(userId, productId)`: `Ok(liked)`. Adding a pair whose user or product does not
      exist fails on the foreign key and changes nothing. */
  method Toggle(db: Database, userId: Id, productId: Id) returns (r: Result<bool>)
    requires db.Valid()
    modifies db`wishlist
    ensures db.Valid()
    ensures var item := WishlistItem(userId, productId);
      if item !in old(db.wishlist) && (UserIndex(db.users, userId).None? || ProductIndex(db.products, productId).None?)
      then r == Err(MissingReference) && db.wishlist == old(db.wishlist)
      else r == Ok(item !in old(db.wishlist)) && db.wishlist == Toggled(old(db.wishlist), item)
    ensures r.Ok? ==> (r.value <==> WishlistItem(userId, productId) in db.wishlist)
  {
    var item := WishlistItem(userId, productId);
    ToggleFlips(db.wishlist, item);
    match EntryIndex(db.wishlist, item)
    case Some(k) =>
      db.wishlist := RemoveAt(db.wishlist, k);
      r := Ok(false);
    case None =>
      if UserIndex(db.users, userId).None? || ProductIndex(db.products, productId).None? {
        return Err(MissingReference);
      }
      db.wishlist := db.wishlist + [item];
      r := Ok(true);
  }

  /** `remove(userId, productId)`: deletes the pair and returns it; an absent pair is the ORM's
      not-found error. */
  method Remove(db: Database, userId: Id, productId: Id) returns (r: Result<WishlistItem>)
    requires db.Valid()
    modifies db`wishlist
    ensures db.Valid()
    ensures var item := WishlistItem(userId, productId);
      if item in old(db.wishlist)
      then r == Ok(item) && db.wishlist == RemoveAt(old(db.wishlist), EntryIndex(old(db.wishlist), item).value)
      else r == Err(NoRecord) && db.wishlist == old(db.wishlist)
    ensures WishlistItem(userId, productId) !in db.wishlist
    ensures forall other :: other != WishlistItem(userId, productId) ==> (other in db.wishlist <==> other in old(db.wishlist))
  {
    var item := WishlistItem(userId, productId);
    match EntryIndex(db.wishlist, item)
    case None =>
      r := Err(NoRecord);
    case Some(k) =>
      RemoveEntry(db.wishlist, k);
      db.wishlist := RemoveAt(db.wishlist, k);
      r := Ok(item);
  }

  /** A listed entry: the pair with its product and the product's images. */
  datatype Wished = Wished(item: WishlistItem, product: Option<Product>, images: seq<Image>)

  function Entry(products: seq<Product>, images: seq<Image>, item: WishlistItem): (e: Wished)
    ensures e.item == item
    ensures e.product.Some? <==> ProductIndex(products, item.productId).Some?
    ensures e.product.Some? ==> e.product.value in products && e.product.value.id == item.productId
    ensures e.product.Some? ==> e.images == ProductsService.ImagesOf(images, item.productId)
    ensures e.product.None? ==> e.images == []
  {
    match ProductIndex(products, item.productId)
    case None => Wished(item, None, [])
    case Some(k) => Wished(item, Some(products[k]), ProductsService.ImagesOf(images, item.productId))
  }

  /** The user's pairs, newest first: all of them and no others. */
  function Mine(wishlist: seq<WishlistItem>, userId: Id): (r: seq<WishlistItem>)
    ensures forall i :: 0 <= i < |r| ==> r[i] in wishlist && r[i].userId == userId
    ensures forall i :: 0 <= i < |wishlist| && wishlist[i].userId == userId ==> wishlist[i] in r
    ensures forall i, j :: 0 <= i < j < |r| ==> NewerThan(wishlist, r[i], r[j])
  {
    ReversedFilterRows(wishlist, OfUser(userId));
    ReversedFilterNewestFirst(wishlist, OfUser(userId));
    Reverse(Filter(wishlist, OfUser(userId)))
  }

  function OfUser(userId: Id): WishlistItem -> bool {
    (w: WishlistItem) => w.userId == userId
  }

  /** Reversing a filtered table keeps exactly the rows that pass. */
  lemma ReversedFilterRows(wishlist: seq<WishlistItem>, p: WishlistItem -> bool)
    ensures forall i :: 0 <= i < |Reverse(Filter(wishlist, p))| ==>
      Reverse(Filter(wishlist, p))[i] in wishlist && p(Reverse(Filter(wishlist, p))[i])
    ensures forall i :: 0 <= i < |wishlist| && p(wishlist[i]) ==> wishlist[i] in Reverse(Filter(wishlist, p))
  {
    var f := Filter(wishlist, p);
    var r := Reverse(f);
    forall i | 0 <= i < |r|
      ensures r[i] in wishlist && p(r[i])
    {
      assert r[i] == f[|f| - 1 - i];
    }
  }

  /** Reversing a filtered table lists the kept rows newest first. */
  lemma ReversedFilterNewestFirst(wishlist: seq<WishlistItem>, p: WishlistItem -> bool)
    ensures forall i, j :: 0 <= i < j < |Reverse(Filter(wishlist, p))| ==>
      NewerThan(wishlist, Reverse(Filter(wishlist, p))[i], Reverse(Filter(wishlist, p))[j])
  {
    forall i, j | 0 <= i < j < |Reverse(Filter(wishlist, p))|
      ensures NewerThan(wishlist, Reverse(Filter(wishlist, p))[i], Reverse(Filter(wishlist, p))[j])
    {
      ReversedPairIsNewer(wishlist, p, i, j);
    }
  }

  lemma ReversedPairIsNewer(wishlist: seq<WishlistItem>, p: WishlistItem -> bool, i: nat, j: nat)
    requires i < j < |Reverse(Filter(wishlist, p))|
    ensures NewerThan(wishlist, Reverse(Filter(wishlist, p))[i], Reverse(Filter(wishlist, p))[j])
  {
    var x, y := ReversedFilterPair(wishlist, p, i, j);
    NewerAt(wishlist, x, y, Reverse(Filter(wishlist, p))[i], Reverse(Filter(wishlist, p))[j]);
  }

  lemma NewerAt(wishlist: seq<WishlistItem>, x: nat, y: nat, a: WishlistItem, b: WishlistItem)
    requires y < x < |wishlist| && wishlist[x] == a && wishlist[y] == b
    ensures NewerThan(wishlist, a, b)
  {
  }

  /** `list(userId)`: the user's pairs and no others, all of them, newest first, each with its
      product and the product's images. */
  function List(wishlist: seq<WishlistItem>, products: seq<Product>, images: seq<Image>, userId: Id): (r: seq<Wished>)
    ensures forall i :: 0 <= i < |r| ==> r[i].item in wishlist && r[i].item.userId == userId
    ensures forall i :: 0 <= i < |wishlist| && wishlist[i].userId == userId ==>
      exists j :: 0 <= j < |r| && r[j].item == wishlist[i]
    ensures forall i, j :: 0 <= i < j < |r| ==> NewerThan(wishlist, r[i].item, r[j].item)
    ensures forall i :: 0 <= i < |r| ==> r[i] == Entry(products, images, r[i].item)
  {
    var mine := Mine(wishlist, userId);
    var r := seq(|mine|, i requires 0 <= i < |mine| => Entry(products, images, mine[i]));
    assert forall i :: 0 <= i < |r| ==> r[i].item == mine[i];
    r
  }

  /** Some row holding `a` comes after some row holding `b`: `a` was created later. */
  predicate NewerThan(wishlist: seq<WishlistItem>, a: WishlistItem, b: WishlistItem) {
    exists x, y :: 0 <= y < x < |wishlist| && wishlist[x] == a && wishlist[y] == b
  }

}
