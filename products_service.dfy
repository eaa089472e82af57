/** `ProductsService`: the catalog table and its images. Creation and update keep slugs
    unique; the listing filters, orders and pages the table. */
module ProductsService {
  import opened Wrappers
  import opened Seqs
  import opened Text
  import opened Store
  import opened Sorting
  import opened Slug
  import opened QueryProduct

  const SlugTaken := BadRequest("Slug already in use")
  const ProductNotFound := NotFound("Product not found")
  /** The ORM's record-not-found error on `update` and `delete`. */
  const NoRecord := Internal("Record to update or delete does not exist")
  /** The unique constraint on `slug` failing at the write. */
  const SlugConstraint := Internal("Unique constraint failed on the fields: (slug)")
  /** The ORM refuses a negative `skip`. */
  const NegativeSkip := Internal("Invalid value for argument skip: value can only be positive")

  // ---------- ordering ----------

  /** `orderBy(sort)` as the comparison "`a` may come before `b`": price ascending, price
      descending, rating then review count descending, or newest first. Rows are created with
      increasing ids, so `createdAt` descending is id descending. */
  function ProductOrder(sort: ProductSort): (Product, Product) -> bool {
    match sort
    case PRICE_ASC => (a: Product, b: Product) => a.price <= b.price
    case PRICE_DESC => (a: Product, b: Product) => a.price >= b.price
    case RATING => (a: Product, b: Product) =>
      a.rating > b.rating || (a.rating == b.rating && a.reviewCount >= b.reviewCount)
    case NEW => (a: Product, b: Product) => a.id >= b.id
  }

  lemma ProductOrderIsTotal(sort: ProductSort)
    ensures TotalPreorder(ProductOrder(sort))
  {
  }

  /** `images: { orderBy: { pos: 'asc' } }`. */
  function ByPos(): (Image, Image) -> bool {
    (a: Image, b: Image) => a.pos <= b.pos
  }

  // ---------- images ----------

  function OfProduct(id: Id): Image -> bool {
    (img: Image) => img.productId == id
  }

  function NotOfProduct(id: Id): Image -> bool {
    (img: Image) => img.productId != id
  }

  /** The image rows of product `id`, in table order. */
  function ImagesOf(images: seq<Image>, id: Id): (r: seq<Image>)
    ensures forall i :: 0 <= i < |r| ==> r[i] in images && r[i].productId == id
    ensures forall i :: 0 <= i < |images| && images[i].productId == id ==> images[i] in r
  {
    Filter(images, OfProduct(id))
  }

  /** An image in a create or update request. */
  datatype ImageInput = ImageInput(url: string, alt: Option<string>, pos: Option<int>)

  /** The rows `create` makes for `inputs`, with ids drawn from `next` on and `pos` defaulting
      to 0. */
  function NewImages(productId: Id, inputs: seq<ImageInput>, next: Id): (r: seq<Image>)
    ensures |r| == |inputs|
    ensures forall i :: 0 <= i < |r| ==>
      r[i] == Image(next + i, productId, inputs[i].url, inputs[i].alt, inputs[i].pos.GetOr(0))
  {
    seq(|inputs|, i requires 0 <= i < |inputs| => Image(next + i, productId, inputs[i].url, inputs[i].alt, inputs[i].pos.GetOr(0)))
  }

  lemma ImagesOkAppendNew(images: seq<Image>, next: Id, productId: Id, inputs: seq<ImageInput>)
    requires ImagesOk(images, next)
    ensures ImagesOk(images + NewImages(productId, inputs, next), next + |inputs|)
  {
  }

  /** The image table once product `id`'s images are replaced by `inputs`: its old rows are
      deleted and the new ones appended. */
  function ReplaceImages(images: seq<Image>, id: Id, inputs: seq<ImageInput>, next: Id): (r: seq<Image>)
    ensures forall i :: 0 <= i < |r| && r[i].productId != id ==> r[i] in images
  {
    Filter(images, NotOfProduct(id)) + NewImages(id, inputs, next)
  }

  /** A replace keeps ids below the counter once it is bumped past the new rows. */
  lemma ReplaceImagesOk(images: seq<Image>, next: Id, id: Id, inputs: seq<ImageInput>)
    requires ImagesOk(images, next)
    ensures ImagesOk(ReplaceImages(images, id, inputs, next), next + |inputs|)
  {
    IdsBelowFilter(images, ImageId, next, NotOfProduct(id));
    ImagesOkAppendNew(Filter(images, NotOfProduct(id)), next, id, inputs);
  }

  /** After a replace, the product's images are exactly the given list. */
  lemma ReplaceImagesSetsList(images: seq<Image>, next: Id, id: Id, inputs: seq<ImageInput>)
    ensures ImagesOf(ReplaceImages(images, id, inputs, next), id) == NewImages(id, inputs, next)
  {
    var kept := Filter(images, NotOfProduct(id));
    var added := NewImages(id, inputs, next);
    FilterAppend(kept, added, OfProduct(id));
    FilterNone(kept, OfProduct(id));
    FilterAll(added, OfProduct(id));
  }

  /** A replace leaves the images of every other product as they were. */
  lemma ReplaceImagesKeepsOthers(images: seq<Image>, next: Id, id: Id, inputs: seq<ImageInput>, other: Id)
    requires other != id
    ensures ImagesOf(ReplaceImages(images, id, inputs, next), other) == ImagesOf(images, other)
  {
    var kept := Filter(images, NotOfProduct(id));
    var added := NewImages(id, inputs, next);
    FilterAppend(kept, added, OfProduct(other));
    FilterNone(added, OfProduct(other));
    FilterOtherProduct(images, id, other);
  }

  /** Dropping product `id`'s images leaves the images of any other product as they were. */
  lemma {:induction false} FilterOtherProduct(images: seq<Image>, id: Id, other: Id)
    requires other != id
    ensures Filter(Filter(images, NotOfProduct(id)), OfProduct(other)) == Filter(images, OfProduct(other))
  {
    if images != [] {
      var init, last := images[..|images| - 1], images[|images| - 1];
      FilterOtherProduct(init, id, other);
      var tail := if last.productId != id then [last] else [];
      assert Filter(images, NotOfProduct(id)) == Filter(init, NotOfProduct(id)) + tail;
      FilterAppend(Filter(init, NotOfProduct(id)), tail, OfProduct(other));
      assert Filter(tail, OfProduct(other)) == (if last.productId == other then [last] else []) by {
        if tail != [] {
          assert tail[..0] == [];
        }
      }
    }  }

  // ---------- reading ----------

  /** A product with its images ordered by position. */
  datatype ProductView = ProductView(product: Product, images: seq<Image>)

  function View(images: seq<Image>, p: Product): (v: ProductView)
    ensures v.product == p && SortedBy(v.images, ByPos())
    ensures multiset(v.images) == multiset(ImagesOf(images, p.id))
  {
    SortBySorted(ImagesOf(images, p.id), ByPos());
    ProductView(p, SortBy(ImagesOf(images, p.id), ByPos()))
  }

  /** `findOne(id)`. */
  function FindOne(products: seq<Product>, images: seq<Image>, id: Id): (r: Result<ProductView>)
    ensures r.Ok? <==> ProductIndex(products, id).Some?
    ensures r.Err? ==> r.error == ProductNotFound
    ensures r.Ok? ==> r.value.product.id == id && r.value.product in products
    ensures r.Ok? ==> r.value == View(images, products[ProductIndex(products, id).value])
    ensures r.Ok? ==> SortedBy(r.value.images, ByPos()) && multiset(r.value.images) == multiset(ImagesOf(images, id))
  {
    match ProductIndex(products, id)
    case None => Err(ProductNotFound)
    case Some(k) => Ok(View(images, products[k]))
  }

  // ---------- listing ----------

  /** A listing query once the DTO transforms have run; `None` is an absent parameter (or,
      for the strings, an empty one). Prices are in cents. */
  datatype ProductQuery = ProductQuery(q: Option<string>, categoryId: Option<string>,
                                       minPrice: Option<int>, maxPrice: Option<int>,
                                       sort: Option<ProductSort>, page: Option<int>,
                                       pageSize: Option<int>, activeOnly: Option<bool>)

  /** `contains` with `mode: 'insensitive'`, on ASCII letters. */
  predicate ContainsInsensitive(hay: string, needle: string) {
    Contains(ToLower(hay), ToLower(needle))
  }

  predicate Truthy(s: Option<string>) { s.Some? && s.value != "" }

  /** The `where` clause: every given filter must hold. */
  predicate Matches(query: ProductQuery, p: Product) {
    (query.activeOnly.GetOr(true) ==> p.isActive)
    && (Truthy(query.q) ==>
          ContainsInsensitive(p.name, query.q.value)
          || (p.brand.Some? && ContainsInsensitive(p.brand.value, query.q.value))
          || (p.sku.Some? && ContainsInsensitive(p.sku.value, query.q.value)))
    && (Truthy(query.categoryId) ==> p.categoryId == query.categoryId)
    && (query.minPrice.Some? ==> p.price >= query.minPrice.value)
    && (query.maxPrice.Some? ==> p.price <= query.maxPrice.value)
  }

  function Matching(products: seq<Product>, query: ProductQuery): (r: seq<Product>)
    ensures forall i :: 0 <= i < |r| ==> r[i] in products && Matches(query, r[i])
    ensures forall i :: 0 <= i < |products| && Matches(query, products[i]) ==> products[i] in r
  {
    Filter(products, (p: Product) => Matches(query, p))
  }

  /** `skip`/`take` on an ordered result: a negative skip is refused; a negative take counts
      back from the end of the rows left after skipping that many from the end. */
  function Window<T>(rows: seq<T>, skip: int, take: int): (r: Result<seq<T>>)
    ensures r.Err? <==> skip < 0
    ensures r.Ok? ==> |r.value| <= if take < 0 then -take else take
    ensures r.Ok? && take >= 0 ==>
      forall i :: 0 <= i < |r.value| ==> skip + i < |rows| && r.value[i] == rows[skip + i]
    ensures r.Ok? && take >= 0 ==>
      |r.value| == if skip + take <= |rows| then take else if skip < |rows| then |rows| - skip else 0
  {
    if skip < 0 then Err(NegativeSkip)
    else if take >= 0 then
      var lo := if skip < |rows| then skip else |rows|;
      var hi := if skip + take < |rows| then skip + take else |rows|;
      Ok(rows[lo..hi])
    else
      var hi := if skip < |rows| then |rows| - skip else 0;
      var lo := if hi + take > 0 then hi + take else 0;
      Ok(rows[lo..hi])
  }

  /** With a positive page size, the row at position `j` appears on page `j / size + 1`, at
      position `j % size`: pages cover the ordered matches without gaps. */
  lemma EveryRowOnItsPage<T>(rows: seq<T>, j: nat, size: nat)
    requires 0 < size && j < |rows|
    ensures Window(rows, (j / size) * size, size).Ok?
    ensures j % size < |Window(rows, (j / size) * size, size).value|
    ensures Window(rows, (j / size) * size, size).value[j % size] == rows[j]
  {
    var skip := (j / size) * size;
    assert j == skip + j % size;
  }

  /** A listing page. */
  datatype ProductPage = ProductPage(total: nat, page: int, pageSize: int, data: seq<ProductView>)

  /** The rows `findAll` skips: `(page - 1) * pageSize`. */
  function Skip(page: int, size: int): int { (page - 1) * size }

  /** `findAll(query)`: `total` counts every match; `data` holds the page's rows of the matches
      in `orderBy` order, each with its images by position. */
  function FindAll(products: seq<Product>, images: seq<Image>, query: ProductQuery): (r: Result<ProductPage>)
    ensures r == PageOf(Ordered(products, query), images, |Matching(products, query)|,
                        query.page.GetOr(1), query.pageSize.GetOr(20))
    ensures r.Ok? ==> forall i :: 0 <= i < |r.value.data| ==>
      r.value.data[i].product in products && Matches(query, r.value.data[i].product)
    ensures r.Ok? && r.value.pageSize >= 0 ==> forall i, j :: 0 <= i < j < |r.value.data| ==>
      ProductOrder(query.sort.GetOr(NEW))(r.value.data[i].product, r.value.data[j].product)
  {
    var page, size := query.page.GetOr(1), query.pageSize.GetOr(20);
    var ordered := Ordered(products, query);
    PageRowsMatch(products, images, query, page, size);
    PageOfSorted(ordered, images, |Matching(products, query)|, page, size, ProductOrder(query.sort.GetOr(NEW)));
    PageOf(ordered, images, |Matching(products, query)|, page, size)
  }

  /** What a `findAll` page holds: `total` counts every match; with a non-negative page size,
      `data` is the ordered matches from `(page - 1) * pageSize` on, `pageSize` of them or as
      many as remain, each with its images; a negative skip is refused. */
  lemma FindAllPage(products: seq<Product>, images: seq<Image>, query: ProductQuery)
    ensures var r := FindAll(products, images, query);
      (r.Err? <==> Skip(query.page.GetOr(1), query.pageSize.GetOr(20)) < 0)
      && (r.Err? ==> r.error == NegativeSkip)
      && (r.Ok? ==>
            r.value.total == |Matching(products, query)|
            && r.value.page == query.page.GetOr(1) && r.value.pageSize == query.pageSize.GetOr(20)
            && |r.value.data| <= if r.value.pageSize < 0 then -r.value.pageSize else r.value.pageSize)
    ensures var r := FindAll(products, images, query);
      r.Ok? && r.value.pageSize >= 0 ==>
        var skip, total := Skip(r.value.page, r.value.pageSize), r.value.total;
        |r.value.data| == if skip + r.value.pageSize <= total then r.value.pageSize
                          else if skip < total then total - skip else 0
    ensures var r := FindAll(products, images, query);
      r.Ok? && r.value.pageSize >= 0 ==> forall i :: 0 <= i < |r.value.data| ==>
        Skip(r.value.page, r.value.pageSize) + i < |Ordered(products, query)|
        && r.value.data[i] == View(images, Ordered(products, query)[Skip(r.value.page, r.value.pageSize) + i])
  {
  }

  /** Every row on a page is a matching product of the table. */
  lemma PageRowsMatch(products: seq<Product>, images: seq<Image>, query: ProductQuery, page: int, size: int)
    ensures var r := PageOf(Ordered(products, query), images, |Matching(products, query)|, page, size);
      r.Ok? ==> forall i :: 0 <= i < |r.value.data| ==>
        r.value.data[i].product in products && Matches(query, r.value.data[i].product)
  {
    var ordered := Ordered(products, query);
    var r := PageOf(ordered, images, |Matching(products, query)|, page, size);
    if r.Ok? {
      var data := r.value.data;
      forall i | 0 <= i < |data| ensures data[i].product in products && Matches(query, data[i].product) {
        var k :| 0 <= k < |ordered| && ordered[k] == data[i].product;
      }
    }
  }

  /** The page of the ordered matches that `findAll` returns: the `skip`/`take` window from
      `Skip(page, size)`, each row with its images. */
  function PageOf(ordered: seq<Product>, images: seq<Image>, total: nat, page: int, size: int): (r: Result<ProductPage>)
    ensures r.Err? <==> Skip(page, size) < 0
    ensures r.Err? ==> r.error == NegativeSkip
    ensures r.Ok? ==>
      r.value.total == total && r.value.page == page && r.value.pageSize == size
      && |r.value.data| <= if size < 0 then -size else size
    ensures r.Ok? ==> forall i :: 0 <= i < |r.value.data| ==>
      r.value.data[i].product in ordered && SortedBy(r.value.data[i].images, ByPos())
    ensures r.Ok? && size >= 0 ==>
      |r.value.data| == if Skip(page, size) + size <= |ordered| then size
                        else if Skip(page, size) < |ordered| then |ordered| - Skip(page, size) else 0
    ensures r.Ok? && size >= 0 ==> forall i :: 0 <= i < |r.value.data| ==>
      Skip(page, size) + i < |ordered| && r.value.data[i] == View(images, ordered[Skip(page, size) + i])
  {
    match Window(ordered, Skip(page, size), size)
    case Err(e) => Err(e)
    case Ok(rows) =>
      WindowKeepsRows(ordered, Skip(page, size), size);
      var data := Views(images, rows);
      MapWindow(ordered, Skip(page, size), size, images, data);
      Ok(ProductPage(total, page, size, data))
  }

  /** A forward page of a sorted list is sorted. */
  lemma PageOfSorted(ordered: seq<Product>, images: seq<Image>, total: nat, page: int, size: int,
                     le: (Product, Product) -> bool)
    requires SortedBy(ordered, le)
    ensures var r := PageOf(ordered, images, total, page, size);
      r.Ok? && size >= 0 ==> forall i, j :: 0 <= i < j < |r.value.data| ==>
        le(r.value.data[i].product, r.value.data[j].product)
  {
    var r := PageOf(ordered, images, total, page, size);
    if r.Ok? && size >= 0 {
      var data := r.value.data;
      forall i, j | 0 <= i < j < |data| ensures le(data[i].product, data[j].product) {
        PagePairSorted(ordered, data, Skip(page, size), le, i, j);
      }
    }
  }

  lemma PagePairSorted(ordered: seq<Product>, data: seq<ProductView>, skip: int, le: (Product, Product) -> bool, i: nat, j: nat)
    requires SortedBy(ordered, le) && i < j < |data| && 0 <= skip && skip + j < |ordered|
    requires data[i].product == ordered[skip + i] && data[j].product == ordered[skip + j]
    ensures le(data[i].product, data[j].product)
  {
  }

  /** Each row with its images. */
  function Views(images: seq<Image>, rows: seq<Product>): (r: seq<ProductView>)
    ensures |r| == |rows|
    ensures forall i :: 0 <= i < |rows| ==> r[i] == View(images, rows[i])
  {
    seq(|rows|, i requires 0 <= i < |rows| => View(images, rows[i]))
  }

  /** The views of a forward window are the views of the rows from `skip` on. */
  lemma MapWindow(rows: seq<Product>, skip: int, take: int, images: seq<Image>, data: seq<ProductView>)
    requires skip >= 0 && data == Views(images, Window(rows, skip, take).value)
    ensures take >= 0 ==> forall i :: 0 <= i < |data| ==> skip + i < |rows| && data[i] == View(images, rows[skip + i])
  {
  }

  /** The matching products in `orderBy` order. */
  function Ordered(products: seq<Product>, query: ProductQuery): (r: seq<Product>)
    ensures |r| == |Matching(products, query)|
    ensures forall i :: 0 <= i < |r| ==> r[i] in products && Matches(query, r[i])
    ensures multiset(r) == multiset(Matching(products, query))
    ensures SortedBy(r, ProductOrder(query.sort.GetOr(NEW)))
  {
    var matches := Matching(products, query);
    var order := ProductOrder(query.sort.GetOr(NEW));
    ProductOrderIsTotal(query.sort.GetOr(NEW));
    SortBySorted(matches, order);
    SortByKeepsElements(matches, order);
    SortBy(matches, order)
  }

  /** A window holds rows of the input, taken forwards or from the end. */
  lemma WindowKeepsRows<T>(rows: seq<T>, skip: int, take: int)
    requires skip >= 0
    ensures forall i :: 0 <= i < |Window(rows, skip, take).value| ==> Window(rows, skip, take).value[i] in rows
  {
    var w := Window(rows, skip, take).value;
    if take >= 0 {
      forall i | 0 <= i < |w| ensures w[i] in rows {
        assert w[i] == rows[skip + i];
      }
    }
  }

  /** A window of a sorted sequence taken forwards stays sorted. */
  lemma WindowOfSorted<T>(rows: seq<T>, skip: int, take: int, le: (T, T) -> bool)
    requires skip >= 0 && take >= 0 && SortedBy(rows, le)
    ensures SortedBy(Window(rows, skip, take).value, le)
  {
    var w := Window(rows, skip, take).value;
    forall i, j | 0 <= i < j < |w| ensures le(w[i], w[j]) {
      assert w[i] == rows[skip + i] && w[j] == rows[skip + j];
    }
  }

  // ---------- creating ----------

  /** A create request; `None` is an absent (or null) field. */
  datatype ProductInput = ProductInput(name: string, slug: Option<string>, sku: Option<string>,
                                       brand: Option<string>, description: Option<string>,
                                       price: int, compareAtPrice: Option<int>, currency: Option<string>,
                                       unit: Option<string>, unitLabel: Option<string>,
                                       categoryId: Option<string>, badges: Option<seq<string>>,
                                       images: Option<seq<ImageInput>>, stock: Option<int>,
                                       isActive: Option<bool>)

  /** `findUnique({ where: { slug } })`. */
  function SlugIndex(products: seq<Product>, slug: string): (r: Option<nat>)
    ensures r.Some? ==> r.value < |products| && products[r.value].slug == slug
    ensures r.None? ==> forall j :: 0 <= j < |products| ==> products[j].slug != slug
  {
    FirstIndex(products, (p: Product) => p.slug == slug)
  }

  /** `dto.slug ?? slugify(dto.name)`: a given slug is kept as it is, even "". */
  function CreateSlug(dto: ProductInput): (s: string)
    ensures dto.slug.None? ==> IsSlug(s)
  {
    if dto.slug.Some? then dto.slug.value
    else Slugify(dto.name)
  }

  /** The row `create` inserts: absent fields take the schema's and the service's defaults. */
  function NewProduct(id: Id, dto: ProductInput): (p: Product)
    ensures p.id == id && p.name == dto.name && p.slug == CreateSlug(dto) && p.price == dto.price
    ensures p.currency == dto.currency.GetOr("$") && p.stock == dto.stock.GetOr(0)
    ensures p.isActive == dto.isActive.GetOr(true) && p.badges == dto.badges.GetOr([])
    ensures p.categoryId == (if Truthy(dto.categoryId) then dto.categoryId else None)
    ensures p.rating == 0 && p.reviewCount == 0
  {
    Product(id, dto.name, CreateSlug(dto), dto.sku, dto.brand, dto.description, dto.price, dto.compareAtPrice,
            dto.currency.GetOr("$"), dto.unit, dto.unitLabel, dto.badges.GetOr([]), dto.stock.GetOr(0),
            dto.isActive.GetOr(true), if Truthy(dto.categoryId) then dto.categoryId else None, 0, 0)
  }

  /** Writes the product table and its counter. */
  method SaveProducts(db: Database, products: seq<Product>, nextProduct: Id)
    requires db.Valid() && ProductsOk(products, nextProduct)
    modifies db`products, db`nextProductId
    ensures db.Valid()
    ensures db.products == products && db.nextProductId == nextProduct
  {
    db.products, db.nextProductId := products, nextProduct;
  }

  /** Writes the image table and its counter. */
  method SaveImages(db: Database, images: seq<Image>, nextImage: Id)
    requires db.Valid() && ImagesOk(images, nextImage)
    modifies db`images, db`nextImageId
    ensures db.Valid()
    ensures db.images == images && db.nextImageId == nextImage
  {
    db.images, db.nextImageId := images, nextImage;
  }

  /** `create(dto)`: refused when the slug is taken; otherwise one product row, and one image
      row per given image when the list is non-empty. */
  method Create(db: Database, dto: ProductInput) returns (r: Result<ProductView>)
    requires db.Valid()
    modifies db`products, db`nextProductId, db`images, db`nextImageId
    ensures db.Valid()
    ensures SlugIndex(old(db.products), CreateSlug(dto)).Some? ==>
      r == Err(SlugTaken) && db.products == old(db.products) && db.images == old(db.images)
      && db.nextProductId == old(db.nextProductId) && db.nextImageId == old(db.nextImageId)
    ensures SlugIndex(old(db.products), CreateSlug(dto)).None? ==>
      var p := NewProduct(old(db.nextProductId), dto);
      var added := NewImages(p.id, dto.images.GetOr([]), old(db.nextImageId));
      r == Ok(ProductView(p, added))
      && db.products == old(db.products) + [p] && db.nextProductId == old(db.nextProductId) + 1
      && db.images == old(db.images) + added && db.nextImageId == old(db.nextImageId) + |added|
  {
    var slug := CreateSlug(dto);
    if SlugIndex(db.products, slug).Some? {
      return Err(SlugTaken);
    }
    var p := NewProduct(db.nextProductId, dto);
    var inputs := dto.images.GetOr([]);
    var added := NewImages(p.id, inputs, db.nextImageId);
    IdsBelowAppend(db.products, ProductId, db.nextProductId, p);
    ImagesOkAppendNew(db.images, db.nextImageId, p.id, inputs);
    SaveProducts(db, db.products + [p], db.nextProductId + 1);
    SaveImages(db, db.images + added, db.nextImageId + |added|);
    r := Ok(ProductView(p, added));
  }

  // ---------- updating ----------

  /** How an update request treats the category: absent, explicitly null, or an id. */
  datatype CategoryPatch = Omitted | Null | Given(id: string)

  /** An update request: the create request's fields, each optional. */
  datatype ProductPatch = ProductPatch(name: Option<string>, slug: Option<string>, sku: Option<string>,
                                       brand: Option<string>, description: Option<string>,
                                       price: Option<int>, compareAtPrice: Option<int>, currency: Option<string>,
                                       unit: Option<string>, unitLabel: Option<string>,
                                       categoryId: CategoryPatch, badges: Option<seq<string>>,
                                       images: Option<seq<ImageInput>>, stock: Option<int>,
                                       isActive: Option<bool>)

  /** `dto.slug ?? (dto.name ? slugify(dto.name) : undefined)`. */
  function UpdateSlug(dto: ProductPatch): (r: Option<string>)
    ensures r.None? <==> dto.slug.None? && !Truthy(dto.name)
    ensures dto.slug.Some? ==> r == dto.slug
    ensures dto.slug.None? && r.Some? ==> IsSlug(r.value)
  {
    if dto.slug.Some? then dto.slug
    else if Truthy(dto.name) then Some(Slugify(dto.name.value))
    else None
  }

  /** The service's conflict check: only a non-empty slug that differs from the current one is
      looked up. */
  predicate SlugCheckFails(products: seq<Product>, k: nat, slug: Option<string>): (b: bool)
    requires k < |products|
    ensures b ==> SlugWriteFails(products, k, slug)
  {
    Truthy(slug) && slug.value != products[k].slug && SlugIndex(products, slug.value).Some?
  }

  /** The unique index at the write: another row already holds the slug being written. */
  predicate SlugWriteFails(products: seq<Product>, k: nat, slug: Option<string>) {
    slug.Some? && exists j :: 0 <= j < |products| && j != k && products[j].slug == slug.value
  }

  /** `data`: a field absent from the request keeps its value; a null category disconnects it
      and a non-empty one connects it. */
  function ApplyPatch(p: Product, dto: ProductPatch, slug: Option<string>): (r: Product)
    ensures r.id == p.id && r.rating == p.rating && r.reviewCount == p.reviewCount
  {
    p.(name := dto.name.GetOr(p.name), slug := slug.GetOr(p.slug),
       sku := if dto.sku.Some? then dto.sku else p.sku,
       brand := if dto.brand.Some? then dto.brand else p.brand,
       description := if dto.description.Some? then dto.description else p.description,
       price := dto.price.GetOr(p.price),
       compareAtPrice := if dto.compareAtPrice.Some? then dto.compareAtPrice else p.compareAtPrice,
       currency := dto.currency.GetOr(p.currency),
       unit := if dto.unit.Some? then dto.unit else p.unit,
       unitLabel := if dto.unitLabel.Some? then dto.unitLabel else p.unitLabel,
       badges := dto.badges.GetOr(p.badges), stock := dto.stock.GetOr(p.stock),
       isActive := dto.isActive.GetOr(p.isActive),
       categoryId := match dto.categoryId
         case Omitted => p.categoryId
         case Null => None
         case Given(c) => if c != "" then Some(c) else p.categoryId)
  }

  /** A request with no fields changes nothing, the id and the review figures never change, and
      applying the same request twice is the same as once. */
  lemma PatchProperties(p: Product, dto: ProductPatch, slug: Option<string>)
    ensures ApplyPatch(p, ProductPatch(None, None, None, None, None, None, None, None, None, None, Omitted, None, None, None, None), None) == p
    ensures ApplyPatch(p, dto, slug).id == p.id && ApplyPatch(p, dto, slug).rating == p.rating
    ensures ApplyPatch(p, dto, slug).reviewCount == p.reviewCount
    ensures ApplyPatch(ApplyPatch(p, dto, slug), dto, slug) == ApplyPatch(p, dto, slug)
    ensures dto.name.None? ==> ApplyPatch(p, dto, slug).name == p.name
    ensures dto.price.None? ==> ApplyPatch(p, dto, slug).price == p.price
    ensures dto.stock.None? ==> ApplyPatch(p, dto, slug).stock == p.stock
    ensures dto.isActive.None? ==> ApplyPatch(p, dto, slug).isActive == p.isActive
    ensures slug.None? ==> ApplyPatch(p, dto, slug).slug == p.slug
    ensures dto.sku.None? ==> ApplyPatch(p, dto, slug).sku == p.sku
    ensures dto.brand.None? ==> ApplyPatch(p, dto, slug).brand == p.brand
    ensures dto.description.None? ==> ApplyPatch(p, dto, slug).description == p.description
    ensures dto.compareAtPrice.None? ==> ApplyPatch(p, dto, slug).compareAtPrice == p.compareAtPrice
    ensures dto.currency.None? ==> ApplyPatch(p, dto, slug).currency == p.currency
    ensures dto.unit.None? ==> ApplyPatch(p, dto, slug).unit == p.unit
    ensures dto.unitLabel.None? ==> ApplyPatch(p, dto, slug).unitLabel == p.unitLabel
    ensures dto.badges.None? ==> ApplyPatch(p, dto, slug).badges == p.badges
    ensures dto.categoryId == Omitted ==> ApplyPatch(p, dto, slug).categoryId == p.categoryId
    ensures dto.categoryId == Null ==> ApplyPatch(p, dto, slug).categoryId.None?
    ensures dto.categoryId == Given("") ==> ApplyPatch(p, dto, slug).categoryId == p.categoryId
  {
  }

  /** Every field the request carries is written: a given value replaces the stored one, a
      non-empty category id connects that category. */
  lemma PatchSetsGivenFields(p: Product, dto: ProductPatch, slug: Option<string>)
    ensures dto.name.Some? ==> ApplyPatch(p, dto, slug).name == dto.name.value
    ensures slug.Some? ==> ApplyPatch(p, dto, slug).slug == slug.value
    ensures dto.sku.Some? ==> ApplyPatch(p, dto, slug).sku == dto.sku
    ensures dto.brand.Some? ==> ApplyPatch(p, dto, slug).brand == dto.brand
    ensures dto.description.Some? ==> ApplyPatch(p, dto, slug).description == dto.description
    ensures dto.price.Some? ==> ApplyPatch(p, dto, slug).price == dto.price.value
    ensures dto.compareAtPrice.Some? ==> ApplyPatch(p, dto, slug).compareAtPrice == dto.compareAtPrice
    ensures dto.currency.Some? ==> ApplyPatch(p, dto, slug).currency == dto.currency.value
    ensures dto.unit.Some? ==> ApplyPatch(p, dto, slug).unit == dto.unit
    ensures dto.unitLabel.Some? ==> ApplyPatch(p, dto, slug).unitLabel == dto.unitLabel
    ensures dto.badges.Some? ==> ApplyPatch(p, dto, slug).badges == dto.badges.value
    ensures dto.stock.Some? ==> ApplyPatch(p, dto, slug).stock == dto.stock.value
    ensures dto.isActive.Some? ==> ApplyPatch(p, dto, slug).isActive == dto.isActive.value
    ensures dto.categoryId.Given? && dto.categoryId.id != "" ==> ApplyPatch(p, dto, slug).categoryId == Some(dto.categoryId.id)
  {
  }

  /** Unique slugs leave a single way past the service's check into the unique index: the
      empty slug, which the check skips. */
  lemma OnlyEmptySlugReachesIndex(products: seq<Product>, next: Id, k: nat, slug: Option<string>)
    requires ProductsOk(products, next) && k < |products|
    requires !SlugCheckFails(products, k, slug) && SlugWriteFails(products, k, slug)
    ensures slug == Some("")
  {
  }

  /** Writing a row whose slug no other row holds keeps slugs unique. */
  lemma ProductsOkUpdate(products: seq<Product>, next: Id, k: nat, p: Product)
    requires ProductsOk(products, next) && k < |products| && p.id == products[k].id
    requires forall j :: 0 <= j < |products| && j != k ==> products[j].slug != p.slug
    ensures ProductsOk(products[k := p], next)
  {
  }

  /** When the index accepts the write, no other row holds the patched row's slug. */
  lemma PatchedSlugIsFree(products: seq<Product>, next: Id, k: nat, dto: ProductPatch, slug: Option<string>)
    requires ProductsOk(products, next) && k < |products| && !SlugWriteFails(products, k, slug)
    ensures forall j :: 0 <= j < |products| && j != k ==> products[j].slug != ApplyPatch(products[k], dto, slug).slug
  {
    if slug.None? {
      forall j | 0 <= j < |products| && j != k
        ensures products[j].slug != products[k].slug
      {
        if j < k { assert products[j].slug != products[k].slug; }
        else { assert products[k].slug != products[j].slug; }
      }
    }
  }

  /** `update(id, dto)`. A given image list (even an empty one) replaces the product's images
      before the product row is written, so a slug the unique index refuses at that point
      fails after the images have changed. */
  method Update(db: Database, id: Id, dto: ProductPatch) returns (r: Result<ProductView>)
    requires db.Valid()
    modifies db`products, db`images, db`nextImageId
    ensures db.Valid()
    ensures ProductIndex(old(db.products), id).None? ==>
      r == Err(ProductNotFound) && db.products == old(db.products) && db.images == old(db.images)
      && db.nextImageId == old(db.nextImageId)
    ensures ProductIndex(old(db.products), id).Some? && SlugCheckFails(old(db.products), ProductIndex(old(db.products), id).value, UpdateSlug(dto)) ==>
      r == Err(SlugTaken) && db.products == old(db.products) && db.images == old(db.images)
      && db.nextImageId == old(db.nextImageId)
    ensures ProductIndex(old(db.products), id).Some? && !SlugCheckFails(old(db.products), ProductIndex(old(db.products), id).value, UpdateSlug(dto)) ==>
      db.images == ImagesAfter(old(db.images), id, dto.images, old(db.nextImageId))
      && db.nextImageId == old(db.nextImageId) + |dto.images.GetOr([])|
    ensures ProductIndex(old(db.products), id).Some? && !SlugCheckFails(old(db.products), ProductIndex(old(db.products), id).value, UpdateSlug(dto))
            && SlugWriteFails(old(db.products), ProductIndex(old(db.products), id).value, UpdateSlug(dto)) ==>
      r == Err(SlugConstraint) && db.products == old(db.products)
    ensures ProductIndex(old(db.products), id).Some? && !SlugCheckFails(old(db.products), ProductIndex(old(db.products), id).value, UpdateSlug(dto))
            && !SlugWriteFails(old(db.products), ProductIndex(old(db.products), id).value, UpdateSlug(dto)) ==>
      var k := ProductIndex(old(db.products), id).value;
      var p := ApplyPatch(old(db.products)[k], dto, UpdateSlug(dto));
      r == Ok(ProductView(p, ImagesOf(db.images, id))) && db.products == old(db.products)[k := p]
  {
    var found := ProductIndex(db.products, id);
    if found.None? {
      return Err(ProductNotFound);
    }
    var k := found.value;
    var slug := UpdateSlug(dto);
    if SlugCheckFails(db.products, k, slug) {
      return Err(SlugTaken);
    }
    if dto.images.Some? {
      var inputs := dto.images.value;
      ReplaceImagesOk(db.images, db.nextImageId, id, inputs);
      SaveImages(db, ReplaceImages(db.images, id, inputs, db.nextImageId), db.nextImageId + |inputs|);
    }
    if SlugWriteFails(db.products, k, slug) {
      return Err(SlugConstraint);
    }
    var p := ApplyPatch(db.products[k], dto, slug);
    PatchedSlugIsFree(db.products, db.nextProductId, k, dto, slug);
    WriteProduct(db, k, p);
    r := Ok(ProductView(p, ImagesOf(db.images, id)));
  }

  /** The image table after an update: replaced when the request carries a list. */
  function ImagesAfter(images: seq<Image>, id: Id, inputs: Option<seq<ImageInput>>, next: Id): seq<Image> {
    if inputs.Some? then ReplaceImages(images, id, inputs.value, next) else images
  }

  /** Writes row `k` of the product table, keeping its id, with a slug no other row holds. */
  method WriteProduct(db: Database, k: nat, p: Product)
    requires db.Valid() && k < |db.products| && p.id == db.products[k].id
    requires forall j :: 0 <= j < |db.products| && j != k ==> db.products[j].slug != p.slug
    modifies db`products
    ensures db.Valid() && db.products == old(db.products)[k := p]
  {
    ProductsOkUpdate(db.products, db.nextProductId, k, p);
    db.products := db.products[k := p];
  }

  // ---------- single-field updates and deletes ----------

  /** `remove(id)`: deletes the product row; an unknown id is the ORM's not-found error. */
  method Remove(db: Database, id: Id) returns (r: Result<bool>)
    requires db.Valid()
    modifies db`products
    ensures db.Valid()
    ensures ProductIndex(old(db.products), id).None? ==> r == Err(NoRecord) && db.products == old(db.products)
    ensures ProductIndex(old(db.products), id).Some? ==>
      r == Ok(true) && db.products == RemoveAt(old(db.products), ProductIndex(old(db.products), id).value)
    ensures forall i :: 0 <= i < |db.products| ==> db.products[i].id != id
  {
    var found := ProductIndex(db.products, id);
    if found.None? {
      return Err(NoRecord);
    }
    var k := found.value;
    RemoveProductKeepsOk(db.products, db.nextProductId, k);
    db.products := RemoveAt(db.products, k);
    r := Ok(true);
  }

  /** Deleting a row keeps slugs unique, and no row with the deleted id is left. */
  lemma RemoveProductKeepsOk(products: seq<Product>, next: Id, k: nat)
    requires ProductsOk(products, next) && k < |products|
    ensures ProductsOk(RemoveAt(products, k), next)
    ensures forall i :: 0 <= i < |products| - 1 ==> RemoveAt(products, k)[i].id != products[k].id
  {
    var rest := RemoveAt(products, k);
    IdsBelowRemoveAt(products, ProductId, next, k);
    forall i, j | 0 <= i < j < |rest|
      ensures rest[i].slug != rest[j].slug
    {
      var i0 := if i < k then i else i + 1;
      var j0 := if j < k then j else j + 1;
      assert rest[i] == products[i0] && rest[j] == products[j0] && i0 < j0;
    }
    forall i | 0 <= i < |rest|
      ensures rest[i].id != products[k].id
    {
      var i0 := if i < k then i else i + 1;
      assert rest[i] == products[i0] && i0 != k;
      assert ProductId(products[i0]) != ProductId(products[k]) by {
        if i0 < k { assert ProductId(products[i0]) < ProductId(products[k]); }
        else { assert ProductId(products[k]) < ProductId(products[i0]); }
      }
    }
  }

  /** `setStock(id, stock)`: only that row's stock changes. */
  method SetStock(db: Database, id: Id, stock: int) returns (r: Result<Product>)
    requires db.Valid()
    modifies db`products
    ensures db.Valid()
    ensures ProductIndex(old(db.products), id).None? ==> r == Err(NoRecord) && db.products == old(db.products)
    ensures ProductIndex(old(db.products), id).Some? ==>
      var k := ProductIndex(old(db.products), id).value;
      r == Ok(old(db.products)[k].(stock := stock)) && db.products == old(db.products)[k := r.value]
  {
    var found := ProductIndex(db.products, id);
    if found.None? {
      return Err(NoRecord);
    }
    var k := found.value;
    var p := db.products[k].(stock := stock);
    ProductsOkUpdate(db.products, db.nextProductId, k, p);
    db.products := db.products[k := p];
    r := Ok(p);
  }

  /** `activate(id, isActive)`: only that row's flag changes. */
  method Activate(db: Database, id: Id, isActive: bool) returns (r: Result<Product>)
    requires db.Valid()
    modifies db`products
    ensures db.Valid()
    ensures ProductIndex(old(db.products), id).None? ==> r == Err(NoRecord) && db.products == old(db.products)
    ensures ProductIndex(old(db.products), id).Some? ==>
      var k := ProductIndex(old(db.products), id).value;
      r == Ok(old(db.products)[k].(isActive := isActive)) && db.products == old(db.products)[k := r.value]
  {
    var found := ProductIndex(db.products, id);
    if found.None? {
      return Err(NoRecord);
    }
    var k := found.value;
    var p := db.products[k].(isActive := isActive);
    ProductsOkUpdate(db.products, db.nextProductId, k, p);
    db.products := db.products[k := p];
    r := Ok(p);
  }

  /** `addImage(productId, url, alt, pos)`: the product must exist. */
  method AddImage(db: Database, productId: Id, url: string, alt: Option<string>, pos: int) returns (r: Result<Image>)
    requires db.Valid()
    modifies db`images, db`nextImageId
    ensures db.Valid()
    ensures ProductIndex(db.products, productId).None? ==>
      r == Err(ProductNotFound) && db.images == old(db.images) && db.nextImageId == old(db.nextImageId)
    ensures ProductIndex(db.products, productId).Some? ==>
      r == Ok(Image(old(db.nextImageId), productId, url, alt, pos))
      && db.images == old(db.images) + [r.value] && db.nextImageId == old(db.nextImageId) + 1
  {
    if FindOne(db.products, db.images, productId).Err? {
      return Err(ProductNotFound);
    }
    var img := Image(db.nextImageId, productId, url, alt, pos);
    IdsBelowAppend(db.images, ImageId, db.nextImageId, img);
    SaveImages(db, db.images + [img], db.nextImageId + 1);
    r := Ok(img);
  }

  /** `ImageIndex`: `findUnique({ where: { id } })` on the image table. */
  function ImageIndex(images: seq<Image>, id: Id): (r: Option<nat>)
    ensures r.Some? ==> r.value < |images| && images[r.value].id == id
    ensures r.None? ==> forall j :: 0 <= j < |images| ==> images[j].id != id
  {
    FirstIndex(images, (img: Image) => img.id == id)
  }

  /** `removeImage(productId, imageId)`: the image is deleted by its id alone, whichever product
      it belongs to, and then the product is read; a missing product fails after the delete. */
  method RemoveImage(db: Database, productId: Id, imageId: Id) returns (r: Result<ProductView>)
    requires db.Valid()
    modifies db`images
    ensures db.Valid()
    ensures ImageIndex(old(db.images), imageId).None? ==> r == Err(NoRecord) && db.images == old(db.images)
    ensures ImageIndex(old(db.images), imageId).Some? ==>
      db.images == RemoveAt(old(db.images), ImageIndex(old(db.images), imageId).value)
      && r == FindOne(db.products, db.images, productId)
  {
    var found := ImageIndex(db.images, imageId);
    if found.None? {
      return Err(NoRecord);
    }
    IdsBelowRemoveAt(db.images, ImageId, db.nextImageId, found.value);
    db.images := RemoveAt(db.images, found.value);
    r := FindOne(db.products, db.images, productId);
  }
}
