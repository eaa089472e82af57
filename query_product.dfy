/** `QueryProductDto`: the sort options of the product listing and the transforms applied to
    the raw `page`, `pageSize` and `activeOnly` query values. */
module QueryProduct {
  import opened Wrappers

  datatype ProductSort = NEW | PRICE_ASC | PRICE_DESC | RATING

  /** The string value of each enum member. */
  function SortValue(s: ProductSort): (v: string)
    ensures v in {"new", "price_asc", "price_desc", "rating"}
  {
    match s
    case NEW => "new"
    case PRICE_ASC => "price_asc"
    case PRICE_DESC => "price_desc"
    case RATING => "rating"
  }

  /** `@IsEnum(ProductSort)`: a `sort` value is accepted only if it is one of the four strings. */
  function ParseSort(v: string): (r: Option<ProductSort>)
    ensures r.Some? <==> v in {"new", "price_asc", "price_desc", "rating"}
    ensures r.Some? ==> SortValue(r.value) == v
  {
    if v == "new" then Some(NEW)
    else if v == "price_asc" then Some(PRICE_ASC)
    else if v == "price_desc" then Some(PRICE_DESC)
    else if v == "rating" then Some(RATING)
    else None
  }

  /** Every enum member is read back from its own string. */
  lemma ParseSortValue(s: ProductSort)
    ensures ParseSort(SortValue(s)) == Some(s)
  {
  }

  /** `Number(value) || 1`; `n` is `Number(value)`, with NaN as `None`. */
  function PageTransform(n: Option<int>): (r: int)
    ensures r == 1 <==> n.None? || n == Some(0) || n == Some(1)
    ensures n.Some? && n.value != 0 ==> r == n.value
  {
    if n.None? || n.value == 0 then 1 else n.value
  }

  /** `Number(value) || 20`. */
  function PageSizeTransform(n: Option<int>): (r: int)
    ensures r == 20 <==> n.None? || n == Some(0) || n == Some(20)
    ensures n.Some? && n.value != 0 ==> r == n.value
  {
    if n.None? || n.value == 0 then 20 else n.value
  }

  /** `value === 'false' ? false : true`; an absent value never reaches the transform. */
  function ActiveOnlyTransform(value: string): (r: bool)
    ensures !r <==> value == "false"
  {
    value != "false"
  }
}
