/** `parsePage`: clamps a raw page number and page size taken from a query string. */
module Pagination {
  import opened Wrappers
  import opened JsNumbers

  datatype PageWindow = PageWindow(page: int, pageSize: int, skip: int, take: int)

  const MaxPageSize := 100

  function Max(a: int, b: int): int { if a < b then b else a }
  function Min(a: int, b: int): int { if a < b then a else b }

  /** `page` and `pageSize` are the raw query values as text (a number arrives as the text
      `String` gives it); `None` is an absent value, which takes the destructuring default. */
  function ParsePage(page: Option<string>, pageSize: Option<string>): (w: PageWindow)
    ensures w.page >= 1
    ensures 1 <= w.pageSize <= MaxPageSize
    ensures w.take == w.pageSize
    ensures w.skip == (w.page - 1) * w.pageSize && w.skip >= 0
  {
    Clamp(OrDefault(ParseInt(page.GetOr("1")), 1), OrDefault(ParseInt(pageSize.GetOr("20")), 20))
  }

  /** The clamping step of `parsePage`, once both values are numbers. */
  function Clamp(page: int, pageSize: int): (w: PageWindow)
    ensures w.page >= 1
    ensures 1 <= w.pageSize <= MaxPageSize
    ensures w.take == w.pageSize
    ensures w.skip == (w.page - 1) * w.pageSize && w.skip >= 0
  {
    var p := Max(page, 1);
    var s := Min(Max(pageSize, 1), MaxPageSize);
    PageWindow(p, s, (p - 1) * s, s)
  }

  /** What `parsePage` makes of numbers: a page below 1 becomes 1; a page size of 0 becomes 20,
      a negative one 1 and one above 100 becomes 100. */
  lemma ParsePageOfNumbers(page: int, pageSize: int)
    ensures ParsePage(Some(DecimalString(page)), Some(DecimalString(pageSize))).page
            == if page < 1 then 1 else page
    ensures ParsePage(Some(DecimalString(page)), Some(DecimalString(pageSize))).pageSize
            == if pageSize == 0 then 20
               else if pageSize < 1 then 1
               else if pageSize > MaxPageSize then MaxPageSize
               else pageSize
  {
    ParseIntOfDecimal(page);
    ParseIntOfDecimal(pageSize);
  }

  /** Absent, unparseable or zero values fall back to page 1 and page size 20. */
  lemma ParsePageFallbacks(page: Option<string>, pageSize: Option<string>)
    requires page.None? || ParseInt(page.value) in {None, Some(0)}
    requires pageSize.None? || ParseInt(pageSize.value) in {None, Some(0)}
    ensures ParsePage(page, pageSize) == PageWindow(1, 20, 0, 20)
  {
    ParseIntOfDecimal(1);
    ParseIntOfDecimal(20);
    assert DecimalString(1) == "1";
    assert DecimalString(20) == "20";
  }
}
