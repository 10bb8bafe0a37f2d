/** The query DTO generated for products: page fields with defaults, and an optional date range. */
module ProductDto {
  import opened Wrappers

  /** A `time.Time` value; only its identity matters here. */
  datatype Time = Time(unixNanos: int)

  /** The page number `SetDefaults` leaves: anything not positive becomes 1. */
  function DefaultPage(page: int): int {
    if page <= 0 then 1 else page
  }

  /** The page size `SetDefaults` leaves: not positive becomes 10, above 100 becomes 100. */
  function DefaultPageSize(pageSize: int): int {
    if pageSize <= 0 then 10 else if pageSize > 100 then 100 else pageSize
  }

  /** `GetProductDto`: the bound query parameters of the product list endpoint. */
  class GetProductDto {
    var Page: int
    var PageSize: int
    var CreatedFrom: Option<Time>
    var CreatedTo: Option<Time>

    constructor (page: int, pageSize: int, createdFrom: Option<Time>, createdTo: Option<Time>)
      ensures Page == page && PageSize == pageSize && CreatedFrom == createdFrom && CreatedTo == createdTo
    {
      Page := page;
      PageSize := pageSize;
      CreatedFrom := createdFrom;
      CreatedTo := createdTo;
    }

    /** The bounds the validation tags ask for: `min=1` on the page, `min=1,max=100` on the size. */
    predicate InBounds()
      reads this
    {
      Page >= 1 && 1 <= PageSize <= 100
    }

    /** `SetDefaults`: fill in and clamp the page fields in place; the dates are not touched. */
    method SetDefaults()
      modifies this
      ensures Page == DefaultPage(old(Page)) && PageSize == DefaultPageSize(old(PageSize))
      ensures CreatedFrom == old(CreatedFrom) && CreatedTo == old(CreatedTo)
      ensures InBounds()
      ensures old(InBounds()) ==> Page == old(Page) && PageSize == old(PageSize)
    {
      if Page <= 0 {
        Page := 1;
      }
      if PageSize <= 0 {
        PageSize := 10;
      }
      if PageSize > 100 {
        PageSize := 100;
      }
    }
  }

  /** The defaults land in the validated range, and values already there are kept. */
  lemma DefaultsInBounds(page: int, pageSize: int)
    ensures DefaultPage(page) >= 1 && 1 <= DefaultPageSize(pageSize) <= 100
    ensures page >= 1 ==> DefaultPage(page) == page
    ensures 1 <= pageSize <= 100 ==> DefaultPageSize(pageSize) == pageSize
  {
  }

  /** Applying the defaults twice is applying them once. */
  lemma DefaultsIdempotent(page: int, pageSize: int)
    ensures DefaultPage(DefaultPage(page)) == DefaultPage(page)
    ensures DefaultPageSize(DefaultPageSize(pageSize)) == DefaultPageSize(pageSize)
  {
  }

  /** Two calls in a row leave what one call leaves. */
  method SetDefaultsTwice(dto: GetProductDto)
    modifies dto
    ensures dto.Page == DefaultPage(old(dto.Page)) && dto.PageSize == DefaultPageSize(old(dto.PageSize))
    ensures dto.CreatedFrom == old(dto.CreatedFrom) && dto.CreatedTo == old(dto.CreatedTo)
  {
    dto.SetDefaults();
    dto.SetDefaults();
  }
}
