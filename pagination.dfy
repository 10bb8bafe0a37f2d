/** Pagination arithmetic of the generated sample projects: query parsing and clamping in the
    demo project, page metadata and offsets in the DeadSara project. Go's `int` is 64 bits wide;
    where a result can leave that range the wrap-around is written out. */
module Pagination {
  import opened Text

  const MaxInt64: int := 0x7fff_ffff_ffff_ffff
  const MinInt64: int := -0x8000_0000_0000_0000
  const TwoTo64: int := 0x1_0000_0000_0000_0000

  /** Two's-complement wrap-around of a mathematical integer to 64 bits. */
  function Wrap64(x: int): (r: int)
    ensures MinInt64 <= r <= MaxInt64
    ensures (r - x) % TwoTo64 == 0
    ensures MinInt64 <= x <= MaxInt64 ==> r == x
  {
    (x - MinInt64) % TwoTo64 + MinInt64
  }

  // ---------------------------------------------------------------- strconv.Atoi

  function DigitValue(c: char): nat
    requires IsDigit(c)
  {
    c as int - '0' as int
  }

  predicate AllDigits(s: string) {
    forall i :: 0 <= i < |s| ==> IsDigit(s[i])
  }

  /** The value of a run of decimal digits, most significant first. */
  function DigitsValue(s: string): nat
    requires AllDigits(s)
  {
    if |s| == 0 then 0 else DigitsValue(s[..|s| - 1]) * 10 + DigitValue(s[|s| - 1])
  }

  /** `strconv.Atoi` with its error dropped, as `GetPaginationParams` drops it: an optional sign
      and at least one decimal digit give the value, saturated to 64 bits as `ParseInt` does on
      a range error; any other text gives 0. */
  function Atoi(s: string): (n: int)
    ensures MinInt64 <= n <= MaxInt64
  {
    var signed := |s| > 0 && (s[0] == '+' || s[0] == '-');
    var digits := if signed then s[1..] else s;
    if |digits| == 0 || !AllDigits(digits) then 0
    else
      var v: int := DigitsValue(digits);
      if signed && s[0] == '-' then (if -v < MinInt64 then MinInt64 else -v)
      else (if v > MaxInt64 then MaxInt64 else v)
  }

  /** Decimal formatting of a natural number, as `strconv.Itoa` writes it. */
  function Decimal(n: nat): (s: string)
    ensures |s| > 0 && AllDigits(s)
  {
    var d := ['0' + (n % 10) as char];
    if n < 10 then d else Decimal(n / 10) + d
  }

  lemma {:induction false} DecimalValue(n: nat)
    ensures DigitsValue(Decimal(n)) == n
    decreases n
  {
    var s := Decimal(n);
    assert s[|s| - 1] == '0' + (n % 10) as char;
    if n >= 10 {
      DecimalValue(n / 10);
      assert s[..|s| - 1] == Decimal(n / 10);
    }
  }

  /** Parsing what formatting wrote gives the number back, for every number an `int` holds. */
  lemma AtoiDecimal(n: nat)
    requires n <= MaxInt64
    ensures Atoi(Decimal(n)) == n
  {
    DecimalValue(n);
  }

  /** Text without any digit, such as `abc` or the empty text, parses to 0. */
  lemma AtoiNoDigits(s: string)
    requires forall i :: 0 <= i < |s| ==> !IsDigit(s[i])
    ensures Atoi(s) == 0
  {
    if |s| > 1 {
      assert !IsDigit(s[1..][0]);
    } else if |s| == 1 {
      assert !IsDigit(s[0]);
    }
  }

  // ---------------------------------------------------------------- GetPaginationParams

  /** The query string of a request: each parameter's value. */
  type Query = map<string, string>

  /** Fiber's `c.Query(key, def)`: the parameter's value, or `def` when it is absent or empty. */
  function QueryOr(query: Query, key: string, def: string): (v: string)
    ensures v == def || (key in query && v == query[key] && v != "")
    ensures key in query && query[key] != "" ==> v == query[key]
  {
    if key in query && query[key] != "" then query[key] else def
  }

  datatype PaginationParams = PaginationParams(page: int, pageSize: int, offset: int)

  /** The page number for a parsed `page`: below 1 becomes 1. */
  function PageFor(page: int): int {
    if page < 1 then 1 else page
  }

  /** The page size for a parsed `page_size`: below 1 becomes 10, above 100 becomes 100. */
  function PageSizeFor(pageSize: int): int {
    if pageSize < 1 then 10 else if pageSize > 100 then 100 else pageSize
  }

  /** `GetPaginationParams` as written: the offset is computed in 64-bit `int` arithmetic. */
  function WrittenParams(query: Query): (r: PaginationParams)
    ensures MinInt64 <= r.offset <= MaxInt64
  {
    var page := PageFor(Atoi(QueryOr(query, "page", "1")));
    var pageSize := PageSizeFor(Atoi(QueryOr(query, "page_size", "10")));
    PaginationParams(page, pageSize, Wrap64((page - 1) * pageSize))
  }

  /** `GetPaginationParams` with the offset the code evidently intends: `(page - 1) * pageSize`
      without wrap-around. */
  function ParamsFor(query: Query): (r: PaginationParams)
  {
    var page := PageFor(Atoi(QueryOr(query, "page", "1")));
    var pageSize := PageSizeFor(Atoi(QueryOr(query, "page_size", "10")));
    PaginationParams(page, pageSize, (page - 1) * pageSize)
  }

  /** The handler's steps: parse both parameters, clamp each, compute the offset in `int`. */
  method GetPaginationParams(query: Query) returns (r: PaginationParams)
    ensures r == WrittenParams(query)
  {
    var page := Atoi(QueryOr(query, "page", "1"));
    var pageSize := Atoi(QueryOr(query, "page_size", "10"));
    if page < 1 {
      page := 1;
    }
    if pageSize < 1 {
      pageSize := 10;
    }
    if pageSize > 100 {
      pageSize := 100;
    }
    var offset := Wrap64((page - 1) * pageSize);
    return PaginationParams(page, pageSize, offset);
  }

  /** The page is at least 1 and the size between 1 and 100; the offset is non-negative and
      skips exactly the earlier pages, a whole number of pages. */
  lemma ParamsBounds(query: Query)
    ensures var r := ParamsFor(query);
      r.page >= 1 && 1 <= r.pageSize <= 100 && r.offset >= 0
      && r.offset == (r.page - 1) * r.pageSize
  {
    var r := ParamsFor(query);
    ProductNonNegative(r.page - 1, r.pageSize);
  }

  lemma {:induction false} ProductNonNegative(k: nat, size: int)
    requires size > 0
    ensures k * size >= 0
    decreases k
  {
    if k > 0 {
      ProductNonNegative(k - 1, size);
      assert k * size == (k - 1) * size + size;
    }
  }

  /** Values already in range pass through: page `p >= 1` and size `s` in [1, 100]. */
  lemma ParamsInRange(p: nat, s: nat)
    requires 1 <= p <= MaxInt64 && 1 <= s <= 100
    ensures ParamsFor(map["page" := Decimal(p), "page_size" := Decimal(s)]) == PaginationParams(p, s, (p - 1) * s)
  {
    var query := map["page" := Decimal(p), "page_size" := Decimal(s)];
    assert Atoi(QueryOr(query, "page", "1")) == p by {
      assert "page" != "page_size";
      assert QueryOr(query, "page", "1") == Decimal(p);
      AtoiDecimal(p);
    }
    assert Atoi(QueryOr(query, "page_size", "10")) == s by {
      assert QueryOr(query, "page_size", "10") == Decimal(s);
      AtoiDecimal(s);
    }
  }

  /** Without parameters the first page of ten is returned. */
  lemma ParamsDefaults()
    ensures ParamsFor(map[]) == PaginationParams(1, 10, 0)
  {
    AtoiDecimal(1);
    AtoiDecimal(10);
    assert Decimal(1) == "1";
    assert Decimal(10) == "10";
  }

  /** Parameters that are no numbers parse to 0 and are clamped to page 1 and size 10. */
  lemma ParamsNonNumeric(query: Query)
    requires forall k :: k in query ==> forall i :: 0 <= i < |query[k]| ==> !IsDigit(query[k][i])
    ensures ParamsFor(query) == PaginationParams(1, 10, 0)
  {
    var page := QueryOr(query, "page", "1");
    var size := QueryOr(query, "page_size", "10");
    if page != "1" {
      AtoiNoDigits(page);
    } else {
      AtoiDecimal(1);
      assert Decimal(1) == "1";
    }
    if size != "10" {
      AtoiNoDigits(size);
    } else {
      AtoiDecimal(10);
      assert Decimal(10) == "10";
    }
  }

  /** The written offset is the intended one whenever that fits in an `int`. */
  lemma WrittenParamsAgree(query: Query)
    requires ParamsFor(query).offset <= MaxInt64
    ensures WrittenParams(query) == ParamsFor(query)
  {
    ParamsBounds(query);
  }

  /** A page of 2^62 + 1 with pages of 2 has the intended offset 2^63, one more than an `int`
      holds: the written offset wraps to -2^63. */
  lemma WrittenOffsetWraps()
    ensures var query := map["page" := Decimal(0x4000_0000_0000_0001), "page_size" := Decimal(2)];
      WrittenParams(query).offset == MinInt64 && ParamsFor(query).offset == -MinInt64
  {
    AtoiDecimal(0x4000_0000_0000_0001);
    AtoiDecimal(2);
    OffsetWrapsFor(Decimal(0x4000_0000_0000_0001), Decimal(2));
  }

  /** Any texts that parse to a page of 2^62 + 1 and a size of 2 give that wrapped offset. */
  lemma OffsetWrapsFor(pageText: string, sizeText: string)
    requires Atoi(pageText) == 0x4000_0000_0000_0001 && Atoi(sizeText) == 2
    ensures var query := map["page" := pageText, "page_size" := sizeText];
      WrittenParams(query).offset == MinInt64 && ParamsFor(query).offset == -MinInt64
  {
    var query := map["page" := pageText, "page_size" := sizeText];
    assert "page" != "page_size";
    assert pageText != "" && sizeText != "";
    ParamsOfParsed(query, 0x4000_0000_0000_0001, 2);
    WrapOfTwoTo63();
  }

  /** Both parameter sets once the two query values are parsed. */
  lemma ParamsOfParsed(query: Query, page: int, pageSize: int)
    requires Atoi(QueryOr(query, "page", "1")) == page && Atoi(QueryOr(query, "page_size", "10")) == pageSize
    ensures ParamsFor(query) == PaginationParams(PageFor(page), PageSizeFor(pageSize), (PageFor(page) - 1) * PageSizeFor(pageSize))
    ensures WrittenParams(query).offset == Wrap64(ParamsFor(query).offset)
  {
  }

  /** 2^63, one past the largest `int`, wraps to the smallest. */
  lemma WrapOfTwoTo63()
    ensures Wrap64(-MinInt64) == MinInt64
  {
    assert -MinInt64 - MinInt64 == TwoTo64;
    assert TwoTo64 % TwoTo64 == 0;
  }

  // ---------------------------------------------------------------- CalculatePagination

  /** `math.Ceil(float64(total) / float64(pageSize))` on exact numbers. */
  function CeilDiv(total: int, pageSize: int): int
    requires pageSize > 0
  {
    -((-total) / pageSize)
  }

  /** For a positive size, the quotient rounded up is the least page count covering the items. */
  lemma CeilDivLeast(total: int, pageSize: int)
    requires pageSize > 0
    ensures var n := CeilDiv(total, pageSize); n * pageSize >= total && (n - 1) * pageSize < total
    ensures total >= 0 ==> CeilDiv(total, pageSize) >= 0
  {
    var q := (-total) / pageSize;
    var r := (-total) % pageSize;
    assert -total == q * pageSize + r && 0 <= r < pageSize;
    assert -q * pageSize == total + r;
    assert (-q - 1) * pageSize == total + r - pageSize;
  }

  /** The DeadSara project's page metadata. */
  datatype PaginationMeta = PaginationMeta(currentPage: int, pageSize: int, totalPages: int,
                                           totalItems: int, hasNext: bool, hasPrev: bool)

  /** `CalculatePagination` (DeadSara): the metadata echoes its inputs, counts the least number
      of pages that hold all the items, and says there is a next page exactly before the last
      and a previous one exactly after the first. */
  function CalculatePagination(page: int, pageSize: int, totalItems: int): (m: PaginationMeta)
    requires pageSize > 0
    ensures m.currentPage == page && m.pageSize == pageSize && m.totalItems == totalItems
    ensures m.totalPages * pageSize >= totalItems && (m.totalPages - 1) * pageSize < totalItems
    ensures totalItems >= 0 ==> m.totalPages >= 0
    ensures (m.hasNext <==> page < m.totalPages) && (m.hasPrev <==> page > 1)
  {
    CeilDivLeast(totalItems, pageSize);
    var totalPages := CeilDiv(totalItems, pageSize);
    PaginationMeta(page, pageSize, totalPages, totalItems, page < totalPages, page > 1)
  }

  /** A page is followed by another exactly when the items do not end on or before it. */
  lemma HasNextMeansMoreItems(page: int, pageSize: int, totalItems: int)
    requires pageSize > 0
    ensures CalculatePagination(page, pageSize, totalItems).hasNext <==> page * pageSize < totalItems
  {
    var n := CeilDiv(totalItems, pageSize);
    CeilDivLeast(totalItems, pageSize);
    if page < n {
      assert page * pageSize <= (n - 1) * pageSize;
    } else {
      assert page * pageSize >= n * pageSize;
    }
  }

  /** `GetOffset` (DeadSara): the items on earlier pages. Together with this page's items they
      reach the page's end, and from the first page on the offset is not negative. */
  function GetOffset(page: int, pageSize: int): (r: int)
    ensures r + pageSize == page * pageSize
    ensures page >= 1 && pageSize >= 0 ==> r >= 0
  {
    (page - 1) * pageSize
  }

  /** Offsets of consecutive pages lie one page apart, the first page starting at 0. */
  lemma GetOffsetSteps(page: int, pageSize: int)
    ensures GetOffset(1, pageSize) == 0
    ensures GetOffset(page + 1, pageSize) == GetOffset(page, pageSize) + pageSize
  {
  }

  /** The demo project's `CalculatePagination`: the same page count without the flags. */
  datatype DemoPagination = DemoPagination(page: int, pageSize: int, total: int, totalPage: int)

  function DemoCalculatePagination(page: int, pageSize: int, total: int): (d: DemoPagination)
    requires pageSize > 0
    ensures d.page == page && d.pageSize == pageSize && d.total == total
    ensures d.totalPage * pageSize >= total && (d.totalPage - 1) * pageSize < total
    ensures total >= 0 ==> d.totalPage >= 0
  {
    CeilDivLeast(total, pageSize);
    DemoPagination(page, pageSize, total, CeilDiv(total, pageSize))
  }

  /** Both projects count the same pages. */
  lemma PageCountsAgree(page: int, pageSize: int, total: int)
    requires pageSize > 0
    ensures var d := DemoCalculatePagination(page, pageSize, total); var m := CalculatePagination(page, pageSize, total);
      d.totalPage == m.totalPages && d.page == m.currentPage && d.total == m.totalItems
  {
  }
}
