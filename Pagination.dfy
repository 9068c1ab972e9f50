/** utils/pagination.go: defaulting and clamping of the `page` and `limit` query parameters. */
module Pagination {
  import opened Wrappers

  const DefaultPage := 1
  const DefaultLimit := 10
  const MaxLimit := 100

  const MinInt64 := -0x8000_0000_0000_0000
  const MaxInt64 := 0x7fff_ffff_ffff_ffff

  /** A strconv.Atoi result: None when the text is missing, not a number or outside Go's 64-bit int. */
  predicate AtoiResult(parsed: Option<int>)
  {
    parsed.Some? ==> MinInt64 <= parsed.value <= MaxInt64
  }

  /**
   * GetPaginationParams, given what strconv.Atoi made of the two query
   * values. Returns (page, limit).
   */
  function GetPaginationParams(pageParsed: Option<int>, limitParsed: Option<int>): (r: (int, int))
    ensures r.0 >= 1
    ensures 1 <= r.1 <= MaxLimit
    ensures pageParsed.None? || pageParsed.value < 1 ==> r.0 == DefaultPage
    ensures pageParsed.Some? && pageParsed.value >= 1 ==> r.0 == pageParsed.value
    ensures limitParsed.None? || limitParsed.value < 1 ==> r.1 == DefaultLimit
    ensures limitParsed.Some? && limitParsed.value > MaxLimit ==> r.1 == MaxLimit
    ensures limitParsed.Some? && 1 <= limitParsed.value <= MaxLimit ==> r.1 == limitParsed.value
    ensures AtoiResult(pageParsed) ==> r.0 <= MaxInt64
  {
    var page := if pageParsed.None? || pageParsed.value < 1 then DefaultPage else pageParsed.value;
    var limit := if limitParsed.None? || limitParsed.value < 1 then DefaultLimit else limitParsed.value;
    var limit := if limit > MaxLimit then MaxLimit else limit;
    (page, limit)
  }

  /** The returned page depends only on the page parameter, the returned limit only on the limit parameter. */
  lemma NormalisedIndependently(page: Option<int>, limit: Option<int>, otherPage: Option<int>, otherLimit: Option<int>)
    ensures GetPaginationParams(page, limit).0 == GetPaginationParams(page, otherLimit).0
    ensures GetPaginationParams(page, limit).1 == GetPaginationParams(otherPage, limit).1
  {
  }
}
