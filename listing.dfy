/** The query plan `ListPosts` and `ListComments` compute before they query
    the store: the page and page size from the query string, the sort field
    checked against a whitelist, and the row offset in Go's 64-bit `int`. */
module Listing {
  import opened Wrappers
  import Strconv

  const SortFields: set<string> := {"created_at", "content", "likes_count"}

  const TwoTo64: int := 0x1_0000_0000_0000_0000

  /** Go's `int` arithmetic on a 64-bit platform: the mathematical result
      reduced modulo 2^64 into the signed range. */
  function WrapInt64(x: int): (r: int)
    ensures Strconv.MinInt64 <= r <= Strconv.MaxInt64
    ensures (r - x) % TwoTo64 == 0
    ensures Strconv.MinInt64 <= x <= Strconv.MaxInt64 ==> r == x
  {
    (x - Strconv.MinInt64) % TwoTo64 + Strconv.MinInt64
  }

  /** `c.Query(key, default)`: an absent or empty value gives the default. */
  function QueryOr(value: string, default: string): string
  {
    if value == "" then default else value
  }

  /** Multiplying keeps a congruence modulo 2^64. */
  lemma MulCongruent(a: int, b: int, c: int)
    requires (a - b) % TwoTo64 == 0
    ensures (a * c - b * c) % TwoTo64 == 0
  {
    var q := (a - b) / TwoTo64;
    assert a - b == q * TwoTo64;
    assert a * c - b * c == (q * c) * TwoTo64;
  }

  /** Congruences modulo 2^64 chain. */
  lemma AddCongruent(x: int, y: int)
    requires x % TwoTo64 == 0 && y % TwoTo64 == 0
    ensures (x + y) % TwoTo64 == 0
  {
    var p, q := x / TwoTo64, y / TwoTo64;
    assert x == p * TwoTo64 && y == q * TwoTo64;
    assert x + y == (p + q) * TwoTo64;
  }

  /** `offset := (page - 1) * pageSize`, evaluated in Go's `int`: an int64
      congruent to the mathematical product modulo 2^64. */
  function Offset(page: int, pageSize: int): (r: int)
    ensures Strconv.MinInt64 <= r <= Strconv.MaxInt64
    ensures (r - (page - 1) * pageSize) % TwoTo64 == 0
  {
    var w := WrapInt64(page - 1);
    MulCongruent(w, page - 1, pageSize);
    AddCongruent(WrapInt64(w * pageSize) - w * pageSize, w * pageSize - (page - 1) * pageSize);
    WrapInt64(w * pageSize)
  }

  /** What the handler hands to `Offset(...).Limit(...).Order(...)`. */
  datatype ListPlan = ListPlan(offset: int, limit: int, order: string)

  /** The handler's computation from the four query values up to the store
      query; None is the 400 "Invalid sort field". Atoi errors are ignored,
      so the page and page size are whatever value Atoi returns with them. */
  function PlanList(pageParam: string, pageSizeParam: string,
                    sortFieldParam: string, sortOrderParam: string): (r: Option<ListPlan>)
    ensures r.Some? ==> Strconv.MinInt64 <= r.value.offset <= Strconv.MaxInt64
    ensures r.Some? ==> Strconv.MinInt64 <= r.value.limit <= Strconv.MaxInt64
  {
    var page := Strconv.Atoi(QueryOr(pageParam, "1")).value;
    var pageSize := Strconv.Atoi(QueryOr(pageSizeParam, "10")).value;
    var sortField := QueryOr(sortFieldParam, "created_at");
    var sortOrder := QueryOr(sortOrderParam, "desc");
    if sortField !in SortFields then None
    else Some(ListPlan(Offset(page, pageSize), pageSize, sortField + " " + sortOrder))
  }

  /** A sort field outside {created_at, content, likes_count} is refused,
      every one inside is accepted; the sort order is not checked at all and
      reaches the ORDER BY clause verbatim. */
  lemma PlanListWhitelist(pageParam: string, pageSizeParam: string,
                          sortFieldParam: string, sortOrderParam: string)
    ensures PlanList(pageParam, pageSizeParam, sortFieldParam, sortOrderParam).Some? <==>
            QueryOr(sortFieldParam, "created_at") in SortFields
    ensures sortOrderParam != "" && sortFieldParam in SortFields ==>
            PlanList(pageParam, pageSizeParam, sortFieldParam, sortOrderParam).value.order ==
            sortFieldParam + " " + sortOrderParam
  {
  }

  /** Within the int64 range the offset is the mathematical
      (page - 1) * pageSize, which is non-negative for pages from 1 on. */
  lemma OffsetInRange(page: int, pageSize: int)
    requires 1 <= page <= Strconv.MaxInt64 && 0 <= pageSize
    requires (page - 1) * pageSize <= Strconv.MaxInt64
    ensures Offset(page, pageSize) == (page - 1) * pageSize >= 0
  {
    assert 0 <= (page - 1) * pageSize;
  }

  /** A page given in decimal is the page used: the offset is
      (page - 1) * pageSize and the limit the page size. */
  lemma PlanListOfDecimals(page: int, pageSize: int, sortField: string, sortOrder: string)
    requires 1 <= page <= Strconv.MaxInt64 && 0 <= pageSize <= Strconv.MaxInt64
    requires (page - 1) * pageSize <= Strconv.MaxInt64
    requires sortField in SortFields
    ensures PlanList(Strconv.FormatInt(page), Strconv.FormatInt(pageSize), sortField, sortOrder) ==
            Some(ListPlan((page - 1) * pageSize, pageSize, sortField + " " + QueryOr(sortOrder, "desc")))
  {
    Strconv.AtoiOfFormatInt(page);
    Strconv.AtoiOfFormatInt(pageSize);
    OffsetInRange(page, pageSize);
  }

  /** With no query parameters the plan is the first ten rows, newest first. */
  lemma PlanListDefaults()
    ensures PlanList("", "", "", "") == Some(ListPlan(0, 10, "created_at desc"))
  {
    assert Strconv.FormatInt(1) == "1";
    assert Strconv.FormatInt(10) == "10" by {
      assert Strconv.Format(10) == Strconv.Format(1) + [Strconv.DigitChar(0)];
    }
    Strconv.AtoiOfFormatInt(1);
    Strconv.AtoiOfFormatInt(10);
    OffsetInRange(1, 10);
    assert "created_at" + " " + "desc" == "created_at desc";
  }

  /** A page that is not a number is taken as page 0 (Atoi's error value),
      so the offset goes negative: -pageSize. */
  lemma NonNumericPage(pageParam: string, pageSize: int)
    requires pageParam != "" && Strconv.Atoi(pageParam).err == Some(Strconv.SyntaxError)
    requires 0 <= pageSize <= Strconv.MaxInt64
    ensures Offset(Strconv.Atoi(pageParam).value, pageSize) == -pageSize
  {
  }
}
