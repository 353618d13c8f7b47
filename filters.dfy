/** internal/data/filters.go: validation and SQL arithmetic for list endpoints. */
module Filters {
  import opened Wrappers
  import opened Strings
  import Validator
  import Strconv

  /** The query-string options of a list endpoint, with the sort values it accepts. */
  datatype Filters = Filters(page: int, pageSize: int, sort: string, sortSafeList: seq<string>)

  const MaxPage: int := 10_000_000
  const MaxPageSize: int := 100

  /** The message `ValidateFilters` records under "page", if any. */
  function PageProblem(page: int): (r: Option<string>)
    ensures r.None? <==> 1 <= page <= MaxPage
    ensures page <= 0 ==> r == Some("must be greater than zero")
    ensures page > MaxPage ==> r == Some("must be a maximum of 10 million")
  {
    var rules := [Validator.Rule(page > 0, "must be greater than zero"),
                  Validator.Rule(page <= 10_000_000, "must be a maximum of 10 million")];
    assert rules[1..] == [rules[1]] && rules[1..][1..] == [];
    Validator.FirstFailure(rules)
  }

  /** The message `ValidateFilters` records under "page_size", if any. */
  function PageSizeProblem(pageSize: int): (r: Option<string>)
    ensures r.None? <==> 1 <= pageSize <= MaxPageSize
    ensures pageSize <= 0 ==> r == Some("must be greater than zero")
    ensures pageSize > MaxPageSize ==> r == Some("must be a maximum of 100")
  {
    var rules := [Validator.Rule(pageSize > 0, "must be greater than zero"),
                  Validator.Rule(pageSize <= 100, "must be a maximum of 100")];
    assert rules[1..] == [rules[1]] && rules[1..][1..] == [];
    Validator.FirstFailure(rules)
  }

  /** The message `ValidateFilters` records under "sort", if any. */
  function SortProblem(f: Filters): (r: Option<string>)
    ensures r.None? <==> f.sort in f.sortSafeList
    ensures r.Some? ==> r.value == "invalid sort value"
  {
    if f.sort in f.sortSafeList then None else Some("invalid sort value")
  }

  /** Filters that `ValidateFilters` accepts. */
  predicate WithinLimits(f: Filters)
  {
    1 <= f.page <= MaxPage && 1 <= f.pageSize <= MaxPageSize && f.sort in f.sortSafeList
  }

  /** The error map `ValidateFilters` leaves behind, starting from `errors`. */
  function FiltersErrors(errors: Validator.Errors, f: Filters): Validator.Errors
  {
    var e1 := Validator.WithProblem(errors, "page", PageProblem(f.page));
    var e2 := Validator.WithProblem(e1, "page_size", PageSizeProblem(f.pageSize));
    Validator.WithProblem(e2, "sort", SortProblem(f))
  }

  /** A fresh validator stays valid exactly for filters within the limits. */
  lemma ValidateFiltersValid(f: Filters)
    ensures FiltersErrors(map[], f) == map[] <==> WithinLimits(f)
  {
    var e1 := Validator.WithProblem(map[], "page", PageProblem(f.page));
    var e2 := Validator.WithProblem(e1, "page_size", PageSizeProblem(f.pageSize));
    if !WithinLimits(f) {
      if PageProblem(f.page).Some? {
        assert "page" in FiltersErrors(map[], f);
      } else if PageSizeProblem(f.pageSize).Some? {
        assert "page_size" in FiltersErrors(map[], f);
      } else {
        assert "sort" in FiltersErrors(map[], f);
      }
    }
  }

  /** `ValidateFilters(v, f)`: five `Check` calls, first message per key wins. */
  method ValidateFilters(v: Validator.Validator, f: Filters)
    modifies v
    ensures v.errors == FiltersErrors(old(v.errors), f)
  {
    v.Check(f.page > 0, "page", "must be greater than zero");
    v.Check(f.page <= 10_000_000, "page", "must be a maximum of 10 million");
    v.Check(f.pageSize > 0, "page_size", "must be greater than zero");
    v.Check(f.pageSize <= 100, "page_size", "must be a maximum of 100");
    var ok := Validator.In(f.sort, f.sortSafeList);
    v.Check(ok, "sort", "invalid sort value");
  }

  /**
   * `sortColumn()`: searches the safelist for the sort value and returns it
   * without one leading '-'. The source panics when the value is not in the
   * safelist, so that is a precondition here.
   */
  method SortColumn(f: Filters) returns (column: string)
    requires f.sort in f.sortSafeList
    ensures HasPrefix(f.sort, "-") ==> "-" + column == f.sort
    ensures !HasPrefix(f.sort, "-") ==> column == f.sort
  {
    var i := 0;
    while f.sortSafeList[i] != f.sort
      invariant 0 <= i < |f.sortSafeList|
      invariant f.sort in f.sortSafeList[i..]
      decreases |f.sortSafeList| - i
    {
      assert f.sortSafeList[i..] == [f.sortSafeList[i]] + f.sortSafeList[i + 1..];
      i := i + 1;
    }
    column := TrimPrefix(f.sort, "-");
  }

  /** `sortDirection()`. */
  function SortDirection(f: Filters): (direction: string)
    ensures direction == "DESC" <==> HasPrefix(f.sort, "-")
    ensures direction == "ASC" <==> !HasPrefix(f.sort, "-")
  {
    if HasPrefix(f.sort, "-") then "DESC" else "ASC"
  }

  /** The direction and the column together give back the sort value. */
  lemma SortRoundTrip(f: Filters)
    ensures (if SortDirection(f) == "DESC" then "-" else "") + TrimPrefix(f.sort, "-") == f.sort
  {
  }

  /** `limit()`: the number of rows on one page. */
  function Limit(f: Filters): (l: int)
    ensures l == f.pageSize
  {
    f.pageSize
  }

  /** `offset()`: the number of rows before the current page. */
  function Offset(f: Filters): (o: int)
    ensures o == (f.page - 1) * f.pageSize
    ensures o + Limit(f) == f.page * f.pageSize
  {
    (f.page - 1) * f.pageSize
  }

  /**
   * For accepted filters the offset is non-negative and small enough for a
   * 64-bit int, and the page covers rows Offset .. Offset + Limit - 1.
   */
  lemma OffsetBounds(f: Filters)
    requires WithinLimits(f)
    ensures 0 <= Offset(f) <= (MaxPage - 1) * MaxPageSize <= Strconv.Int64Max
    ensures Offset(f) + Limit(f) == f.page * f.pageSize
  {
    var p, s := f.page - 1, f.pageSize;
    MulMonotone(p, MaxPage - 1, s);
    MulMonotone(s, MaxPageSize, MaxPage - 1);
    assert p * s + s == (p + 1) * s;
  }

  lemma MulMonotone(a: int, b: int, c: int)
    requires 0 <= a <= b && 0 <= c
    ensures 0 <= a * c <= b * c
  {
    assert b * c - a * c == (b - a) * c;
  }

  /** Consecutive pages are adjacent: a page starts where the previous one ended. */
  lemma NextPageOffset(f: Filters)
    ensures Offset(f.(page := f.page + 1)) == Offset(f) + Limit(f)
  {
    assert f.page * f.pageSize == (f.page - 1) * f.pageSize + f.pageSize;
  }

  /** Pagination details returned beside a list; the zero value when there are no rows. */
  datatype Metadata = Metadata(currentPage: int, pageSize: int, firstPage: int, lastPage: int, totalRecords: int)

  /**
   * `calculateMetadata(totalRecords, page, pageSize)`. The source divides as
   * floats and rounds up with `math.Ceil`; here that is exact integer ceiling
   * division. A zero page size with records present is excluded: the float
   * quotient is then infinite and its conversion to `int` has no defined value.
   */
  function CalculateMetadata(totalRecords: int, page: int, pageSize: int): (m: Metadata)
    requires totalRecords == 0 || pageSize != 0
    ensures totalRecords == 0 ==> m == Metadata(0, 0, 0, 0, 0)
    ensures totalRecords != 0 ==> m.currentPage == page && m.pageSize == pageSize && m.firstPage == 1
    ensures totalRecords != 0 ==> m.totalRecords == totalRecords
    ensures totalRecords != 0 && pageSize > 0 ==> (m.lastPage - 1) * pageSize < totalRecords <= m.lastPage * pageSize
    ensures totalRecords != 0 && pageSize < 0 ==> m.lastPage * pageSize <= totalRecords < (m.lastPage - 1) * pageSize
  {
    if totalRecords == 0 then Metadata(0, 0, 0, 0, 0)
    else
      var lastPage := CeilDiv(totalRecords, pageSize);
      Metadata(page, pageSize, 1, lastPage, totalRecords)
  }

  /** The ceiling of the real quotient `a / b`, for a divisor of either sign. */
  function CeilDiv(a: int, b: int): (q: int)
    requires b != 0
    ensures b > 0 ==> (q - 1) * b < a <= q * b
    ensures b < 0 ==> q * b <= a < (q - 1) * b
    decreases if b < 0 then 1 else 0
  {
    if b < 0 then
      var q := CeilDiv(-a, -b);
      assert (q - 1) * b == -((q - 1) * -b) && q * b == -(q * -b);
      q
    else
    var q := (a + b - 1) / b;
    var r := (a + b - 1) % b;
    assert a + b - 1 == q * b + r && 0 <= r < b;
    assert (q - 1) * b == q * b - b;
    q
  }
}
