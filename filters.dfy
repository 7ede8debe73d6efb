/** internal/data/filters.go: the paging and sorting parameters of a list query. */
module Filters {
  import opened Wrappers
  import opened Validator

  /** `Filters`: the requested page, page size and sort key, with the sort keys allowed. */
  datatype Filters = Filters(page: int, pageSize: int, sort: string, sortSafeList: seq<string>)

  const MaxPage: int := 10_000_000
  const MaxPageSize: int := 100

  /** The first failing check on `page`. */
  function PageError(page: int): (r: Option<string>)
    ensures r.None? <==> 1 <= page <= MaxPage
  {
    if page <= 0 then Some("must be greater than zero")
    else if page > MaxPage then Some("must be a maximum of 10 million")
    else None
  }

  /** The first failing check on `page_size`. */
  function PageSizeError(pageSize: int): (r: Option<string>)
    ensures r.None? <==> 1 <= pageSize <= MaxPageSize
  {
    if pageSize <= 0 then Some("must be greater than zero")
    else if pageSize > MaxPageSize then Some("must be a maximum of 100")
    else None
  }

  /** The check on `sort`. */
  function SortError(sort: string, safeList: seq<string>): (r: Option<string>)
    ensures r.None? <==> sort in safeList
  {
    if PermittedValue(sort, safeList) then None else Some("invalid sort value")
  }

  /** The errors `ValidateFilters` records on an empty validator: one per failing field. */
  function FiltersErrors(f: Filters): (e: map<string, string>)
    ensures e.Keys <= {"page", "page_size", "sort"}
  {
    Entry("sort", SortError(f.sort, f.sortSafeList))
      + Entry("page_size", PageSizeError(f.pageSize))
      + Entry("page", PageError(f.page))
  }

  /** `ValidateFilters(v, f)`: adds the filters' errors to `v`, keeping any message a field already had. */
  method ValidateFilters(v: Validator, f: Filters)
    modifies v
    ensures v.errors == FiltersErrors(f) + old(v.errors)
  {
    ghost var before := v.errors;
    assert Entry("page", None) + before == before;
    v.Check(f.page > 0, "page", "must be greater than zero");
    CheckedEntry(before, "page", None, f.page > 0, "must be greater than zero");
    ghost var first := FirstFailure(None, f.page > 0, "must be greater than zero");
    v.Check(f.page <= MaxPage, "page", "must be a maximum of 10 million");
    CheckedEntry(before, "page", first, f.page <= MaxPage, "must be a maximum of 10 million");
    ghost var afterPage := v.errors;
    assert afterPage == Entry("page", PageError(f.page)) + before;

    assert Entry("page_size", None) + afterPage == afterPage;
    v.Check(f.pageSize > 0, "page_size", "must be greater than zero");
    CheckedEntry(afterPage, "page_size", None, f.pageSize > 0, "must be greater than zero");
    first := FirstFailure(None, f.pageSize > 0, "must be greater than zero");
    v.Check(f.pageSize <= MaxPageSize, "page_size", "must be a maximum of 100");
    CheckedEntry(afterPage, "page_size", first, f.pageSize <= MaxPageSize, "must be a maximum of 100");
    ghost var afterPageSize := v.errors;
    assert afterPageSize == Entry("page_size", PageSizeError(f.pageSize)) + afterPage;

    assert Entry("sort", None) + afterPageSize == afterPageSize;
    v.Check(PermittedValue(f.sort, f.sortSafeList), "sort", "invalid sort value");
    CheckedEntry(afterPageSize, "sort", None, PermittedValue(f.sort, f.sortSafeList), "invalid sort value");
    ghost var s, ps, p := Entry("sort", SortError(f.sort, f.sortSafeList)), Entry("page_size", PageSizeError(f.pageSize)), Entry("page", PageError(f.page));
    assert v.errors == s + (ps + (p + before));
    UnionAssociative(ps, p, before);
    UnionAssociative(s, ps + p, before);
    UnionAssociative(s, ps, p);
  }

  /** No error is recorded exactly when page, page size and sort key are all acceptable. */
  lemma FiltersValid(f: Filters)
    ensures FiltersErrors(f) == map[] <==>
      1 <= f.page <= MaxPage && 1 <= f.pageSize <= MaxPageSize && f.sort in f.sortSafeList
  {
    var e := FiltersErrors(f);
    if PageError(f.page).Some? { assert "page" in e; }
    if PageSizeError(f.pageSize).Some? { assert "page_size" in e; }
    if SortError(f.sort, f.sortSafeList).Some? { assert "sort" in e; }
  }

  /** The sort keys the movie list accepts. */
  const SortSafeList: seq<string> := ["id", "title", "year", "runtime", "-id", "-title", "-year", "-runtime"]

  /** The rows of the `ValidateFilters` table test, each with the one message it expects. */
  lemma FiltersTable()
    ensures FiltersErrors(Filters(1, 2, "title", SortSafeList)) == map[]
    ensures FiltersErrors(Filters(0, 2, "title", SortSafeList)) == map["page" := "must be greater than zero"]
    ensures FiltersErrors(Filters(10_000_001, 2, "title", SortSafeList)) == map["page" := "must be a maximum of 10 million"]
    ensures FiltersErrors(Filters(1, 0, "title", SortSafeList)) == map["page_size" := "must be greater than zero"]
    ensures FiltersErrors(Filters(1, 101, "title", SortSafeList)) == map["page_size" := "must be a maximum of 100"]
    ensures FiltersErrors(Filters(1, 2, "wrong", SortSafeList)) == map["sort" := "invalid sort value"]
  {
    assert "title" in SortSafeList;
    assert "wrong" !in SortSafeList;
  }
}
