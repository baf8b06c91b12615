/** Page requests and pages: the service's `buildPageRequest` and the
    slicing that a paged repository query performs. */
module Paging {
  import opened Wrappers

  const DefaultPage: int := 0
  const DefaultPageSize: int := 25
  const MaxPageSize: int := 1000

  /** A zero-based page index and a page size. */
  datatype PageRequest = PageRequest(pageNumber: int, pageSize: int)

  /** What `PageRequest.of` accepts: it throws `IllegalArgumentException`
      for a negative index or a size below one. */
  predicate Accepted(req: PageRequest) {
    req.pageNumber >= 0 && req.pageSize >= 1
  }

  function Min(a: int, b: int): int {
    if a <= b then a else b
  }

  /** `buildPageRequest`: a 1-based, optional page number becomes a 0-based
      index (default 0); an absent size becomes 25 and a given one is capped
      at 1000. */
  function BuildPageRequest(pageNumber: Option<int>, pageSize: Option<int>): (r: PageRequest)
    ensures r.pageNumber >= 0
    ensures pageNumber.Some? && pageNumber.value > 0 ==> r.pageNumber == pageNumber.value - 1
    ensures (pageNumber.None? || pageNumber.value <= 0) ==> r.pageNumber == DefaultPage
    ensures r.pageSize <= MaxPageSize
    ensures pageSize.None? ==> r.pageSize == DefaultPageSize
    ensures pageSize.Some? && pageSize.value <= MaxPageSize ==> r.pageSize == pageSize.value
    ensures pageSize.Some? && pageSize.value > MaxPageSize ==> r.pageSize == MaxPageSize
  {
    var queryPageNumber := if pageNumber.Some? && pageNumber.value > 0 then pageNumber.value - 1 else DefaultPage;
    var queryPageSize := if pageSize.None? then DefaultPageSize else Min(pageSize.value, MaxPageSize);
    PageRequest(queryPageNumber, queryPageSize)
  }

  /** One page of a result list, with the total count of the list. */
  datatype Page<T> = Page(content: seq<T>, pageNumber: int, pageSize: int, totalElements: nat)

  /** The page `req` selects from `all`: the elements at positions
      `pageNumber * pageSize` up to, not including, `(pageNumber + 1) * pageSize`
      that exist. */
  function PageOf<T>(all: seq<T>, req: PageRequest): (p: Page<T>)
    requires Accepted(req)
    ensures p.totalElements == |all|
    ensures p.pageNumber == req.pageNumber && p.pageSize == req.pageSize
    ensures |p.content| <= req.pageSize
    ensures forall i :: 0 <= i < |p.content| ==>
              req.pageNumber * req.pageSize + i < |all| && p.content[i] == all[req.pageNumber * req.pageSize + i]
    ensures req.pageNumber * req.pageSize + req.pageSize <= |all| ==> |p.content| == req.pageSize
    ensures req.pageNumber * req.pageSize < |all| ==>
              |p.content| == Min(req.pageSize, |all| - req.pageNumber * req.pageSize)
    ensures req.pageNumber * req.pageSize >= |all| ==> p.content == []
  {
    var offset := req.pageNumber * req.pageSize;
    var start := Min(offset, |all|);
    var end := Min(offset + req.pageSize, |all|);
    Page(all[start..end], req.pageNumber, req.pageSize, |all|)
  }
}
