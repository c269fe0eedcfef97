/** Offset/limit paging shared by every listing tool. */
module Pagination {
  import opened Common

  /** The paging fields of a request, after validation. */
  datatype PageRequest = PageRequest(limit: Option<int>, offset: int)

  /** One failed field check; all failing fields are reported together. */
  datatype PageFieldError = LimitBelowOne(limit: int) | NegativeOffset(offset: int)

  /** Omitted fields mean "no limit" and "from the start". */
  const DefaultPageRequest := PageRequest(None, 0)

  /** Field validation of a paginated request: a given limit must be at
      least 1 and the offset must not be negative. */
  function ValidatePageRequest(limit: Option<int>, offset: int): (r: Result<PageRequest, seq<PageFieldError>>)
    ensures r.Ok? <==> (limit.None? || limit.value >= 1) && offset >= 0
    ensures r.Ok? ==> r.value == PageRequest(limit, offset)
    ensures r.Err? && limit.Some? && limit.value < 1 ==> LimitBelowOne(limit.value) in r.error
    ensures r.Err? && offset < 0 ==> NegativeOffset(offset) in r.error
    ensures r.Err? ==> forall e :: e in r.error ==>
      (e.LimitBelowOne? ==> limit == Some(e.limit) && e.limit < 1) && (e.NegativeOffset? ==> e.offset == offset < 0)
    ensures r.Err? ==> |r.error| <= 2
  {
    var badLimit := limit.Some? && limit.value < 1;
    if badLimit && offset < 0 then Err([LimitBelowOne(limit.value), NegativeOffset(offset)])
    else if badLimit then Err([LimitBelowOne(limit.value)])
    else if offset < 0 then Err([NegativeOffset(offset)])
    else Ok(PageRequest(limit, offset))
  }

  /** A page of results, the size of the whole list, and whether anything follows the page. */
  datatype Page<T> = Page(items: seq<T>, totalCount: nat, hasMore: bool)

  /** Skip `offset` items (only when it is non-zero), keep at most `limit`,
      and report whether items remain after the page. */
  function ApplyPagination<T>(items: seq<T>, offset: int, limit: Option<int>): (p: Page<T>)
    ensures p.totalCount == |items|
    ensures |p.items| <= |items|
    ensures forall x :: x in p.items ==> x in items
    ensures offset >= 0 && limit.None? ==> p.items == items[Min(offset, |items|)..]
    ensures offset >= 0 && limit.Some? && limit.value >= 0 ==>
      |p.items| <= limit.value
      && p.items == items[Min(offset, |items|)..Min(offset + limit.value, |items|)]
    ensures offset >= 0 && (limit.None? || limit.value >= 0) ==>
      (p.hasMore <==> limit.Some? && offset + limit.value < |items|)
  {
    var skipped := if offset != 0 then PySliceFrom(items, offset) else items;
    var kept := if limit.Some? then PySliceTo(skipped, limit.value) else skipped;
    assert forall x :: x in kept ==> x in skipped;
    assert offset >= 0 ==> skipped == items[Min(offset, |items|)..];
    assert offset >= 0 && limit.Some? && limit.value >= 0 ==>
      kept == items[Min(offset, |items|)..Min(offset + limit.value, |items|)];
    Page(kept, |items|, offset + |kept| < |items|)
  }

  /** Every page is a contiguous slice of the items, starting at `a`. */
  lemma PageSlice<T>(items: seq<T>, offset: int, limit: Option<int>) returns (a: nat)
    ensures var p := ApplyPagination(items, offset, limit).items;
      a + |p| <= |items| && p == items[a..a + |p|]
  {
    var skipped := if offset != 0 then PySliceFrom(items, offset) else items;
    var kept := if limit.Some? then PySliceTo(skipped, limit.value) else skipped;
    a := |items| - |skipped|;
    assert skipped == items[a..];
    assert kept == skipped[..|kept|];
  }

  /** A page followed by everything after it is everything from the page's offset. */
  lemma PagesTile<T>(items: seq<T>, offset: nat, limit: nat)
    ensures ApplyPagination(items, offset, Some(limit)).items
      + ApplyPagination(items, offset + limit, None).items
      == ApplyPagination(items, offset, None).items
  {
    var a := Min(offset, |items|);
    var b := Min(offset + limit, |items|);
    assert ApplyPagination(items, offset, Some(limit)).items == items[a..b];
    assert ApplyPagination(items, offset + limit, None).items == items[b..];
    assert ApplyPagination(items, offset, None).items == items[a..];
    assert items[a..] == items[a..b] + items[b..];
  }

  /** Walking the pages of size `limit` from offset 0 visits the whole list once, in order. */
  function AllPages<T>(items: seq<T>, limit: nat, offset: nat): (r: seq<T>)
    requires limit >= 1
    decreases |items| - offset
  {
    var p := ApplyPagination(items, offset, Some(limit));
    if p.hasMore then p.items + AllPages(items, limit, offset + limit) else p.items
  }

  lemma {:induction false} AllPagesIsSuffix<T>(items: seq<T>, limit: nat, offset: nat)
    requires limit >= 1
    ensures AllPages(items, limit, offset) == ApplyPagination(items, offset, None).items
    decreases |items| - offset
  {
    var p := ApplyPagination(items, offset, Some(limit));
    var rest := ApplyPagination(items, offset + limit, None).items;
    PagesTile(items, offset, limit);
    if p.hasMore {
      AllPagesIsSuffix(items, limit, offset + limit);
      assert AllPages(items, limit, offset) == p.items + rest;
    } else {
      assert offset + limit >= |items|;
      assert rest == [];
      assert AllPages(items, limit, offset) == p.items;
    }
  }

  /** Following `has_more` from the first page reproduces the whole list. */
  lemma PagingCoversAll<T>(items: seq<T>, limit: nat)
    requires limit >= 1
    ensures AllPages(items, limit, 0) == items
  {
    AllPagesIsSuffix(items, limit, 0);
  }
}
