/** create_paginated_response, and walking a listing page by page. */
module Paging {
  import opened Arithmetic

  datatype Page<T> = Page(
    items: seq<T>, total: nat, page: nat, size: int, pages: nat, hasNext: bool, hasPrevious: bool)

  function CreatePaginatedResponse<T>(items: seq<T>, total: nat, skip: nat, limit: int): Page<T> {
    var safeLimit := Max(1, limit);
    Page(items, total, skip / safeLimit + 1, limit,
         if total > 0 then CeilDiv(total, safeLimit) else 0,
         skip + safeLimit < total, skip > 0)
  }

  /** One request: OFFSET skip LIMIT limit over a fixed, ordered result. */
  function PageOf<T>(rows: seq<T>, skip: nat, limit: nat): Page<T> {
    var from := Min(skip, |rows|);
    CreatePaginatedResponse(rows[from..Min(from + limit, |rows|)], |rows|, skip, limit)
  }

  /** A client that follows has_next. */
  function Walk<T>(rows: seq<T>, skip: nat, limit: nat): seq<Page<T>>
    requires limit >= 1
    decreases |rows| - skip
  {
    var p := PageOf(rows, skip, limit);
    if p.hasNext then [p] + Walk(rows, skip + limit, limit) else [p]
  }

  function Items<T>(pages: seq<Page<T>>): seq<T> {
    if pages == [] then [] else pages[0].items + Items(pages[1..])
  }

  lemma {:induction false} WalkFrom<T>(rows: seq<T>, skip: nat, limit: nat)
    requires limit >= 1 && skip <= |rows|
    ensures Items(Walk(rows, skip, limit)) == rows[skip..]
    decreases |rows| - skip
  {
    var p := PageOf(rows, skip, limit);
    if p.hasNext {
      WalkFrom(rows, skip + limit, limit);
      assert rows[skip..] == rows[skip..skip + limit] + rows[skip + limit..];
    } else {
      assert [p][1..] == [];
    }
  }

  /** The k-th page of the walk is numbered k + 1 and says whether a further page exists. */
  lemma AlignedPage(total: nat, k: nat, limit: nat)
    requires limit >= 1
    ensures var p := CreatePaginatedResponse<int>([], total, k * limit, limit);
            p.page == k + 1 && (p.hasNext <==> p.page < p.pages)
  {
    DivideExactly(k, limit, 0);
    CeilBetween(total, limit, k + 1);
  }

  /** has_next agrees with page < pages for every total exactly when skip is a multiple of limit. */
  lemma HasNextIffAligned(skip: nat, limit: nat)
    requires limit >= 1
    ensures skip % limit == 0 <==>
            forall total: nat :: var p := CreatePaginatedResponse<int>([], total, skip, limit);
                                 p.hasNext <==> p.page < p.pages
  {
    var k := skip / limit;
    assert skip == k * limit + skip % limit;
    if skip % limit == 0 {
      forall total: nat
        ensures var p := CreatePaginatedResponse<int>([], total, skip, limit);
                p.hasNext <==> p.page < p.pages
      {
        AlignedPage(total, k, limit);
      }
    } else {
      var p := CreatePaginatedResponse<int>([], skip + limit, skip, limit);
      CeilBetween(skip + limit, limit, k + 1);
      assert (k + 1) * limit == k * limit + limit;
      assert !p.hasNext && p.page < p.pages;
    }
  }

  lemma {:induction false} WalkLength<T>(rows: seq<T>, k: nat, limit: nat)
    requires limit >= 1 && k * limit < |rows|
    ensures |Walk(rows, k * limit, limit)| == CeilDiv(|rows|, limit) - k
    ensures forall i :: 0 <= i < |Walk(rows, k * limit, limit)| ==> Walk(rows, k * limit, limit)[i].page == k + i + 1
    decreases |rows| - k * limit
  {
    var pages := Walk(rows, k * limit, limit);
    assert (k + 1) * limit == k * limit + limit;
    CeilBetween(|rows|, limit, k);
    CeilBetween(|rows|, limit, k + 1);
    DivideExactly(k, limit, 0);
    if (k + 1) * limit < |rows| {
      WalkLength(rows, k + 1, limit);
      assert pages == [pages[0]] + Walk(rows, (k + 1) * limit, limit);
    }
  }

  /** What a page of a walk shows: the totals, and whether it is the first or the last. */
  predicate Shows<T>(p: Page<T>, rows: seq<T>, limit: nat, first: bool, last: bool) {
    && p.total == |rows| && p.size == limit
    && (p.hasPrevious <==> !first) && (p.hasNext <==> !last)
    && (if last then |p.items| <= limit else |p.items| == limit)
  }

  predicate AllShow<T>(walk: seq<Page<T>>, rows: seq<T>, limit: nat, first: bool) {
    forall i :: 0 <= i < |walk| ==> Shows(walk[i], rows, limit, first && i == 0, i == |walk| - 1)
  }

  lemma ShowsCons<T>(p: Page<T>, walk: seq<Page<T>>, rows: seq<T>, limit: nat, first: bool)
    requires walk != [] && Shows(p, rows, limit, first, false) && AllShow(walk, rows, limit, false)
    ensures AllShow([p] + walk, rows, limit, first)
  {
  }

  lemma {:induction false} WalkShows<T>(rows: seq<T>, skip: nat, limit: nat)
    requires limit >= 1
    ensures AllShow(Walk(rows, skip, limit), rows, limit, skip == 0)
    decreases |rows| - skip
  {
    var p := PageOf(rows, skip, limit);
    if !p.hasNext {
    } else {
      WalkShows(rows, skip + limit, limit);
      ShowsCons(p, Walk(rows, skip + limit, limit), rows, limit, skip == 0);
    }
  }

  /**
   Following has_next from the start yields every row exactly once and in order, over exactly
   `pages` pages, numbered from 1; an empty result takes one request.  Every page but the last is full; the
   first alone has no previous page, and the last no next one.
   */
  lemma WalkCoversEverything<T>(rows: seq<T>, limit: nat)
    requires limit >= 1
    ensures var walk := Walk(rows, 0, limit);
            && Items(walk) == rows
            && |walk| == Max(1, walk[0].pages)
            && (rows != [] ==> forall i :: 0 <= i < |walk| ==> walk[i].page == i + 1)
            && AllShow(walk, rows, limit, true)
  {
    WalkShows(rows, 0, limit);
    hide AllShow;
    WalkFrom(rows, 0, limit);
    if rows != [] { WalkLength(rows, 0, limit); }
  }
}
