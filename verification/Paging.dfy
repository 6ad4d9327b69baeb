// Page arithmetic: the pages of a list partition it, and the page window.
module Paging {

  const HOME_PAGE_SIZE := 24
  const WINDOW := 15

  // At most `limit` rows after skipping `offset`.
  function Select<T>(rows: seq<T>, limit: nat, offset: nat): seq<T> {
    if offset >= |rows| then []
    else if offset + limit >= |rows| then rows[offset..]
    else rows[offset..offset + limit]
  }

  // The page of a newest-first list, and its length. Pages below 1 are read as page 1. Counting and listing are
  // separate queries, so the list may have changed in between.
  method PagedBlocks<T>(counted: seq<T>, rows: seq<T>, size: nat, page: int) returns (blocks: seq<T>, total: nat)
    ensures total == |counted|
    ensures blocks == Page(rows, size, if page < 1 then 1 else page)
    ensures var first := if page < 1 then 0 else (page - 1) * size;
            && |blocks| == (if |rows| < first then 0 else if |rows| < first + size then |rows| - first else size)
            && forall i :: 0 <= i < |blocks| ==> blocks[i] == rows[first + i]
  {
    var p := page;
    if p < 1 {
      p := 1;
    }
    var offset: nat := (p - 1) * size;
    total := |counted|;
    var found := Select(rows, size, offset);
    blocks := [];
    for i := 0 to |found|
      invariant blocks == found[..i]
    {
      blocks := blocks + [found[i]];
    }
  }

  function Page<T>(rows: seq<T>, size: nat, page: nat): seq<T>
    requires page >= 1
  {
    Select(rows, size, (page - 1) * size)
  }

  function TotalPages(total: nat, size: nat): nat
    requires size > 0
  {
    (total + size - 1) / size
  }

  // 0 when there is no next page.
  function NextPage(page: nat, totalPages: nat): nat {
    if page < totalPages then page + 1 else 0
  }

  function FirstPages<T>(rows: seq<T>, size: nat, k: nat): seq<T> {
    if k == 0 then [] else FirstPages(rows, size, k - 1) + Page(rows, size, k)
  }

  lemma PageAppends<T>(rows: seq<T>, size: nat, offset: nat)
    ensures (if offset <= |rows| then rows[..offset] else rows) + Select(rows, size, offset)
            == if offset + size <= |rows| then rows[..offset + size] else rows
  {
  }

  lemma {:induction false} PagesArePrefix<T>(rows: seq<T>, size: nat, k: nat)
    ensures FirstPages(rows, size, k) == if k * size <= |rows| then rows[..k * size] else rows
  {
    if k == 0 {
    } else {
      hide Select;
      PagesArePrefix(rows, size, k - 1);
      PageAppends(rows, size, (k - 1) * size);
      assert k * size == (k - 1) * size + size;
    }
  }

  lemma PageCount(total: nat, size: nat)
    requires size > 0
    ensures TotalPages(total, size) * size >= total
    ensures TotalPages(total, size) > 0 ==> (TotalPages(total, size) - 1) * size < total
  {
  }

  lemma MulOrder(a: int, b: int, c: nat)
    ensures a <= b ==> a * c <= b * c
  {
  }

  // A page starts inside the list exactly when it is one of the pages counted.
  lemma StartsInside(total: nat, size: nat, page: nat)
    requires size > 0 && page >= 1
    ensures (page - 1) * size < total <==> page <= TotalPages(total, size)
  {
    var p: int := TotalPages(total, size);
    PageCount(total, size);
    MulOrder(page - 1, p - 1, size);
    MulOrder(p, page - 1, size);
  }

  // Pages 1 .. totalPages, put end to end, are the whole list; a page shows something exactly when it is one of them;
  // and a next link is shown exactly when some later page has something to show, and leads to the first such page.
  lemma PagesPartition<T>(rows: seq<T>, size: nat, page: nat)
    requires size > 0 && page >= 1
    ensures FirstPages(rows, size, TotalPages(|rows|, size)) == rows
    ensures Page(rows, size, page) != [] <==> page <= TotalPages(|rows|, size)
    ensures NextPage(page, TotalPages(|rows|, size)) != 0 <==> exists q: nat :: q > page && Page(rows, size, q) != []
    ensures var link := NextPage(page, TotalPages(|rows|, size));
            link != 0 ==>
              && link > page && Page(rows, size, link) != []
              && forall q: nat :: page < q < link ==> Page(rows, size, q) == []
  {
    hide TotalPages;
    var p := TotalPages(|rows|, size);
    PageCount(|rows|, size);
    PagesArePrefix(rows, size, p);
    PageShows(rows, size, page);
    if page < p {
      PageShows(rows, size, page + 1);
    }
    forall q: nat | q > page && Page(rows, size, q) != [] ensures page < p {
      PageShows(rows, size, q);
    }
  }

  lemma PageShows<T>(rows: seq<T>, size: nat, page: nat)
    requires size > 0 && page >= 1
    ensures Page(rows, size, page) != [] <==> page <= TotalPages(|rows|, size)
  {
    hide TotalPages;
    StartsInside(|rows|, size, page);
  }

  // When blocks were added between the count and the listing, a next link still never leads to an empty page.
  lemma NextPageHolds<T>(counted: seq<T>, rows: seq<T>, size: nat, page: nat)
    requires size > 0 && page >= 1 && |counted| <= |rows|
    requires NextPage(page, TotalPages(|counted|, size)) != 0
    ensures var link := NextPage(page, TotalPages(|counted|, size)); link == page + 1 && Page(rows, size, link) != []
  {
    hide TotalPages;
    StartsInside(|counted|, size, page + 1);
    PageShows(rows, size, page + 1);
  }

  // The page numbers to offer: an unbroken run of as many pages as exist, up to 15, that contains the current page
  // whenever it exists, in the middle when there is room on both sides.
  method PageWindow(current: int, total: int) returns (nums: seq<int>)
    requires total >= 0
    ensures |nums| == if total < 15 then total else 15
    ensures forall i :: 0 <= i < |nums| ==> nums[i] == nums[0] + i && 1 <= nums[i] <= total
    ensures current in nums <==> 1 <= current <= total
    ensures 8 <= current <= total - 7 ==> nums[7] == current
    ensures total > 0 && current <= 8 ==> nums[0] == 1
    ensures total > 0 && current >= total - 7 ==> nums[|nums| - 1] == total
  {
    var start := current - WINDOW / 2;
    if start < 1 {
      start := 1;
    }
    var end := start + WINDOW - 1;
    if end > total {
      end := total;
      start := end - WINDOW + 1;
      if start < 1 {
        start := 1;
      }
    }
    nums := [];
    var i := start;
    while i <= end
      invariant start <= i <= end + 1
      invariant |nums| == i - start && forall j :: 0 <= j < |nums| ==> nums[j] == start + j
    {
      nums := nums + [i];
      i := i + 1;
    }
    if 1 <= current <= total {
      assert nums[current - start] == current;
    }
  }
}
