/** Pagination of a product listing: the defaults for absent `page` and
    `pageSize`, the page count, the slice `subList(start, end)` and the
    1-based range reported beside it, all in Java `int` arithmetic. */
module CatalogPaging {
  import opened Java
  import opened DynamoStore

  const DefaultPage: Int32 := 1
  const DefaultPageSize: Int32 := 4

  /** The body of a listing response (line 191-196). */
  datatype Page = Page(
    products: seq<Item>,
    totalPages: int,
    totalProducts: int,
    currentRangeStart: int,
    currentRangeEnd: int)

  /** `if (page == null) page = 1;` and the same for `pageSize` with 4:
      only null is replaced; zero and negative values are kept. */
  function OrDefault(value: JInteger, default: Int32): (r: Int32)
    ensures value.None? ==> r == default
    ensures value.Some? ==> r == value.value
  {
    if value.None? then default else value.value
  }

  /** `(int) Math.ceil((double) n / pageSize)`.  For a positive `pageSize`
      the double quotient of two `int`s is rounded so finely that its ceiling
      is the exact one.  For zero, `n / 0.0` is +Infinity (cast to
      `Integer.MAX_VALUE`) or, when `n` is zero, NaN (cast to 0), by section
      5.1.3 of the Java Language Specification.  A negative `pageSize` gives
      minus the floor of `n / -pageSize`. */
  function TotalPages(n: nat, pageSize: Int32): (r: int)
    requires n <= IntMax
    ensures pageSize > 0 ==> 0 <= r && (r - 1) * pageSize < n <= r * pageSize
    ensures pageSize == 0 ==> r == (if n == 0 then 0 else IntMax)
  {
    if pageSize > 0 then (n + pageSize - 1) / pageSize
    else if pageSize == 0 then (if n == 0 then 0 else IntMax)
    else -(n / -(pageSize as int))
  }

  /** Lines 184-196: `start` and `end` in `int` arithmetic, then
      `items.subList(start, end)`, which throws `IndexOutOfBoundsException`
      for a negative `start` and `IllegalArgumentException` for `start > end`
      (`end` never exceeds the size). */
  function Paginate(items: seq<Item>, page: Int32, pageSize: Int32): (r: Outcome<Page>)
    requires |items| <= IntMax
    ensures r.Done? ==> r.value.totalProducts == |items| && 0 <= r.value.currentRangeEnd <= |items|
    ensures r.Done? ==> |r.value.products| <= pageSize && |r.value.products| <= r.value.currentRangeEnd
    ensures r.Done? ==>
              r.value.products == items[r.value.currentRangeEnd - |r.value.products|..r.value.currentRangeEnd]
    ensures r.Thrown? ==> r.exception != NullPointer
  {
    var n := |items|;
    var start := Wrap(Wrap(page - 1) * pageSize);
    var end := Min(Wrap(start + pageSize), n);
    if start < 0 then Thrown(IndexOutOfBounds)
    else if start > end then Thrown(IllegalArgument)
    else Done(Page(items[start..end], TotalPages(n, pageSize), n, Wrap(start + 1), end))
  }

  /** A slice holds nothing its sequence does not. */
  lemma SliceWithin(s: seq<Item>, i: int, j: int)
    requires 0 <= i <= j <= |s|
    ensures multiset(s[i..j]) <= multiset(s)
  {
    assert s == s[..i] + s[i..j] + s[j..];
  }

  /** Within `int` range, with `page` and `pageSize` at least 1: the page is
      the slice from `start = (page - 1) * pageSize` to `min(start + pageSize, n)`
      while `start <= n`, holds at most `pageSize` items, counts all `n`
      items and reports the 1-based range `start + 1 .. end`; once `start`
      passes `n` the call throws. */
  lemma PaginateWindow(items: seq<Item>, page: Int32, pageSize: Int32)
    requires |items| <= IntMax
    requires page >= 1 && pageSize >= 1 && page * pageSize <= IntMax
    ensures var start := (page - 1) * pageSize;
            var end := Min(start + pageSize, |items|);
            && (start <= |items| ==>
                 && Paginate(items, page, pageSize) == Done(Page(items[start..end], TotalPages(|items|, pageSize),
                                                                 |items|, start + 1, end))
                 && |items[start..end]| <= pageSize)
            && (start > |items| ==> Paginate(items, page, pageSize) == Thrown(IllegalArgument))
  {
    var start := (page - 1) * pageSize;
    assert 0 <= start && start + pageSize == page * pageSize;
    assert Wrap(page - 1) == page - 1;
    assert Wrap((page - 1) * pageSize) == start;
    assert Wrap(start + pageSize) == start + pageSize;
  }

  /** A page number below 1 is not clamped: with a positive `pageSize` the
      start index is negative and `subList` throws. */
  lemma PageBelowOneThrows(items: seq<Item>, page: Int32, pageSize: Int32)
    requires |items| <= IntMax
    requires page < 1 && pageSize >= 1 && (page - 1) * pageSize >= IntMin
    ensures Paginate(items, page, pageSize) == Thrown(IndexOutOfBounds)
  {
    var q := page - 1;
    assert Wrap(q) == q;
    assert q * pageSize < 0;
    assert Wrap(q * pageSize) == q * pageSize;
  }

  /** A negative `pageSize` always makes `subList` throw. */
  lemma NegativePageSizeThrows(items: seq<Item>, page: Int32, pageSize: Int32)
    requires |items| <= IntMax
    requires pageSize < 0 && IntMin <= (page - 1) * pageSize <= IntMax
    ensures Paginate(items, page, pageSize).Thrown?
  {
    assert Wrap(page - 1) == page - 1;
  }

  /** A zero `pageSize` yields an empty page, whatever the page number. */
  lemma ZeroPageSize(items: seq<Item>, page: Int32)
    requires |items| <= IntMax
    ensures Paginate(items, page, 0) ==
      Done(Page([], if |items| == 0 then 0 else IntMax, |items|, 1, 0))
  {
  }

  /** The reported range covers exactly the returned items: when the
      range starts inside the listing, its length is the page size or what
      is left of the listing, whichever is smaller. */
  lemma RangeMatchesPage(items: seq<Item>, page: Int32, pageSize: Int32)
    requires |items| <= IntMax
    requires page >= 1 && pageSize >= 1 && page * pageSize <= IntMax
    requires (page - 1) * pageSize < |items|
    ensures Paginate(items, page, pageSize).Done?
    ensures var p := Paginate(items, page, pageSize).value;
            && p.currentRangeStart <= p.totalProducts
            && p.currentRangeEnd - p.currentRangeStart + 1 == |p.products|
            && |p.products| == Min(pageSize, p.totalProducts - p.currentRangeStart + 1)
  {
    PaginateWindow(items, page, pageSize);
  }

  /** Ten items, page 2 of size 4: items 5 to 8 of 3 pages. */
  lemma SecondPageOfTen(items: seq<Item>)
    requires |items| == 10
    ensures Paginate(items, 2, 4) == Done(Page(items[4..8], 3, 10, 5, 8))
  {
    PaginateWindow(items, 2, 4);
  }
}
