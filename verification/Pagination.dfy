/** Listing items page by page (src/decision_system/connectors/pagination.py). */
module Pagination {
  import opened Prelude
  import opened Decimal

  datatype Page<T> = Page(items: seq<T>, totalCount: nat, page: int, pageSize: int, hasMore: bool, nextCursor: Option<string>)

  function Max(a: int, b: int): int { if a >= b then a else b }

  /** Where a slice bound falls in a list of `n` elements; a negative one counts from the end. */
  function Bound(n: nat, i: int): (b: nat)
    ensures b <= n
  {
    if i < 0 then Max(0, n + i) else Min(i, n)
  }

  function Slice<T>(s: seq<T>, from: int, to: int): seq<T> {
    var lo, hi := Bound(|s|, from), Bound(|s|, to);
    if lo < hi then s[lo..hi] else []
  }

  /** Slices as Python cuts them: a bound that is not negative counts from the start, a negative one from the
      end, and both are cut to the list. */
  lemma SliceMeans<T>(s: seq<T>, from: int, to: int)
    requires from >= 0 && to >= 0
    ensures from <= to <= |s| ==> Slice(s, from, to) == s[from..to]
    ensures from <= |s| <= to ==> Slice(s, from, to) == s[from..]
    ensures from >= to || from >= |s| ==> Slice(s, from, to) == []
    ensures 0 < from <= |s| ==> Slice(s, -from, to) == Slice(s, |s| - from, to)
    ensures 0 < to <= |s| ==> Slice(s, from, -to) == Slice(s, from, |s| - to)
    ensures from >= |s| ==> Slice(s, -from, to) == Slice(s, 0, to)
    ensures 0 < to && to >= |s| ==> Slice(s, from, -to) == []
  {
  }

  function PaginateItems<T>(items: seq<T>, page: int, pageSize: int, maxPageSize: int): Page<T> {
    var number := Max(1, page);
    var size := Max(1, Min(pageSize, maxPageSize));
    var start := (number - 1) * size;
    var end := start + size;
    var hasMore := end < |items|;
    Page(Slice(items, start, end), |items|, number, size, hasMore, if hasMore then Some(PrintInt(number + 1)) else None)
  }

  function SizeOf(pageSize: int): (size: int)
    ensures 1 <= size <= 200
  {
    Max(1, Min(pageSize, 200))
  }

  /** Where a page starts: at the cursor if there is a readable one, else by the page number. */
  function StartOf(page: int, pageSize: int, cursor: Option<string>): int {
    var byPage := (Max(1, page) - 1) * SizeOf(pageSize);
    if cursor.None? || cursor.value == "" then byPage
    else
      var offset := ParseInt(cursor.value);
      if offset.Some? then offset.value else byPage
  }

  function ApplyPaginationParams<T>(items: seq<T>, page: int, pageSize: int, cursor: Option<string>): Page<T> {
    var start := StartOf(page, pageSize, cursor);
    var end := start + SizeOf(pageSize);
    var hasMore := end < |items|;
    Page(Slice(items, start, end), |items|, Max(1, page), SizeOf(pageSize), hasMore,
         if hasMore then Some(PrintInt(end)) else None)
  }

  /** The next cursor, read back, is where this page ends. */
  lemma NextStart<T>(items: seq<T>, page: int, pageSize: int, cursor: Option<string>)
    ensures var p := ApplyPaginationParams(items, page, pageSize, cursor);
            p.hasMore ==> p.nextCursor.Some?
                          && StartOf(page, pageSize, p.nextCursor) == StartOf(page, pageSize, cursor) + SizeOf(pageSize)
  {
    hide ParseInt;
    var end := StartOf(page, pageSize, cursor) + SizeOf(pageSize);
    ParsePrint(end);
    assert |PrintInt(end)| > 0;
  }

  /** What a page says besides its items: how many items there are in all, and the page number and size it
      was cut with, which are at least one. */
  lemma PageTells<T>(items: seq<T>, page: int, pageSize: int, cursor: Option<string>)
    ensures var p, q := ApplyPaginationParams(items, page, pageSize, cursor), PaginateItems(items, page, pageSize, 200);
            && p.totalCount == q.totalCount == |items|
            && p.page == q.page && p.page >= 1 && (page >= 1 ==> p.page == page)
            && p.pageSize == q.pageSize && 1 <= p.pageSize <= 200 && (1 <= pageSize <= 200 ==> p.pageSize == pageSize)
            && (p.hasMore <==> p.nextCursor.Some?) && (q.hasMore <==> q.nextCursor.Some?)
  {
    hide ParseInt, PrintInt, Slice;
  }

  /** The largest page size allowed is that of the caller, and a page is never empty for want of size: with
      any number at all the page starts behind the pages before it. */
  lemma PageOfAnySize<T>(items: seq<T>, page: int, pageSize: int, maxPageSize: int)
    ensures var q := PaginateItems(items, page, pageSize, maxPageSize);
            && (1 <= pageSize <= maxPageSize ==> q.pageSize == pageSize)
            && (1 <= maxPageSize <= pageSize ==> q.pageSize == maxPageSize)
            && (pageSize < 1 || maxPageSize < 1 ==> q.pageSize == 1)
            && (page >= 1 ==> q.items == Slice(items, (page - 1) * q.pageSize, (page - 1) * q.pageSize + q.pageSize))
            && (page < 1 ==> q.page == 1 && q.items == Slice(items, 0, q.pageSize))
  {
    hide PrintInt, Slice;
  }

  /** A cursor that cannot be read is as good as none, and one that can be read makes the page number
      irrelevant. */
  lemma CursorFallsBack<T>(items: seq<T>, page: int, other: int, pageSize: int, cursor: string)
    ensures cursor == "" || ParseInt(cursor).None? ==>
              ApplyPaginationParams(items, page, pageSize, Some(cursor)) == ApplyPaginationParams(items, page, pageSize, None)
    ensures cursor != "" && ParseInt(cursor).Some? ==>
              && StartOf(page, pageSize, Some(cursor)) == ParseInt(cursor).value
              && ApplyPaginationParams(items, page, pageSize, Some(cursor)).items == ApplyPaginationParams(items, other, pageSize, Some(cursor)).items
  {
    hide ParseInt, PrintInt, Slice;
  }

  /** The pages that a reader gets who follows the cursor until there is none. */
  ghost function Follow<T>(items: seq<T>, page: int, pageSize: int, cursor: Option<string>): (chain: seq<Page<T>>)
    ensures |chain| > 0
    decreases Max(0, |items| - StartOf(page, pageSize, cursor))
  {
    hide ParseInt;
    var p := ApplyPaginationParams(items, page, pageSize, cursor);
    NextStart(items, page, pageSize, cursor);
    if p.nextCursor.None? then [p] else [p] + Follow(items, page, pageSize, p.nextCursor)
  }

  ghost function Items<T>(chain: seq<Page<T>>): seq<T> {
    if chain == [] then [] else chain[0].items + Items(chain[1..])
  }

  /** The last page start below zero, in steps of the page size. */
  function Crossing(start: int, size: int): (q: int)
    requires size > 0 && start < 0
    ensures -size <= q < 0 && start <= q
    decreases -start
  {
    if start + size >= 0 then start else Crossing(start + size, size)
  }

  /** What a chain gives that starts at an offset. From an offset in the list: the items from there on.
      From a negative one, which counts from the end: the items that lie before the crossing, then the
      crossing page, which is a slice with a negative start, and then the items behind that page. */
  function Given<T>(items: seq<T>, start: int, size: int): seq<T>
    requires size > 0
  {
    if start >= 0 then items[Min(start, |items|)..]
    else
      var q := Crossing(start, size);
      Slice(items, start, q) + Slice(items, q, q + size) + items[Min(q + size, |items|)..]
  }

  /** From any start, following the cursor gives exactly these items. */
  lemma {:induction false} ChainItems<T>(items: seq<T>, page: int, pageSize: int, cursor: Option<string>)
    ensures Items(Follow(items, page, pageSize, cursor)) == Given(items, StartOf(page, pageSize, cursor), SizeOf(pageSize))
    decreases Max(0, |items| - StartOf(page, pageSize, cursor))
  {
    hide StartOf, SizeOf, PrintInt, Slice, Given, Bound;
    var p, start, size := ApplyPaginationParams(items, page, pageSize, cursor), StartOf(page, pageSize, cursor), SizeOf(pageSize);
    NextStart(items, page, pageSize, cursor);
    if p.hasMore {
      ChainItems(items, page, pageSize, p.nextCursor);
      var rest := Follow(items, page, pageSize, p.nextCursor);
      assert ([p] + rest)[1..] == rest;
      GivenNext(items, start, size);
    } else {
      assert [p][1..] == [];
      assert Items([p]) == p.items + [];
      GivenLast(items, start, size);
    }
  }

  lemma GivenNext<T>(items: seq<T>, start: int, size: int)
    requires size > 0 && start + size < |items|
    ensures Slice(items, start, start + size) + Given(items, start + size, size) == Given(items, start, size)
  {
    hide Slice;
    if start >= 0 {
      NextPage(items, start, size);
    } else if start + size >= 0 {
      assert Slice(items, start, start) == [] by { NoItems(items, start); }
      assert [] + Slice(items, start, start + size) == Slice(items, start, start + size);
    } else {
      var q := Crossing(start, size);
      SliceSplit(items, start, start + size, q);
      Regroup(Slice(items, start, start + size), Slice(items, start + size, q), Slice(items, q, q + size), items[Min(q + size, |items|)..]);
    }
  }

  lemma Regroup<T>(a: seq<T>, b: seq<T>, c: seq<T>, d: seq<T>)
    ensures a + (b + c + d) == (a + b) + c + d
  {
  }

  lemma NextPage<T>(items: seq<T>, start: int, size: int)
    requires size > 0 && 0 <= start && start + size < |items|
    ensures Slice(items, start, start + size) + items[start + size..] == items[start..]
  {
  }

  lemma NoItems<T>(items: seq<T>, at: int)
    ensures Slice(items, at, at) == []
  {
  }

  lemma SliceSplit<T>(items: seq<T>, from: int, mid: int, to: int)
    requires from <= mid <= to < 0
    ensures Slice(items, from, mid) + Slice(items, mid, to) == Slice(items, from, to)
  {
  }

  lemma GivenLast<T>(items: seq<T>, start: int, size: int)
    requires size > 0 && start + size >= |items|
    ensures Slice(items, start, start + size) == Given(items, start, size)
  {
  }

  /** The pages of the chain lie one page size apart, and all but the last say that there are more. */
  lemma {:induction false} ChainPage<T>(items: seq<T>, page: int, pageSize: int, cursor: Option<string>, k: nat)
    requires k < |Follow(items, page, pageSize, cursor)|
    ensures var chain, from := Follow(items, page, pageSize, cursor), StartOf(page, pageSize, cursor) + k * SizeOf(pageSize);
            && chain[k].items == Slice(items, from, from + SizeOf(pageSize))
            && (chain[k].hasMore <==> from + SizeOf(pageSize) < |items|)
            && (chain[k].hasMore <==> k < |chain| - 1)
    decreases k
  {
    hide StartOf, SizeOf, PrintInt, Slice;
    var p, start, size := ApplyPaginationParams(items, page, pageSize, cursor), StartOf(page, pageSize, cursor), SizeOf(pageSize);
    NextStart(items, page, pageSize, cursor);
    if k > 0 {
      ChainPage(items, page, pageSize, p.nextCursor, k - 1);
      assert ([p] + Follow(items, page, pageSize, p.nextCursor))[k] == Follow(items, page, pageSize, p.nextCursor)[k - 1];
      Distribute(start, k, size);
    }
  }

  lemma Distribute(start: int, k: nat, size: int)
    ensures k > 0 ==> start + size + (k - 1) * size == start + k * size
  {
  }

  /** Following the cursor from the first page is the same as asking for the pages by number: it
      ends after the number of items divided by the page size, rounded up, but at least one page;
      the pages together are the list; and the k-th of them is the page with number k. */
  lemma CursorChainIsPages<T>(items: seq<T>, pageSize: int)
    ensures var chain, size := Follow(items, 1, pageSize, None), SizeOf(pageSize);
            && Items(chain) == items
            && |chain| == Max(1, (|items| + size - 1) / size)
            && forall k :: 0 <= k < |chain| ==>
                 && chain[k].items == ApplyPaginationParams(items, k + 1, pageSize, None).items
                 && chain[k].hasMore == ApplyPaginationParams(items, k + 1, pageSize, None).hasMore
                 && chain[k].items == PaginateItems(items, k + 1, pageSize, 200).items
                 && chain[k].hasMore == PaginateItems(items, k + 1, pageSize, 200).hasMore
  {
    hide Follow, Items, PrintInt, Slice;
    var chain, size := Follow(items, 1, pageSize, None), SizeOf(pageSize);
    ChainItems(items, 1, pageSize, None);
    assert StartOf(1, pageSize, None) == 0 && items[0..] == items;
    var last := |chain| - 1;
    ChainPage(items, 1, pageSize, None, last);
    if last > 0 {
      ChainPage(items, 1, pageSize, None, last - 1);
    }
    hide SizeOf;
    RoundedUp(|items|, size, |chain|);
    forall k | 0 <= k < |chain|
      ensures chain[k].items == ApplyPaginationParams(items, k + 1, pageSize, None).items
      ensures chain[k].hasMore == ApplyPaginationParams(items, k + 1, pageSize, None).hasMore
      ensures chain[k].items == PaginateItems(items, k + 1, pageSize, 200).items
      ensures chain[k].hasMore == PaginateItems(items, k + 1, pageSize, 200).hasMore
    {
      ChainPage(items, 1, pageSize, None, k);
      PageByNumber(items, k, pageSize);
    }
  }

  lemma PageByNumber<T>(items: seq<T>, k: nat, pageSize: int)
    ensures StartOf(1, pageSize, None) == 0
    ensures var p, q, from := ApplyPaginationParams(items, k + 1, pageSize, None), PaginateItems(items, k + 1, pageSize, 200), k * SizeOf(pageSize);
            && p.items == q.items == Slice(items, from, from + SizeOf(pageSize))
            && p.hasMore == q.hasMore == (from + SizeOf(pageSize) < |items|)
  {
    hide PrintInt, Slice;
  }

  lemma RoundedUp(n: nat, size: int, count: nat)
    requires size > 0 && count > 0 && (count == 1 || (count - 1) * size < n) && n <= count * size
    ensures count == Max(1, (n + size - 1) / size)
  {
    var q := (n + size - 1) / size;
    if n > 0 {
      assert q * size <= n + size - 1 < q * size + size;
      Between(n, size, count, q);
    }
  }

  lemma Between(n: nat, size: int, count: nat, q: int)
    requires size > 0 && n > 0 && (count == 1 || (count - 1) * size < n) && n <= count * size
    requires q * size < n + size <= q * size + size
    ensures count == q
  {
    assert (q + 1) * size == q * size + size && (count + 1) * size == count * size + size && (count - 1) * size == count * size - size;
    Cancel(count - 1, q, size);
    Cancel(q, count + 1, size);
  }

  lemma Cancel(a: int, b: int, size: int)
    requires size > 0 && a * size < b * size
    ensures a < b
  {
    assert (b - a) * size > 0;
  }

  /** The two functions hand out different cursors, a page number and an offset; they are the same
      only after a first page of two items. */
  lemma CursorsAgreeIff<T>(items: seq<T>, page: int, pageSize: int)
    requires PaginateItems(items, page, pageSize, 200).hasMore
    ensures PaginateItems(items, page, pageSize, 200).nextCursor == ApplyPaginationParams(items, page, pageSize, None).nextCursor
            <==> page <= 1 && pageSize == 2
  {
    hide ParseInt, PrintInt, Slice;
    var number, size := Max(1, page), SizeOf(pageSize);
    var end := (number - 1) * size + size;
    ParsePrint(number + 1);
    ParsePrint(end);
    NextOnly(number, size);
  }

  /** Following the cursor of `PaginateItems` with the other function loses an item: after a first page
      of one of three items, the cursor says page 2, which is read as an offset. */
  lemma CursorsDifferExample<T>(a: T, b: T, c: T)
    ensures var p := PaginateItems([a, b, c], 1, 1, 200);
            && p.items == [a] && p.nextCursor.Some?
            && ApplyPaginationParams([a, b, c], 1, 1, p.nextCursor).items == [c]
            && !ApplyPaginationParams([a, b, c], 1, 1, p.nextCursor).hasMore
  {
    hide ParseInt, PrintInt;
    ParsePrint(2);
    assert |PrintInt(2)| > 0 by { OnePrinted(); }
  }

  lemma OnePrinted()
    ensures |PrintInt(2)| > 0
  {
  }

  lemma NextOnly(number: int, size: int)
    requires number >= 1 && size >= 1
    ensures number + 1 == (number - 1) * size + size <==> number == 1 && size == 2
  {
    assert (number - 1) * size + size == number * size;
    if size >= 3 || (size == 2 && number > 1) {
      assert number * size == number * 2 + number * (size - 2);
    }
  }
}
