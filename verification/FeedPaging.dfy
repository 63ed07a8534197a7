/**
 * Paging delivers the feed: each page is the newest rows not yet delivered,
 * whatever table they come from. A scroll delivers every row exactly once if
 * and only if no page ends between two rows of one moment.
 */
module FeedPaging {
  import opened Wrappers
  import opened Feed
  import opened FeedOrder

  // ------------------------------------------------------------------- Pages

  lemma {:induction false} SelectConcat(rows: seq<Row>, more: seq<Row>, q: Query, cursor: Option<int>)
    ensures Select(rows + more, q, cursor) == Select(rows, q, cursor) + Select(more, q, cursor)
  {
    if rows == [] {
      assert rows + more == more;
    } else {
      assert (rows + more)[1..] == rows[1..] + more;
      SelectConcat(rows[1..], more, q, cursor);
    }
  }

  /** The three tables' shares of the selection, apart and together. */
  lemma SelectionByTable(t: Tables, q: Query, cursor: Option<int>)
    ensures Select(AllRows(t), q, cursor) ==
            Select(CardRows(t), q, cursor) + Select(DepositRows(t), q, cursor) + Select(FeeRows(t), q, cursor)
  {
    SelectConcat(CardRows(t) + DepositRows(t), FeeRows(t), q, cursor);
    SelectConcat(CardRows(t), DepositRows(t), q, cursor);
  }

  lemma CutSorted(rows: seq<Row>, take: nat)
    ensures Newest(Take(Newest(rows), take)) == Take(Newest(rows), take)
  {
    NewestSorted(rows);
    SortedStays(Take(Newest(rows), take));
  }

  lemma MergeThree(x: seq<Row>, y: seq<Row>, z: seq<Row>)
    ensures Newest(x + y + z) == Merge(Merge(Newest(x), Newest(y)), Newest(z))
  {
    NewestConcat(x + y, z);
    NewestConcat(x, y);
  }

  lemma SharedThree(x: seq<Row>, y: seq<Row>, z: seq<Row>, take: nat, n: nat)
    requires n <= take
    ensures Take(Merge(Merge(Take(x, take), Take(y, take)), Take(z, take)), n) == Take(Merge(Merge(x, y), z), n)
  {
    var tx, ty, tz := Take(x, take), Take(y, take), Take(z, take);
    assert Take(tx, n) == Take(x, n) && Take(ty, n) == Take(y, n) && Take(tz, n) == Take(z, n);
    SharedMerge(tx, x, ty, y, n);
    SharedMerge(Merge(tx, ty), Merge(x, y), tz, z, n);
  }

  /** Three lists sorted, cut at `take` and merged: the first n rows are those of the full merge. */
  lemma CutMerge(a: seq<Row>, b: seq<Row>, c: seq<Row>, take: nat, n: nat)
    requires n <= take
    ensures Take(MergeFetched(a, b, c, take), n) == Take(Newest(a + b + c), n)
  {
    CutSorted(a, take);
    CutSorted(b, take);
    CutSorted(c, take);
    MergeThree(Fetch(a, take), Fetch(b, take), Fetch(c, take));
    MergeThree(a, b, c);
    SharedThree(Newest(a), Newest(b), Newest(c), take, n);
  }

  /** Lists with the same first limit + 1 rows give the same page. */
  lemma TrimShared(rows: seq<Row>, all: seq<Row>, limit: nat)
    requires Take(rows, limit + 1) == Take(all, limit + 1)
    ensures Trim(rows, limit) == Trim(all, limit)
  {
    assert Take(rows, limit) == Take(Take(rows, limit + 1), limit);
    assert Take(all, limit) == Take(Take(all, limit + 1), limit);
  }

  /** The fetched merge starts like the whole one, for one row more than a page shows. */
  lemma MergedStarts(t: Tables, q: Query, cursor: Option<int>)
    requires q.limit >= 1
    ensures Take(Merged(t, q, cursor), q.limit + 1) == Take(Everything(t, q, cursor), q.limit + 1)
  {
    SelectionByTable(t, q, cursor);
    CutMerge(Select(CardRows(t), q, cursor), Select(DepositRows(t), q, cursor), Select(FeeRows(t), q, cursor),
             2 * q.limit, q.limit + 1);
  }

  /** The page cut from a list: its first `limit` rows, and where to go on if there are more. */
  predicate IsPage(page: Page, all: seq<Row>, limit: nat)
    requires limit >= 1
  {
    && page.data == Take(all, limit)
    && (page.hasMore <==> |all| > limit)
    && page.nextCursor == if |all| > limit then Some(LastOf(all, limit)) else None
  }

  /**
   * A page is exactly the newest `limit` rows of the whole merge below the
   * cursor, and hasMore says whether any are left: fetching 2 * limit rows per
   * table loses nothing.
   */
  lemma PageIsNewest(t: Tables, q: Query, cursor: Option<int>)
    requires q.limit >= 1
    ensures IsPage(List(t, q, cursor), Everything(t, q, cursor), q.limit)
  {
    MergedStarts(t, q, cursor);
    TrimShared(Merged(t, q, cursor), Everything(t, q, cursor), q.limit);
    TrimIs(Everything(t, q, cursor), q.limit);
  }

  lemma TrimIs(all: seq<Row>, limit: nat)
    requires limit >= 1
    ensures IsPage(Trim(all, limit), all, limit)
  {
  }

  lemma {:induction false} SelectCount(rows: seq<Row>, q: Query, cursor: Option<int>, x: Row)
    ensures multiset(Select(rows, q, cursor))[x] == if Selected(x, q, cursor) then multiset(rows)[x] else 0
  {
    if rows == [] {
    } else {
      assert rows == [rows[0]] + rows[1..];
      SelectCount(rows[1..], q, cursor, x);
    }
  }

  /** The feed meant: the selected rows, each as often as the tables have it, newest first. */
  lemma EverythingMeans(t: Tables, q: Query, cursor: Option<int>)
    ensures Sorted(Everything(t, q, cursor))
    ensures forall x :: multiset(Everything(t, q, cursor))[x] ==
                        if Selected(x, q, cursor) then multiset(AllRows(t))[x] else 0
  {
    NewestSorted(Select(AllRows(t), q, cursor));
    forall x ensures multiset(Everything(t, q, cursor))[x] ==
                     if Selected(x, q, cursor) then multiset(AllRows(t))[x] else 0
    {
      SelectCount(AllRows(t), q, cursor, x);
    }
  }

  // ----------------------------------------------------------------- Cursors

  /** What a cursor leaves: the rows before it - and not the row at `to` when the cursor lies beyond it. */
  lemma CursorWindow(q: Query, c: int, at: int)
    ensures InWindow(q, Some(c), at) <==>
              InWindow(q, None, at) && at < c && !(q.to.Some? && q.to.value < c && at == q.to.value)
  {
  }

  lemma {:induction false} SelectBelow(rows: seq<Row>, q: Query, cursor: Option<int>, c: int)
    requires InWindow(q, cursor, c)
    ensures Select(rows, q, Some(c)) == Below(Select(rows, q, cursor), c)
  {
    if rows == [] {
    } else {
      SelectBelow(rows[1..], q, cursor, c);
      BelowCons(rows[0], Select(rows[1..], q, cursor), c);
      assert [] + Select(rows[1..], q, cursor) == Select(rows[1..], q, cursor);
    }
  }

  /** The moment a page ends at. */
  function LastOf(all: seq<Row>, limit: nat): int
    requires 1 <= limit <= |all|
  {
    all[limit - 1].createdAt
  }

  lemma EverythingInWindow(t: Tables, q: Query, cursor: Option<int>, i: nat)
    requires i < |Everything(t, q, cursor)|
    ensures InWindow(q, cursor, Everything(t, q, cursor)[i].createdAt)
  {
    var all := Everything(t, q, cursor);
    EverythingMeans(t, q, cursor);
    assert all[i] in multiset(all);
  }

  /** The next page starts at the first row from before the moment the last one ended at. */
  lemma NextPageStarts(t: Tables, q: Query, cursor: Option<int>)
    requires q.limit >= 1 && |Everything(t, q, cursor)| > q.limit
    ensures var all := Everything(t, q, cursor);
            Everything(t, q, Some(LastOf(all, q.limit))) == Below(all, LastOf(all, q.limit))
  {
    var c := LastOf(Everything(t, q, cursor), q.limit);
    EverythingInWindow(t, q, cursor, q.limit - 1);
    SelectBelow(AllRows(t), q, cursor, c);
    NewestBelow(Select(AllRows(t), q, cursor), c);
  }

  /** A page of this size ends between two rows of one moment. */
  predicate SplitsTie(all: seq<Row>, limit: nat)
    requires limit >= 1
  {
    |all| > limit && all[limit].createdAt == all[limit - 1].createdAt
  }

  /** What is from before the end of a page is part of what follows it, and all of it exactly when no tie is split. */
  lemma TailIff(all: seq<Row>, limit: nat)
    requires Sorted(all) && 1 <= limit < |all|
    ensures var c := LastOf(all, limit);
            var k := Reached(all, c);
            && limit <= k && Below(all, c) == all[k..]
            && (k == limit <==> !SplitsTie(all, limit))
  {
    BelowIsTail(all, LastOf(all, limit));
  }

  /** ... said row by row. */
  lemma RowsIff(all: seq<Row>, limit: nat)
    requires Sorted(all) && 1 <= limit < |all|
    ensures (forall i | limit <= i < |all| :: all[i] in Below(all, LastOf(all, limit))) <==> !SplitsTie(all, limit)
  {
    var c := LastOf(all, limit);
    TailIff(all, limit);
    BelowRows(all, c);
    if !SplitsTie(all, limit) {
      forall i | limit <= i < |all| ensures all[i] in Below(all, c) {
        assert Below(all, c)[i - limit] == all[i];
      }
    }
  }

  /** The next page goes on where the last one ended exactly when that one split no tie. */
  lemma NothingLostIff(t: Tables, q: Query, cursor: Option<int>)
    requires q.limit >= 1 && |Everything(t, q, cursor)| > q.limit
    ensures var all := Everything(t, q, cursor);
            var rest := Everything(t, q, Some(LastOf(all, q.limit)));
            && (rest == all[q.limit..] <==> !SplitsTie(all, q.limit))
            && ((forall i | q.limit <= i < |all| :: all[i] in rest) <==> !SplitsTie(all, q.limit))
  {
    NextPageStarts(t, q, cursor);
    EverythingMeans(t, q, cursor);
    TailIff(Everything(t, q, cursor), q.limit);
    RowsIff(Everything(t, q, cursor), q.limit);
  }

  // ------------------------------------------------------------------ Scroll

  /** The tables agree on the rows the query wants from before a moment. */
  ghost predicate SameBefore(t: Tables, t': Tables, q: Query, c: int) {
    forall r: Row | Wanted(q, r) && r.createdAt < c :: multiset(AllRows(t))[r] == multiset(AllRows(t'))[r]
  }

  /**
   * Rows that arrive after the cursor's moment, and whatever happens to rows
   * the query does not want, change no row below it - nor the page, if no two
   * rows there are of one moment.
   */
  lemma ArrivalsChangeNothing(t: Tables, t': Tables, q: Query, c: int)
    requires SameBefore(t, t', q, c) && q.limit >= 1
    ensures multiset(Everything(t, q, Some(c))) == multiset(Everything(t', q, Some(c)))
    ensures Descending(Everything(t, q, Some(c))) ==> List(t, q, Some(c)) == List(t', q, Some(c))
  {
    var one, two := Everything(t, q, Some(c)), Everything(t', q, Some(c));
    EverythingMeans(t, q, Some(c));
    EverythingMeans(t', q, Some(c));
    forall x: Row ensures multiset(one)[x] == multiset(two)[x] {
      CursorWindow(q, c, x.createdAt);
    }
    if Descending(one) {
      OnlyOrder(one, two);
      PageIsNewest(t, q, Some(c));
      PageIsNewest(t', q, Some(c));
    }
  }

  /**
   * A scroll: each page fetched from the tables as they are at that moment,
   * with the cursor the page before gave, until hasMore is false. Between
   * pages, of the rows the query wants only newer ones than the cursor change.
   */
  ghost predicate IsScroll(states: seq<Tables>, pages: seq<Page>, q: Query, cursor: Option<int>)
    decreases |pages|
  {
    && |states| == |pages| >= 1
    && pages[0] == List(states[0], q, cursor)
    && (pages[0].hasMore <==> |pages| > 1)
    && (|pages| > 1 ==>
          && pages[0].nextCursor.Some?
          && SameBefore(states[0], states[1], q, pages[0].nextCursor.value)
          && IsScroll(states[1..], pages[1..], q, pages[0].nextCursor))
  }

  function Delivered(pages: seq<Page>): seq<Row> {
    if pages == [] then [] else pages[0].data + Delivered(pages[1..])
  }

  /** The feed each page was cut from. */
  function Feeds(states: seq<Tables>, pages: seq<Page>, q: Query, cursor: Option<int>): (alls: seq<seq<Row>>)
    requires |states| == |pages|
    ensures |alls| == |pages|
    decreases |pages|
  {
    if pages == [] then []
    else [Everything(states[0], q, cursor)] + Feeds(states[1..], pages[1..], q, pages[0].nextCursor)
  }

  /** Pages cut from feeds, each but the first the rows from before the end of the page before, in some order. */
  ghost predicate IsPaging(alls: seq<seq<Row>>, pages: seq<Page>, limit: nat)
    requires limit >= 1
    decreases |pages|
  {
    && |alls| == |pages| >= 1
    && Sorted(alls[0])
    && IsPage(pages[0], alls[0], limit)
    && (|pages| > 1 <==> |alls[0]| > limit)
    && (|pages| > 1 ==>
          && multiset(alls[1]) == multiset(Below(alls[0], LastOf(alls[0], limit)))
          && IsPaging(alls[1..], pages[1..], limit))
  }

  /** No page of a scroll ends between two rows of one moment. */
  predicate NoTieSplit(alls: seq<seq<Row>>, limit: nat)
    requires limit >= 1
  {
    forall k | 0 <= k < |alls| :: !SplitsTie(alls[k], limit)
  }

  /** The feed after a page: the rows from before its end, whatever arrived meanwhile. */
  lemma ScrollOn(t: Tables, t': Tables, q: Query, cursor: Option<int>)
    requires q.limit >= 1 && |Everything(t, q, cursor)| > q.limit
    requires SameBefore(t, t', q, LastOf(Everything(t, q, cursor), q.limit))
    ensures var c := LastOf(Everything(t, q, cursor), q.limit);
            multiset(Everything(t', q, Some(c))) == multiset(Below(Everything(t, q, cursor), c))
  {
    NextPageStarts(t, q, cursor);
    ArrivalsChangeNothing(t, t', q, LastOf(Everything(t, q, cursor), q.limit));
  }

  lemma PagingCons(all: seq<Row>, alls: seq<seq<Row>>, pages: seq<Page>, limit: nat)
    requires |alls| + 1 == |pages| && 1 <= limit && Sorted(all) && IsPage(pages[0], all, limit)
    requires |pages| > 1 <==> |all| > limit
    requires |pages| > 1 ==>
               multiset(alls[0]) == multiset(Below(all, LastOf(all, limit))) && IsPaging(alls, pages[1..], limit)
    ensures IsPaging([all] + alls, pages, limit)
  {
    assert ([all] + alls)[0] == all && ([all] + alls)[1..] == alls;
  }

  lemma {:induction false} ScrollIsPaging(states: seq<Tables>, pages: seq<Page>, q: Query, cursor: Option<int>)
    requires q.limit >= 1 && IsScroll(states, pages, q, cursor)
    ensures IsPaging(Feeds(states, pages, q, cursor), pages, q.limit)
    ensures Feeds(states, pages, q, cursor)[0] == Everything(states[0], q, cursor)
    decreases |pages|
  {
    var all := Everything(states[0], q, cursor);
    PageIsNewest(states[0], q, cursor);
    EverythingMeans(states[0], q, cursor);
    var alls := Feeds(states[1..], pages[1..], q, pages[0].nextCursor);
    if |pages| > 1 {
      ScrollOn(states[0], states[1], q, cursor);
      ScrollIsPaging(states[1..], pages[1..], q, pages[0].nextCursor);
    }
    PagingCons(all, alls, pages, q.limit);
  }

  // -------------------------------------------------- What a paging delivers

  /** Nothing is delivered twice or out of order, and all of it exactly when no tie is split. */
  ghost predicate Covered(delivered: seq<Row>, all: seq<Row>, whole: bool) {
    && Sorted(delivered)
    && multiset(delivered) <= multiset(all)
    && |delivered| <= |all|
    && (|delivered| == |all| <==> whole)
    && (multiset(delivered) == multiset(all) <==> whole)
  }

  lemma SameLength(rows: seq<Row>, other: seq<Row>)
    requires multiset(rows) == multiset(other)
    ensures |rows| == |other|
  {
    assert |rows| == |multiset(rows)| == |multiset(other)| == |other|;
  }

  /** One page in front of a covered rest. */
  lemma CoveredOn(page: seq<Row>, later: seq<Row>, rest: seq<Row>, all: seq<Row>, k: nat, whole: bool)
    requires |page| <= k <= |all| && page == all[..|page|]
    requires multiset(rest) == multiset(all[k..]) && |rest| == |all| - k
    requires Covered(later, rest, whole) && Sorted(page + later)
    ensures Covered(page + later, all, whole && k == |page|)
  {
    var limit := |page|;
    assert all == page + all[limit..k] + all[k..];
    assert multiset(all) == multiset(page) + multiset(all[limit..k]) + multiset(all[k..]);
    assert multiset(page + later) == multiset(page) + multiset(later);
    if multiset(page + later) == multiset(all) {
      SameLength(page + later, all);
    }
    if whole && k == limit {
      assert all[limit..k] == [];
    }
  }

  lemma AllBefore(rows: seq<Row>, older: seq<Row>, c: int)
    requires multiset(rows) <= multiset(older) && forall i | 0 <= i < |older| :: older[i].createdAt < c
    ensures forall i | 0 <= i < |rows| :: rows[i].createdAt < c
  {
    forall i | 0 <= i < |rows| ensures rows[i].createdAt < c {
      assert rows[i] in multiset(rows);
      assert rows[i] in older;
    }
  }

  lemma SortedConcat(page: seq<Row>, later: seq<Row>, c: int)
    requires Sorted(page) && Sorted(later)
    requires forall i | 0 <= i < |page| :: page[i].createdAt >= c
    requires forall i | 0 <= i < |later| :: later[i].createdAt < c
    ensures Sorted(page + later)
  {
  }

  lemma PrefixSorted(all: seq<Row>, limit: nat)
    requires Sorted(all) && 1 <= limit <= |all|
    ensures Sorted(all[..limit])
    ensures forall i | 0 <= i < limit :: all[..limit][i].createdAt >= LastOf(all, limit)
  {
  }

  /** Rows from before the end of a sorted page keep it sorted. */
  lemma SortedOn(all: seq<Row>, limit: nat, older: seq<Row>, later: seq<Row>)
    requires Sorted(all) && 1 <= limit <= |all| && Sorted(later)
    requires forall i | 0 <= i < |older| :: older[i].createdAt < LastOf(all, limit)
    requires multiset(later) <= multiset(older)
    ensures Sorted(all[..limit] + later)
  {
    PrefixSorted(all, limit);
    AllBefore(later, older, LastOf(all, limit));
    SortedConcat(all[..limit], later, LastOf(all, limit));
  }

  lemma PageOn(all: seq<Row>, limit: nat, rest: seq<Row>, later: seq<Row>, whole: bool)
    requires Sorted(all) && 1 <= limit < |all|
    requires multiset(rest) == multiset(Below(all, LastOf(all, limit))) && Covered(later, rest, whole)
    ensures Covered(all[..limit] + later, all, whole && !SplitsTie(all, limit))
  {
    var c := LastOf(all, limit);
    TailIff(all, limit);
    SameLength(rest, Below(all, c));
    BelowRows(all, c);
    SortedOn(all, limit, Below(all, c), later);
    CoveredOn(all[..limit], later, rest, all, Reached(all, c), whole);
  }

  lemma PageStep(all: seq<Row>, limit: nat, rest: seq<Row>, pages: seq<Page>, whole: bool)
    requires Sorted(all) && 1 <= limit < |all| && |pages| > 1 && IsPage(pages[0], all, limit)
    requires multiset(rest) == multiset(Below(all, LastOf(all, limit))) && Covered(Delivered(pages[1..]), rest, whole)
    ensures Covered(Delivered(pages), all, whole && !SplitsTie(all, limit))
    ensures |Delivered(pages)| == limit + |Delivered(pages[1..])|
  {
    PageOn(all, limit, rest, Delivered(pages[1..]), whole);
  }

  lemma LastPageCovers(pages: seq<Page>, all: seq<Row>, limit: nat)
    requires limit >= 1 && |pages| == 1 && Sorted(all) && |all| <= limit && IsPage(pages[0], all, limit)
    ensures Delivered(pages) == all && Covered(all, all, true)
  {
    assert pages[1..] == [];
    assert Delivered(pages) == pages[0].data + [];
  }

  lemma NoTieSplitCons(alls: seq<seq<Row>>, limit: nat)
    requires limit >= 1 && alls != []
    ensures NoTieSplit(alls, limit) <==> !SplitsTie(alls[0], limit) && NoTieSplit(alls[1..], limit)
  {
    assert alls == [alls[0]] + alls[1..];
  }

  lemma {:induction false} PagingCovers(alls: seq<seq<Row>>, pages: seq<Page>, limit: nat)
    requires limit >= 1 && IsPaging(alls, pages, limit)
    ensures Covered(Delivered(pages), alls[0], NoTieSplit(alls, limit))
    ensures Rows(limit, |pages| - 1) <= |Delivered(pages)|
    decreases |pages|
  {
    NoTieSplitCons(alls, limit);
    if |pages| > 1 {
      PagingCovers(alls[1..], pages[1..], limit);
      PageStep(alls[0], limit, alls[1], pages, NoTieSplit(alls[1..], limit));
    } else {
      LastPageCovers(pages, alls[0], limit);
    }
  }

  /** The rows of a number of full pages. */
  function Rows(limit: nat, full: nat): nat {
    if full == 0 then 0 else limit + Rows(limit, full - 1)
  }

  /**
   * A scroll delivers the feed as it stood at its start, newest first, no row
   * twice - and every row exactly when no page splits a tie.
   */
  lemma ScrollDeliversIff(states: seq<Tables>, pages: seq<Page>, q: Query, cursor: Option<int>)
    requires q.limit >= 1 && IsScroll(states, pages, q, cursor)
    ensures Sorted(Delivered(pages))
    ensures multiset(Delivered(pages)) <= multiset(Everything(states[0], q, cursor))
    ensures multiset(Delivered(pages)) == multiset(Everything(states[0], q, cursor)) <==>
              NoTieSplit(Feeds(states, pages, q, cursor), q.limit)
    ensures Rows(q.limit, |pages| - 1) <= |Everything(states[0], q, cursor)|
  {
    ScrollIsPaging(states, pages, q, cursor);
    PagingCovers(Feeds(states, pages, q, cursor), pages, q.limit);
  }

  lemma {:induction false} NoTiesNoSplit(alls: seq<seq<Row>>, pages: seq<Page>, limit: nat)
    requires limit >= 1 && IsPaging(alls, pages, limit) && Descending(alls[0])
    ensures NoTieSplit(alls, limit)
    decreases |pages|
  {
    NoTieSplitCons(alls, limit);
    if |pages| > 1 {
      TailIff(alls[0], limit);
      OnlyOrder(Below(alls[0], LastOf(alls[0], limit)), alls[1]);
      NoTiesNoSplit(alls[1..], pages[1..], limit);
    }
  }

  /** With no two of the scrolled rows of one moment, the scroll is the feed itself, row for row. */
  lemma ScrollDeliversEverything(states: seq<Tables>, pages: seq<Page>, q: Query, cursor: Option<int>)
    requires q.limit >= 1 && IsScroll(states, pages, q, cursor)
    requires Descending(Everything(states[0], q, cursor))
    ensures Delivered(pages) == Everything(states[0], q, cursor)
  {
    ScrollIsPaging(states, pages, q, cursor);
    NoTiesNoSplit(Feeds(states, pages, q, cursor), pages, q.limit);
    PagingCovers(Feeds(states, pages, q, cursor), pages, q.limit);
    OnlyOrder(Everything(states[0], q, cursor), Delivered(pages));
  }

  /** Scrolling unchanged tables ends, ties or not. */
  lemma {:induction false} ScrollExists(t: Tables, q: Query, cursor: Option<int>)
    returns (states: seq<Tables>, pages: seq<Page>)
    requires q.limit >= 1
    ensures IsScroll(states, pages, q, cursor) && states[0] == t
    decreases |Everything(t, q, cursor)|
  {
    PageIsNewest(t, q, cursor);
    var page := List(t, q, cursor);
    if page.hasMore {
      NextPageStarts(t, q, cursor);
      EverythingMeans(t, q, cursor);
      TailIff(Everything(t, q, cursor), q.limit);
      var ss, ps := ScrollExists(t, q, page.nextCursor);
      states, pages := [t] + ss, [page] + ps;
      assert states[1..] == ss && pages[1..] == ps;
    } else {
      states, pages := [t], [page];
    }
  }

  /** The smallest loss: of two rows of one moment, one to a page, the second is never delivered. */
  lemma SplitTieIsLost(a: FeeEntry, b: FeeEntry, q: Query)
    requires a.createdAt == b.createdAt && a.user == b.user == q.user
    requires q == Query(q.user, FeesOnly, None, None, None, None, 1)
    ensures var t := Tables([], [], [a, b]);
            && SplitsTie(Everything(t, q, None), 1)
            && List(t, q, None) == Page([PresentFee(a)], Some(a.createdAt), true)
            && List(t, q, Some(a.createdAt)).data == []
  {
    var t := Tables([], [], [a, b]);
    var x, y := PresentFee(a), PresentFee(b);
    assert AllRows(t) == [x, y];
    assert [x, y][1..] == [y] && [y][1..] == [];
    assert Select([y], q, None) == [y] + [] && Select([x, y], q, None) == [x] + [y];
    assert Newest([y]) == Insert(y, []) == [y] + [];
    assert Newest([x] + [y]) == [x] + [y] by { assert [x] + [y] == [x, y]; }
    assert Select([y], q, Some(a.createdAt)) == [] + [] && Select([x, y], q, Some(a.createdAt)) == [];
    PageIsNewest(t, q, None);
    PageIsNewest(t, q, Some(a.createdAt));
  }
}
