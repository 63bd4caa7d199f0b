/**
 * The `Pagination` component: the window of page buttons, with `"..."` gaps,
 * built from `(currentPage, totalPages)`, and the Previous/Next buttons.
 */
module Pagination {

  /** One entry of the `pages` array: a page number or the `"..."` marker. */
  datatype PageItem = Num(n: int) | Gap

  /** The most entries a window has (and the largest page count shown in full). */
  const MaxButtons := 7

  /** `[Num(lo), Num(lo + 1), ..., Num(hi - 1)]` */
  function Run(lo: int, hi: int): (r: seq<PageItem>)
    ensures |r| == if hi <= lo then 0 else hi - lo
    ensures forall i :: 0 <= i < |r| ==> r[i] == Num(lo + i)
    decreases hi - lo
  {
    if hi <= lo then [] else Run(lo, hi - 1) + [Num(hi - 1)]
  }

  /** The window the component renders, by its three branches. */
  function Window(currentPage: int, totalPages: int): (r: seq<PageItem>)
    ensures |r| <= MaxButtons
    ensures totalPages >= 1 ==> |r| >= 1 && r[0] == Num(1) && r[|r| - 1] == Num(totalPages)
    ensures totalPages < 1 ==> r == []
  {
    if totalPages <= MaxButtons then Run(1, totalPages + 1)
    else if currentPage <= 4 then
      [Num(1), Num(2), Num(3), Num(4), Num(5), Gap, Num(totalPages)]
    else if currentPage >= totalPages - 3 then
      [Num(1), Gap, Num(totalPages - 4), Num(totalPages - 3), Num(totalPages - 2), Num(totalPages - 1), Num(totalPages)]
    else
      [Num(1), Gap, Num(currentPage - 1), Num(currentPage), Num(currentPage + 1), Gap, Num(totalPages)]
  }

  /** Builds `pages` as the component does: a counting loop for small page counts, one push otherwise. */
  method BuildPages(currentPage: int, totalPages: int) returns (pages: seq<PageItem>)
    ensures pages == Window(currentPage, totalPages)
  {
    pages := [];
    if totalPages <= MaxButtons {
      var i := 1;
      while i <= totalPages
        invariant 1 <= i <= if totalPages < 1 then 1 else totalPages + 1
        invariant pages == Run(1, i)
      {
        pages := pages + [Num(i)];
        i := i + 1;
      }
    } else if currentPage <= 4 {
      pages := pages + [Num(1), Num(2), Num(3), Num(4), Num(5), Gap, Num(totalPages)];
    } else if currentPage >= totalPages - 3 {
      pages := pages + [Num(1), Gap, Num(totalPages - 4), Num(totalPages - 3), Num(totalPages - 2), Num(totalPages - 1), Num(totalPages)];
    } else {
      pages := pages + [Num(1), Gap, Num(currentPage - 1), Num(currentPage), Num(currentPage + 1), Gap, Num(totalPages)];
    }
  }

  // ---------------------------------------------------------------------
  // Shape of the window
  // ---------------------------------------------------------------------

  /** The page numbers strictly increase from left to right. */
  ghost predicate Increasing(w: seq<PageItem>) {
    forall i, j :: 0 <= i < j < |w| && w[i].Num? && w[j].Num? ==> w[i].n < w[j].n
  }

  /** Every page number lies in `[1, totalPages]`. */
  ghost predicate InRange(w: seq<PageItem>, totalPages: int) {
    forall i :: 0 <= i < |w| && w[i].Num? ==> 1 <= w[i].n <= totalPages
  }

  /** The gap at index `i` stands between two page numbers and hides at least one page. */
  ghost predicate HidesPages(w: seq<PageItem>, i: int) {
    0 < i < |w| - 1 && w[i - 1].Num? && w[i + 1].Num? && w[i + 1].n - w[i - 1].n >= 2
  }

  /** Every gap hides at least one page (so no two gaps are adjacent and none is at an end). */
  ghost predicate GapsHidePages(w: seq<PageItem>) {
    forall i :: 0 <= i < |w| && w[i].Gap? ==> HidesPages(w, i)
  }

  /** Page `p` has a button, or lies strictly inside a gap. */
  ghost predicate Accounted(w: seq<PageItem>, p: int) {
    Num(p) in w || exists i :: HidesPages(w, i) && w[i].Gap? && w[i - 1].n < p < w[i + 1].n
  }

  /** With at most seven pages, the window is every page, in order, with no gap. */
  lemma SmallWindowIsAllPages(currentPage: int, totalPages: int)
    requires 0 <= totalPages <= MaxButtons
    ensures var w := Window(currentPage, totalPages);
            |w| == totalPages && forall i :: 0 <= i < |w| ==> w[i] == Num(i + 1)
  {
  }

  /** With more than seven pages, the window has seven entries, from page 1 to the last page. */
  lemma LargeWindowShape(currentPage: int, totalPages: int)
    requires totalPages > MaxButtons
    ensures var w := Window(currentPage, totalPages);
            |w| == MaxButtons && w[0] == Num(1) && w[|w| - 1] == Num(totalPages)
  {
  }

  /** Page numbers increase and stay in range; every gap hides at least one page. */
  lemma WindowWellFormed(currentPage: int, totalPages: int)
    ensures var w := Window(currentPage, totalPages);
            Increasing(w) && InRange(w, totalPages) && GapsHidePages(w) && |w| <= MaxButtons
  {
    var w := Window(currentPage, totalPages);
    if totalPages <= MaxButtons {
      assert forall i :: 0 <= i < |w| ==> w[i] == Num(1 + i);
    } else if currentPage <= 4 {
      assert w == [Num(1), Num(2), Num(3), Num(4), Num(5), Gap, Num(totalPages)];
      assert HidesPages(w, 5);
    } else if currentPage >= totalPages - 3 {
      assert w[1] == Gap && HidesPages(w, 1);
    } else {
      assert HidesPages(w, 1) && HidesPages(w, 5);
    }
  }

  /** The current page, when it is a real page, always has a button. */
  lemma WindowShowsCurrent(currentPage: int, totalPages: int)
    requires 1 <= currentPage <= totalPages
    ensures Num(currentPage) in Window(currentPage, totalPages)
  {
    var w := Window(currentPage, totalPages);
    if totalPages <= MaxButtons {
      assert w[currentPage - 1] == Num(currentPage);
    } else if currentPage <= 4 {
      assert w[currentPage - 1] == Num(currentPage);
    } else if currentPage >= totalPages - 3 {
      assert w[currentPage - totalPages + 6] == Num(currentPage);
    } else {
      assert w[3] == Num(currentPage);
    }
  }

  /** No page is lost: each page from 1 to `totalPages` has a button or lies inside a gap. */
  lemma WindowAccountsForEveryPage(currentPage: int, totalPages: int, p: int)
    requires 1 <= p <= totalPages
    ensures Accounted(Window(currentPage, totalPages), p)
  {
    var w := Window(currentPage, totalPages);
    if totalPages <= MaxButtons {
      assert w[p - 1] == Num(p);
    } else if currentPage <= 4 {
      if p <= 5 {
        assert w[p - 1] == Num(p);
      } else if p == totalPages {
        assert w[6] == Num(p);
      } else {
        assert HidesPages(w, 5) && w[5].Gap?;
      }
    } else if currentPage >= totalPages - 3 {
      if p == 1 {
        assert w[0] == Num(p);
      } else if p >= totalPages - 4 {
        assert w[p - totalPages + 6] == Num(p);
      } else {
        assert HidesPages(w, 1) && w[1].Gap?;
      }
    } else {
      if p == 1 {
        assert w[0] == Num(p);
      } else if p < currentPage - 1 {
        assert HidesPages(w, 1) && w[1].Gap?;
      } else if p <= currentPage + 1 {
        assert w[p - currentPage + 3] == Num(p);
      } else if p < totalPages {
        assert HidesPages(w, 5) && w[5].Gap?;
      } else {
        assert w[6] == Num(p);
      }
    }
  }

  // ---------------------------------------------------------------------
  // Previous and Next
  // ---------------------------------------------------------------------

  /** `disabled={currentPage === 1}` on Previous */
  predicate PrevDisabled(currentPage: int): (r: bool)
    ensures currentPage >= 1 ==> (r <==> PrevTarget(currentPage) < 1)
  {
    currentPage == 1
  }

  /** `disabled={currentPage === totalPages}` on Next */
  predicate NextDisabled(currentPage: int, totalPages: int): (r: bool)
    ensures currentPage <= totalPages ==> (r <==> NextTarget(currentPage) > totalPages)
  {
    currentPage == totalPages
  }

  /** The page Previous asks for. */
  function PrevTarget(currentPage: int): (r: int)
    ensures r < currentPage && currentPage - r == 1
  {
    currentPage - 1
  }

  /** The page Next asks for. */
  function NextTarget(currentPage: int): (r: int)
    ensures r > currentPage && r - currentPage == 1
  {
    currentPage + 1
  }

  /** From a real page, an enabled Previous or Next asks for a real page, one step away. */
  lemma NavigationStaysInRange(currentPage: int, totalPages: int)
    requires 1 <= currentPage <= totalPages
    ensures !PrevDisabled(currentPage) ==> 1 <= PrevTarget(currentPage) <= totalPages
    ensures PrevDisabled(currentPage) <==> currentPage - 1 < 1
    ensures !NextDisabled(currentPage, totalPages) ==> 1 <= NextTarget(currentPage) <= totalPages
    ensures NextDisabled(currentPage, totalPages) <==> currentPage + 1 > totalPages
  {
  }
}
