/**
 * What the page computation promises: the retained index is the floor or the
 * ceiling of x / width, picked by the drag direction; a drag that stays within
 * one page of a settled start keeps reporting the start page (no flicker at the
 * midpoint); on a settled page both modes agree.
 */
module PagingLemmas {
  import opened Options
  import opened Paging

  /** The step of the page grid: a page further right starts at least one width later. */
  lemma PagesApart(r: int, p: int, width: int)
    requires width > 0 && r < p
    ensures r * width + width <= p * width
  {
    var d := p - r - 1;
    assert d >= 0;
    assert d * width >= 0;
    assert p * width == r * width + width + d * width;
  }

  /** Only one integer r has r * width <= x < r * width + width. */
  lemma UniqueFloor(r: int, p: int, width: int, x: int)
    requires width > 0
    requires r * width <= x < r * width + width
    requires p * width <= x < p * width + width
    ensures r == p
  {
    if r < p {
      PagesApart(r, p, width);
    } else if p < r {
      PagesApart(p, r, width);
    }
  }

  /** The retained index is the floor (drag to the right) or the ceiling (otherwise) of x / width. */
  lemma RetainedIndexBrackets(x: int, width: int, start: Option<int>)
    requires width > 0
    ensures var r := RetainedIndex(x, width, start);
      r * width - width < x < r * width + width &&
      (start.Some? && start.value < x ==> r * width <= x) &&
      (start.Some? && x <= start.value ==> x <= r * width) &&
      (start.None? ==> (0 <= x ==> r * width <= x) && (x < 0 ==> x <= r * width))
  {
  }

  /**
   * Retained mode does not flicker: while a drag that started on a settled
   * page p stays less than one page away from its start, the displayed index
   * stays p, even past the midpoint where rounding would already switch.
   */
  lemma RetainedStaysOnStartPage(p: int, width: int, x: int)
    requires width > 0
    requires p * width - width < x < p * width + width
    ensures RetainedIndex(x, width, Some(p * width)) == p
  {
    var r := RetainedIndex(x, width, Some(p * width));
    if p * width < x {
      UniqueFloor(r, p, width, x);
    } else {
      UniqueFloor(-r, -p, width, -x);
    }
  }

  /** On a settled page both modes, and the no-drag fallback, report that page. */
  lemma SettledPageAgrees(p: int, width: int, start: Option<int>)
    requires width > 0
    ensures DisplayedIndex(p * width, width, true, start) == p
    ensures DisplayedIndex(p * width, width, false, start) == p
  {
    var x := p * width;
    var r := RoundDiv(x, width);
    if r < p {
      PagesApart(r, p, width);
    } else if r > p {
      PagesApart(p, r, width);
    }
    var q := RetainedIndex(x, width, start);
    if q < p {
      PagesApart(q, p, width);
    } else if q > p {
      PagesApart(p, q, width);
    }
  }
}
