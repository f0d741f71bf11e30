/**
 * The displayed-page computation of scrollViewDidScroll with exact integer
 * offsets: the raw page is x / width, and the source turns it into an Int by
 * `rounded()` (nearest, halves away from zero), by `rounded(.down)` or
 * `rounded(.up)` (retained mode, depending on the drag direction), or by the
 * truncating `Int(_)` conversion alone (retained mode before any drag).
 */
module Paging {
  import opened Options

  /** `(x / width).rounded(.down)`; Dafny's `/` floors for a positive divisor. */
  function FloorDiv(x: int, width: int): (r: int)
    requires width > 0
    ensures r * width <= x < r * width + width
  {
    x / width
  }

  /** `(x / width).rounded(.up)` */
  function CeilDiv(x: int, width: int): (r: int)
    requires width > 0
    ensures r * width - width < x <= r * width
  {
    -((-x) / width)
  }

  /** `Int(x / width)`: Swift's conversion truncates toward zero. */
  function TruncDiv(x: int, width: int): (r: int)
    requires width > 0
    ensures 0 <= x ==> 0 <= r && r * width <= x < r * width + width
    ensures x < 0 ==> r <= 0 && r * width - width < x <= r * width
  {
    if x >= 0 then
      var r := FloorDiv(x, width);
      NonNegativeQuotient(x, r, width);
      r
    else
      var r := CeilDiv(x, width);
      NonPositiveQuotient(x, r, width);
      r
  }

  /** A page that reaches past a non-negative offset has a non-negative index. */
  lemma NonNegativeQuotient(x: int, r: int, width: int)
    requires width > 0 && 0 <= x < r * width + width
    ensures 0 <= r
  {
    assert (r + 1) * width == r * width + width;
    PositiveFactor(r + 1, width);
  }

  /** A page that starts before a negative offset has an index of at most zero. */
  lemma NonPositiveQuotient(x: int, r: int, width: int)
    requires width > 0 && r * width - width < x < 0
    ensures r <= 0
  {
    assert (1 - r) * width == width - r * width;
    PositiveFactor(1 - r, width);
  }

  lemma PositiveFactor(a: int, b: int)
    requires b > 0 && a * b > 0
    ensures a > 0
  {
    if a <= 0 {
      NonPositiveProduct(a, b);
    }
  }

  lemma NonPositiveProduct(a: int, b: int)
    requires a <= 0 && b > 0
    ensures a * b <= 0
  {
  }

  /** `(x / width).rounded()`: to nearest, a half goes away from zero. */
  function RoundDiv(x: int, width: int): (r: int)
    requires width > 0
    ensures 2 * (x - r * width) <= width && 2 * (r * width - x) <= width
    ensures 2 * (r * width - x) == width ==> x > 0
    ensures 2 * (x - r * width) == width ==> x < 0
  {
    if x >= 0 then FloorDiv(2 * x + width, 2 * width)
    else -FloorDiv(2 * (-x) + width, 2 * width)
  }

  /**
   * `Int(getRetainedIndex(x / width, x: x))`: with a recorded drag start,
   * floor when the drag went right of it and ceil otherwise; without one, the
   * unrounded page truncated by `Int(_)`.
   */
  function RetainedIndex(x: int, width: int, start: Option<int>): int
    requires width > 0
  {
    match start
    case None => TruncDiv(x, width)
    case Some(startX) => if startX < x then FloorDiv(x, width) else CeilDiv(x, width)
  }

  /** The index scrollViewDidScroll computes for content offset `x`. */
  function DisplayedIndex(x: int, width: int, shouldRound: bool, start: Option<int>): int
    requires width > 0
  {
    if shouldRound then RoundDiv(x, width) else RetainedIndex(x, width, start)
  }
}
