/**
 * The easing of the lantern cursor (index.js:35-39): every animation frame
 * moves the drawn position 15% of the way toward the pointer.
 */
module Cursor {

  /** The interpolation factor of index.js:37. */
  const Ease: real := 0.15

  /**
   * One frame of easing along one axis. The gap to the target shrinks to
   * 85% of what it was, on the same side: the cursor never overshoots.
   */
  function EaseToward(current: real, target: real): (next: real)
    ensures target - next == (1.0 - Ease) * (target - current)
    ensures current <= target ==> current <= next <= target
    ensures target <= current ==> target <= next <= current
  {
    current + (target - current) * Ease
  }

  /** The position after n frames with the pointer held still at target. */
  function Glide(current: real, target: real, n: nat): (pos: real)
    ensures current <= target ==> current <= pos <= target
    ensures target <= current ==> target <= pos <= current
    decreases n
  {
    if n == 0 then current else Glide(EaseToward(current, target), target, n - 1)
  }

  /** (1 - Ease) raised to the power n. */
  function Shrink(n: nat): (f: real)
    ensures 0.0 < f <= 1.0
  {
    if n == 0 then 1.0 else (1.0 - Ease) * Shrink(n - 1)
  }

  /** After n frames the gap is exactly (0.85)^n of the gap before them. */
  lemma {:induction false} GlideGap(current: real, target: real, n: nat)
    ensures target - Glide(current, target, n) == Shrink(n) * (target - current)
    decreases n
  {
    if n > 0 {
      var next := EaseToward(current, target);
      GlideGap(next, target, n - 1);
      var f, gap := Shrink(n - 1), target - current;
      assert target - next == 0.85 * gap;
      assert f * (0.85 * gap) == (0.85 * f) * gap;
      assert Shrink(n) == 0.85 * f;
    }
  }

  /** While the cursor is not on the pointer, each frame strictly shrinks the gap. */
  lemma GapStrictlyShrinks(current: real, target: real)
    requires current != target
    ensures var next := EaseToward(current, target);
      if current < target then 0.0 < target - next < target - current
      else 0.0 < next - target < current - target
  {
  }
}
