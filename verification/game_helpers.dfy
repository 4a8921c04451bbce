/**
 * Arithmetic helpers (src/lib/game-helpers.ts): the random-integer oracle
 * and the value a pair of squares produces under an operation.
 */
module GameHelpers {
  import opened GameTypes

  /**
   * `randomInt(min, max)`. The source scales `Math.random()` into the
   * range; here the random source is the caller's `draw`, reduced into the
   * same set of outcomes. When `min <= max` that set is `[min, max]`; when
   * `max < min` the source's floor of a non-positive span yields a value in
   * `[max + 1, min]`, and so does this model.
   */
  function RandomInt(min: int, max: int, draw: nat): (r: int)
    ensures min <= max ==> min <= r <= max
    ensures max < min ==> max < r <= min
  {
    if min <= max then min + draw % (max - min + 1)
    else max + 1 + draw % (min - max)
  }

  /** Every value of the range is the outcome of some draw: `v` is drawn by `v - min`. */
  lemma RandomIntCovers(min: int, max: int, v: int)
    requires min <= v <= max
    ensures v - min >= 0 && RandomInt(min, max, v - min) == v
  {
    assert (v - min) % (max - min + 1) == v - min;
  }

  /**
   * The inverted range is covered too: when `max < min`, every value of
   * `[max + 1, min]` is the outcome of the draw `v - max - 1`.
   */
  lemma RandomIntCoversInverted(min: int, max: int, v: int)
    requires max < v <= min
    ensures v - max - 1 >= 0 && RandomInt(min, max, v - max - 1) == v
  {
    assert (v - max - 1) % (min - max) == v - max - 1;
  }

  /** Absolute value, as `Math.abs`. */
  function Abs(x: int): (r: int)
    ensures r >= 0 && (r == x || r == -x)
  {
    if x < 0 then -x else x
  }

  /**
   * `calculateTarget(op, val1, val2)`: the value the pair produces. For
   * subtraction it is the distance between the two values, never negative.
   */
  function CalculateTarget(op: Operation, val1: int, val2: int): (r: int)
    ensures op == Addition ==> r == val1 + val2
    ensures op == Subtraction ==> r >= 0 && (r == val1 - val2 || r == val2 - val1)
    ensures op == Multiplication ==> r == val1 * val2
  {
    if op == Addition then val1 + val2
    else if op == Subtraction then Abs(val1 - val2)
    else val1 * val2
  }

  /** The operand order never matters. */
  lemma CalculateTargetSymmetric(op: Operation, val1: int, val2: int)
    ensures CalculateTarget(op, val1, val2) == CalculateTarget(op, val2, val1)
  {
    if op == Multiplication {
      assert val1 * val2 == val2 * val1;
    }
  }
}
