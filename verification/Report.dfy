/** Rounding a pass rate to five percentage points, half up (report.ts). */
module Report {
  import opened Base

  datatype RangeError = BadCounts

  /** None for no attempts; integer division is exact here because nothing is negative. */
  function Pass1Rounded(solved: int, attempted: int): Result<Option<int>, RangeError> {
    if solved < 0 || attempted < 0 || solved > attempted then Err(BadCounts)
    else if attempted == 0 then Ok(None)
    else Ok(Some((40 * solved + attempted) / (2 * attempted) * 5))
  }

  /** r percent is within half a step of solved/attempted, the upper half excluded. */
  predicate Nearest(r: int, solved: int, attempted: int) {
    r % 5 == 0 && -5 * attempted < 2 * r * attempted - 200 * solved <= 5 * attempted
  }

  lemma Gap(g: int, a: int)
    requires a > 0
    ensures g >= 1 ==> g * a >= a
    ensures g <= 0 ==> g * a <= 0
  {
    if g >= 1 { assert g * a == a + (g - 1) * a; } else { assert (-g) * a == -(g * a); }
  }

  lemma Multiples(x: int, y: int, a: int)
    requires a > 0
    ensures x < y ==> x * a + a <= y * a
    ensures x * a < y * a ==> x < y
  {
    Gap(y - x, a);
    assert (y - x) * a == y * a - x * a;
  }

  /** The result is the one multiple of 5 nearest to the pass rate, ties upward, and lies in 0..100. */
  lemma RoundedIsNearest(solved: int, attempted: int, r: int)
    requires 0 <= solved <= attempted && attempted > 0
    ensures Pass1Rounded(solved, attempted) == Ok(Some(r)) <==> Nearest(r, solved, attempted)
    ensures Nearest(r, solved, attempted) ==> 0 <= r <= 100
  {
    var d := 2 * attempted;
    var n := 40 * solved + attempted;
    var q := n / d;
    assert n == q * d + n % d;
    var k := r / 5;
    if r % 5 == 0 {
      assert 2 * r * attempted == 5 * (k * d);
      assert Nearest(r, solved, attempted) <==> k * d <= n < k * d + d;
      Multiples(k, q, d);
      Multiples(q, k, d);
      Multiples(k, 20, d);
      Multiples(20, k, d);
      Multiples(k, 0, d);
      Multiples(k, -1, d);
      assert Nearest(r, solved, attempted) <==> k == q;
    }
  }

  /** More solved tasks never round to less. */
  lemma RoundedIsMonotone(s: int, t: int, attempted: int)
    requires 0 <= s <= t <= attempted && attempted > 0
    ensures Pass1Rounded(s, attempted).value.value <= Pass1Rounded(t, attempted).value.value
  {
    var d := 2 * attempted;
    var p, q := (40 * s + attempted) / d, (40 * t + attempted) / d;
    assert 40 * s + attempted == p * d + (40 * s + attempted) % d;
    assert 40 * t + attempted == q * d + (40 * t + attempted) % d;
    Multiples(q, p, d);
  }

  /** The report schema: counts in range, a percentage in steps of 5 or null, and the two consistent. */
  predicate OutcomeAccepted(attempted: int, solved: int, percent: Option<int>) {
    && attempted >= 0 && solved >= 0 && solved <= attempted
    && (percent.Some? ==> 0 <= percent.value <= 100 && percent.value % 5 == 0)
    && Pass1Rounded(solved, attempted) == Ok(percent)
  }

  /**
   * For counts in range the schema accepts exactly one value: null without attempts, else the nearest
   * step. Any other counts are refused, by the rounding as well.
   */
  lemma OutcomeExactly(attempted: int, solved: int, percent: Option<int>)
    ensures OutcomeAccepted(attempted, solved, percent)
            <==> && 0 <= solved <= attempted
                 && if attempted == 0 then percent == None
                    else percent.Some? && Nearest(percent.value, solved, attempted)
    ensures Pass1Rounded(solved, attempted).Err? <==> solved < 0 || attempted < 0 || attempted < solved
  {
    if 0 <= solved <= attempted && attempted > 0 && percent.Some? {
      RoundedIsNearest(solved, attempted, percent.value);
    }
  }
}
