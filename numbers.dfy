/**
 * JavaScript number idioms over exact reals: `Math.round`, rounding to one
 * decimal, and the `x || d` defaulting of possibly missing values.
 */
module Numbers {
  import opened Wrappers

  /** `Math.round(x)`: the nearest integer, halves rounded towards +infinity. */
  function Round(x: real): (r: int)
    ensures x - 0.5 < r as real <= x + 0.5
  {
    (x + 0.5).Floor
  }

  /** The bounds in Round's contract single out its result. */
  lemma RoundUnique(x: real, k: int)
    requires x - 0.5 < k as real <= x + 0.5
    ensures k == Round(x)
  {
  }

  /** r has at most one decimal and lies within a half-tenth of x, half-tenths going up. */
  ghost predicate RoundedTo1(r: real, x: real)
  {
    x - 0.05 < r <= x + 0.05 && (r * 10.0).Floor as real == r * 10.0
  }

  /** `Math.round(x * 10) / 10`: x rounded to one decimal place. */
  function Round1(x: real): (r: real)
    ensures RoundedTo1(r, x)
  {
    Round(x * 10.0) as real / 10.0
  }

  /** One-decimal rounding is a function: only Round1(x) is x rounded to one decimal. */
  lemma Round1Unique(r: real, x: real)
    requires RoundedTo1(r, x)
    ensures r == Round1(x)
  {
    var k := (r * 10.0).Floor;
    assert x * 10.0 - 0.5 < k as real <= x * 10.0 + 0.5;
    RoundUnique(x * 10.0, k);
  }

  /** A number that is neither missing nor 0 (NaN is left out). */
  predicate IntTruthy(n: Option<int>)
  {
    n.Some? && n.value != 0
  }

  predicate RealTruthy(n: Option<real>)
  {
    n.Some? && n.value != 0.0
  }

  predicate TextTruthy(s: Option<string>)
  {
    s.Some? && s.value != ""
  }

  /** `n || d` for an integer column. */
  function IntOr(n: Option<int>, d: int): int
  {
    if IntTruthy(n) then n.value else d
  }

  /** `n || d` for a real column. */
  function RealOr(n: Option<real>, d: real): real
  {
    if RealTruthy(n) then n.value else d
  }

  /** `s || d` for a text column. */
  function TextOr(s: Option<string>, d: string): string
  {
    if TextTruthy(s) then s.value else d
  }

  /** `n || null` for a nullable integer column: 0 becomes null. */
  function IntOrNull(n: Option<int>): Option<int>
  {
    if IntTruthy(n) then n else None
  }

  /** `n || null` for a nullable real column: 0 becomes null. */
  function RealOrNull(n: Option<real>): Option<real>
  {
    if RealTruthy(n) then n else None
  }

  /** `s || null` for a nullable text column: "" becomes null. */
  function TextOrNull(s: Option<string>): Option<string>
  {
    if TextTruthy(s) then s else None
  }

  /** `n || 0` read as a number: a missing value counts as 0. */
  function IntOrZero(n: Option<int>): (r: int)
    ensures n.Some? ==> r == n.value
    ensures n.None? ==> r == 0
  {
    IntOr(n, 0)
  }

  /** `n || 0` read as a number: a missing value counts as 0. */
  function RealOrZero(n: Option<real>): (r: real)
    ensures n.Some? ==> r == n.value
    ensures n.None? ==> r == 0.0
  {
    RealOr(n, 0.0)
  }
}
