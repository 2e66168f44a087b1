/**
 * JavaScript integer arithmetic that differs from Dafny's: `%` keeps the
 * sign of the dividend and `x / k >> 0` truncates toward zero (within the
 * signed 32-bit range, where `>> 0` does not wrap), where Dafny's `/` and
 * `%` are Euclidean.
 */
module JsArith {

  function Abs(x: int): (r: nat)
    ensures r == x || r == -x
  {
    if x < 0 then -x else x
  }

  /**
   * `x / k >> 0` for a positive divisor and a quotient in the signed 32-bit
   * range: the quotient truncated toward zero. Outside that range `>> 0`
   * also wraps modulo 2^32, which this function does not do.
   */
  function TruncDiv(x: int, k: int): (q: int)
    requires k > 0
    ensures Abs(q) == Abs(x) / k
    ensures q == 0 || (q < 0 <==> x < 0)
  {
    if x >= 0 then x / k else -((-x) / k)
  }

  /** `x % k` for a positive divisor: the remainder with the sign of x. */
  function TruncRem(x: int, k: int): (r: int)
    requires k > 0
    ensures x == k * TruncDiv(x, k) + r
    ensures -k < r < k
    ensures r == 0 || (r < 0 <==> x < 0)
  {
    if x >= 0 then x % k else -((-x) % k)
  }
}
