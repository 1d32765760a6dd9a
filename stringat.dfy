/**
 * The fallback `String.prototype.at(n)`: `n` is truncated towards zero (NaN
 * becomes 0), a negative index counts back from the end, and an index
 * outside the string gives `undefined`.
 */
module StringAt {
  import opened Wrappers

  /** A JavaScript number: finite, NaN, or one of the two infinities. */
  datatype Number = Real(x: real) | NaN | PositiveInfinity | NegativeInfinity

  /** `Math.trunc` on a finite number: drop the fraction, rounding towards zero. */
  function Trunc(x: real): (k: int)
    ensures x >= 0.0 ==> k as real <= x < k as real + 1.0
    ensures x < 0.0 ==> k as real - 1.0 < x <= k as real
  {
    if x >= 0.0 then x.Floor else -((-x).Floor)
  }

  /** The index after `Math.trunc(n) || 0`: an integer, or an infinity that survives it. */
  datatype Index = Integer(k: int) | Infinite(positive: bool)

  function TruncIndex(n: Number): Index
  {
    match n
    case Real(x) => Integer(Trunc(x))
    case NaN => Integer(0)
    case PositiveInfinity => Infinite(true)
    case NegativeInfinity => Infinite(false)
  }

  /** `at(n)` on the string `s`; `None` is `undefined`. */
  function At(s: string, n: Number): (r: Option<char>)
    ensures n.Real? && 0 <= Trunc(n.x) < |s| ==> r == Some(s[Trunc(n.x)])
    ensures n.Real? && -|s| <= Trunc(n.x) < 0 ==> r == Some(s[|s| + Trunc(n.x)])
    ensures n.Real? && (Trunc(n.x) >= |s| || Trunc(n.x) < -|s|) ==> r.None?
    ensures n.NaN? ==> r == if s == [] then None else Some(s[0])
    ensures n.PositiveInfinity? || n.NegativeInfinity? ==> r.None?
  {
    match TruncIndex(n)
    case Infinite(_) => None
    case Integer(k) =>
      var i := if k < 0 then k + |s| else k;
      if i < 0 || i >= |s| then None else Some(s[i])
  }

  /** The result is `undefined` exactly when the truncated index lies outside `[-|s|, |s|)`. */
  lemma AtDefined(s: string, n: Number)
    ensures At(s, n).Some? <==> (n.Real? && -|s| <= Trunc(n.x) < |s|) || (n.NaN? && s != [])
  {
  }

  /** Counting from the front or from the back reaches the same character. */
  lemma AtFromEnd(s: string, k: int)
    requires 0 <= k < |s|
    ensures At(s, Real(k as real)) == At(s, Real((k - |s|) as real)) == Some(s[k])
  {
    assert Trunc(k as real) == k;
    assert Trunc((k - |s|) as real) == k - |s|;
  }

  /** A fraction is dropped towards zero, so `at(-0.5)` is the first character, not the last. */
  lemma AtTruncatesTowardZero(s: string, x: real)
    requires -1.0 < x < 1.0
    ensures At(s, Real(x)) == At(s, NaN)
  {
    assert Trunc(x) == 0;
  }
}
