/** `MulPowerOfTen` for the integer types (src/lib.rs:18-39): a negative
    exponent multiplies by `10^-exp`, any other exponent divides by `10^exp`
    with Rust's truncating `/`. The floating-point implementations are not
    part of this model. */
module PowerOfTen {
  import opened RustInt

  /** What `v.mul_power_of_ten(exp)` needs to run without a panic on the type
      `k`: `exp` is an `i8` whose negation is also one (`-exp` is computed in
      `i8`), `10.pow(|exp|)` fits in `k`, and so does the product when the
      exponent is negative. */
  predicate CanScale(k: IntKind, v: int, exp: int)
  {
    InKind(k, v) && IsI8(exp) && exp != -128 && Pow10(Abs(exp)) <= MaxOf(k)
    && (exp < 0 ==> InKind(k, v * Pow10(-exp)))
  }

  function MulPowerOfTen(k: IntKind, v: int, exp: int): (r: int)
    requires CanScale(k, v, exp)
    ensures InKind(k, r)
    ensures exp < 0 ==> r == v * Pow10(-exp)
    ensures exp >= 0 ==> IsTruncQuotient(v, Pow10(exp), r)
    ensures exp >= 0 ==> Abs(r) <= Abs(v) && (v >= 0 ==> r >= 0) && (v <= 0 ==> r <= 0)
  {
    if exp < 0 then
      v * Pow10(-exp)
    else
      TruncDiv(v, Pow10(exp))
  }

  /** The examples of the crate's own test (src/lib.rs:504-509), and one that
      shows the rounding is toward zero: `-15 / 10` is `-1`, not `-2`. */
  lemma ScalingExamples()
    ensures MinOf(I32) == -2147483648 && MaxOf(I32) == 2147483647
    ensures MulPowerOfTen(I32, 5, -3) == 5000
    ensures MulPowerOfTen(I32, 5000, 3) == 5
    ensures MulPowerOfTen(I32, 42, 0) == 42
    ensures MulPowerOfTen(I32, -15, 1) == -1
  {
    I32Bounds();
    assert Pow10(3) == 1000;
    TruncDivExact(5, 1000);
    TruncQuotientUnique(-15, 10, -1);
  }

  /** Scaling up by `10^e` and then down by `10^e` is exact. */
  lemma RefineThenCoarsen(k: IntKind, v: int, e: int)
    requires 0 < e && CanScale(k, v, -e)
    ensures CanScale(k, MulPowerOfTen(k, v, -e), e)
    ensures MulPowerOfTen(k, MulPowerOfTen(k, v, -e), e) == v
  {
    TruncDivExact(v, Pow10(e));
  }

  /** Scaling down and then up again rounds `v` toward zero to a multiple of
      `10^e`: what is lost is less than `10^e` and has the sign of `v`. */
  lemma CoarsenThenRefine(k: IntKind, v: int, e: int)
    requires 0 < e && CanScale(k, v, e)
    ensures CanScale(k, MulPowerOfTen(k, v, e), -e)
    ensures var back := MulPowerOfTen(k, MulPowerOfTen(k, v, e), -e);
      Abs(v - back) < Pow10(e) && (v >= 0 ==> 0 <= back <= v) && (v <= 0 ==> v <= back <= 0)
  {
    var q := MulPowerOfTen(k, v, e);
    RoundTowardZero(v, Pow10(e), q);
    assert MinOf(k) <= 0 <= MaxOf(k);
    assert InKind(k, q * Pow10(e));
  }

  lemma RoundTowardZero(v: int, p: int, q: int)
    requires p >= 1 && IsTruncQuotient(v, p, q)
    requires (v >= 0 ==> q >= 0) && (v <= 0 ==> q <= 0)
    ensures Abs(v - q * p) < p
    ensures v >= 0 ==> 0 <= q * p <= v
    ensures v <= 0 ==> v <= q * p <= 0
  {
    if v >= 0 {
      MulGe(q, p);
    } else {
      MulGe(-q, p);
      assert (-q) * p == -(q * p);
    }
  }

  /** Scaling down first loses the remainder: 5 at `10^3` is 0, and 0 scaled
      back up is 0, not 5. */
  lemma CoarsenFirstIsLossy()
    ensures MinOf(I32) == -2147483648 && MaxOf(I32) == 2147483647
    ensures MulPowerOfTen(I32, MulPowerOfTen(I32, 5, 3), -3) == 0
  {
    I32Bounds();
    TruncQuotientUnique(5, 1000, 0);
  }
}
