/** Rust's primitive integer semantics that the library relies on: the value
    ranges of the integer types, `/` (which truncates toward zero) and powers
    of ten. */
module RustInt {

  /** The integer types for which the library implements power-of-ten scaling
      (src/lib.rs:39). There is no `i128` in that list. `isize` is taken to be
      64 bits wide. */
  datatype IntKind = I8 | I16 | I32 | I64 | ISize | U8 | U16 | U32 | U64 | U128

  /** The width of the type in bits. */
  function Bits(k: IntKind): (r: nat)
    ensures 8 <= r <= 128
  {
    match k
    case I8 => 8
    case I16 => 16
    case I32 => 32
    case I64 => 64
    case ISize => 64
    case U8 => 8
    case U16 => 16
    case U32 => 32
    case U64 => 64
    case U128 => 128
  }

  predicate Signed(k: IntKind)
  {
    k.I8? || k.I16? || k.I32? || k.I64? || k.ISize?
  }

  function Pow2(n: nat): (r: int)
    ensures r >= 1
  {
    if n == 0 then 1 else 2 * Pow2(n - 1)
  }

  /** The least value of the type: negative for a signed type, 0 otherwise. */
  function MinOf(k: IntKind): (r: int)
    ensures Signed(k) ==> r < 0
    ensures !Signed(k) ==> r == 0
  {
    if Signed(k) then -Pow2(Bits(k) - 1) else 0
  }

  /** The greatest value of the type. A signed type has one more negative
      value than positive ones (two's complement). */
  function MaxOf(k: IntKind): (r: int)
    ensures r >= 0
    ensures Signed(k) ==> r == -MinOf(k) - 1
  {
    if Signed(k) then Pow2(Bits(k) - 1) - 1 else Pow2(Bits(k)) - 1
  }

  /** `v` is a value of the Rust type `k`. */
  predicate InKind(k: IntKind, v: int)
  {
    MinOf(k) <= v <= MaxOf(k)
  }

  /** A value of `i8`, the type of every exponent in a unit descriptor. */
  predicate IsI8(v: int)
  {
    -128 <= v <= 127
  }

  lemma I8Bounds()
    ensures MinOf(I8) == -128 && MaxOf(I8) == 127
    ensures forall v :: IsI8(v) <==> InKind(I8, v)
  {
    assert Pow2(7) == 128;
  }

  /** The range of `i32`, which the crate's own tests use. */
  lemma I32Bounds()
    ensures MinOf(I32) == -2147483648 && MaxOf(I32) == 2147483647
  {
    assert Pow2(8) == 256 && Pow2(7) == 128;
    Pow2Add(8, 8);
    Pow2Add(16, 8);
    Pow2Add(24, 7);
  }

  /** `2^a * 2^b == 2^(a+b)`. */
  lemma {:induction false} Pow2Add(a: nat, b: nat)
    ensures Pow2(a) * Pow2(b) == Pow2(a + b)
  {
    if a > 0 {
      Pow2Add(a - 1, b);
      assert Pow2(a) * Pow2(b) == 2 * (Pow2(a - 1) * Pow2(b));
    }
  }

  function Abs(a: int): (r: nat)
    ensures r == a || r == -a
  {
    if a < 0 then -a else a
  }

  function Pow10(n: nat): (r: int)
    ensures r >= 1
  {
    if n == 0 then 1 else 10 * Pow10(n - 1)
  }

  /** `q` is the quotient of `a / b` under truncation toward zero: the
      remainder `a - q * b` is smaller than the divisor in magnitude and never
      has the opposite sign of the dividend. This is Rust's `/` on integers. */
  ghost predicate IsTruncQuotient(a: int, b: int, q: int)
  {
    var rem := a - q * b;
    Abs(rem) < Abs(b) && (a >= 0 ==> rem >= 0) && (a <= 0 ==> rem <= 0)
  }

  /** Rust's integer division `a / b`. Dafny's own `/` is Euclidean, so the
      magnitudes are divided and the sign is put back afterwards. */
  function TruncDiv(a: int, b: int): (q: int)
    requires b != 0
    ensures IsTruncQuotient(a, b, q)
    ensures Abs(q) <= Abs(a)
    ensures (a < 0) == (b < 0) ==> q >= 0
    ensures (a < 0) != (b < 0) ==> q <= 0
  {
    var m := Abs(a) / Abs(b);
    NatDiv(Abs(a), Abs(b));
    if (a < 0) == (b < 0) then
      SignedRemainder(a, b, m);
      m
    else
      SignedRemainder(a, b, -m);
      -m
  }

  /** Euclidean division of a natural number by a positive one. */
  lemma NatDiv(x: nat, y: int)
    requires y > 0
    ensures var m := x / y; 0 <= x - m * y < y && 0 <= m <= x
  {
    DivFacts(x, y);
    MulGe(x / y, y);
  }

  lemma DivFacts(x: int, y: int)
    requires x >= 0 && y > 0
    ensures x / y >= 0
    ensures 0 <= x - (x / y) * y < y
  {
  }

  lemma MulGe(m: int, y: int)
    requires m >= 0 && y >= 1
    ensures m * y >= m
  {
    assert m * y == m * (y - 1) + m;
    assert m * (y - 1) >= 0;
  }

  /** Moves the remainder of the magnitudes to the signed operands. */
  lemma SignedRemainder(a: int, b: int, q: int)
    requires b != 0
    requires q == Abs(a) / Abs(b) || q == -(Abs(a) / Abs(b))
    requires (q == Abs(a) / Abs(b)) <==> (a < 0) == (b < 0) || Abs(a) / Abs(b) == 0
    requires 0 <= Abs(a) - (Abs(a) / Abs(b)) * Abs(b) < Abs(b)
    ensures IsTruncQuotient(a, b, q)
  {
    var m := Abs(a) / Abs(b);
    var r := Abs(a) - m * Abs(b);
    if a >= 0 && b > 0 {
      assert a - q * b == r;
    } else if a >= 0 {
      assert q * b == m * Abs(b) by { MulAbsSign(q, b, m); }
      assert a - q * b == r;
    } else if b > 0 {
      assert q * b == -(m * Abs(b)) by { MulAbsSign(q, b, m); }
      assert a - q * b == -r;
    } else {
      assert q * b == -(m * Abs(b)) by { MulAbsSign(q, b, m); }
      assert a - q * b == -r;
    }
  }

  lemma MulAbsSign(q: int, b: int, m: int)
    requires q == m || q == -m
    ensures q * b == m * b || q * b == -(m * b)
    ensures (q == m ==> q * b == m * b) && (q == -m ==> q * b == -(m * b))
    ensures b < 0 ==> m * b == -(m * Abs(b))
    ensures b >= 0 ==> m * b == m * Abs(b)
  {
  }

  /** Truncating division is the only quotient with the remainder property, so
      `IsTruncQuotient` is an independent definition of `TruncDiv`. */
  lemma TruncQuotientUnique(a: int, b: int, q: int)
    requires b != 0
    requires IsTruncQuotient(a, b, q)
    ensures q == TruncDiv(a, b)
  {
    var q' := TruncDiv(a, b);
    var r, r' := a - q * b, a - q' * b;
    RemaindersClose(a, b, r, r');
    if q != q' {
      var d := q' - q;
      Distribute(q', q, b);
      assert r - r' == d * b;
      MulAbs(d, b);
      MulGe(Abs(b), Abs(d));
      assert false;
    }
  }

  lemma Distribute(x: int, y: int, b: int)
    ensures (x - y) * b == x * b - y * b
  {
  }

  lemma RemaindersClose(a: int, b: int, r: int, r': int)
    requires Abs(r) < Abs(b) && (a >= 0 ==> r >= 0) && (a <= 0 ==> r <= 0)
    requires Abs(r') < Abs(b) && (a >= 0 ==> r' >= 0) && (a <= 0 ==> r' <= 0)
    ensures Abs(r - r') < Abs(b)
  {
  }

  lemma MulAbs(x: int, y: int)
    ensures Abs(x * y) == Abs(x) * Abs(y)
  {
    if x < 0 && y < 0 {
      assert x * y == (-x) * (-y);
    } else if x < 0 {
      assert x * y == -((-x) * y);
    } else if y < 0 {
      assert x * y == -(x * (-y));
    }
  }

  /** Dividing an exact multiple gives back the factor. */
  lemma TruncDivExact(v: int, d: int)
    requires d != 0
    ensures TruncDiv(v * d, d) == v
  {
    assert IsTruncQuotient(v * d, d, v);
    TruncQuotientUnique(v * d, d, v);
  }

  /** `10^a * 10^b == 10^(a+b)`. */
  lemma {:induction false} Pow10Add(a: nat, b: nat)
    ensures Pow10(a) * Pow10(b) == Pow10(a + b)
  {
    if a > 0 {
      Pow10Add(a - 1, b);
      assert Pow10(a) * Pow10(b) == 10 * (Pow10(a - 1) * Pow10(b));
    }
  }
}
