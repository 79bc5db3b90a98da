/** The numeral bridge of src/inner.rs. A bounded-integer descriptor
    `Const<I>` is modelled by its integer `I`. The signed type-level numerals
    of the backend are modelled by `Numeral`, one value per numeral: zero,
    or a positive or negative non-zero magnitude. Every `Const` operation maps
    its operands to numerals, computes there and maps back. It is defined
    (its type resolves) only when every step has a mapping. */
module Inner {
  import opened Wrappers
  import opened RustInt

  /** The range for which the bridge is enumerated (src/inner.rs:100-104). */
  predicate InRange(i: int)
  {
    -30 <= i <= 30
  }

  type Pos = k: int | k > 0 witness 1

  /** A backend numeral: `Z0`, `P<k>` for k > 0 or `N<k>` for k > 0. */
  datatype Numeral = Z0 | P(mag: Pos) | N(mag: Pos)

  /** The integer a numeral denotes (its `ISIZE` constant). */
  function Value(t: Numeral): (r: int)
    ensures r == 0 <==> t == Z0
    ensures r > 0 <==> t.P?
  {
    match t
    case Z0 => 0
    case P(k) => k
    case N(k) => -(k as int)
  }

  /** The numeral that denotes `i`. */
  function FromValue(i: int): (t: Numeral)
    ensures Value(t) == i
  {
    if i == 0 then Z0 else if i > 0 then P(i) else N(-i)
  }

  /** Every numeral is the canonical one for its value. */
  lemma FromValueOfValue(t: Numeral)
    ensures FromValue(Value(t)) == t
  {
  }

  // The backend's own arithmetic on numerals. Its internals are not part of
  // this model; each operation is the integer operation on the values.

  function NumAdd(x: Numeral, y: Numeral): (r: Numeral)
    ensures Value(r) == Value(x) + Value(y)
  {
    FromValue(Value(x) + Value(y))
  }

  function NumSub(x: Numeral, y: Numeral): (r: Numeral)
    ensures Value(r) == Value(x) - Value(y)
  {
    FromValue(Value(x) - Value(y))
  }

  function NumMul(x: Numeral, y: Numeral): (r: Numeral)
    ensures Value(r) == Value(x) * Value(y)
  {
    FromValue(Value(x) * Value(y))
  }

  function NumNeg(x: Numeral): (r: Numeral)
    ensures Value(r) == -Value(x)
  {
    FromValue(-Value(x))
  }

  /** The backend's integer division, taken here to truncate toward zero like
      Rust's `/`. Division by zero has no implementation, so it is undefined. */
  function NumDiv(x: Numeral, y: Numeral): (r: Option<Numeral>)
    ensures r.Some? <==> Value(y) != 0
    ensures r.Some? ==> IsTruncQuotient(Value(x), Value(y), Value(r.value))
  {
    if y == Z0 then None else Some(FromValue(TruncDiv(Value(x), Value(y))))
  }

  /** The numerals the bridge is implemented for: one `ToTypenum` and one
      `ToConst` impl for each of `N30, ..., N1, Z0, P1, ..., P30`
      (src/inner.rs:100-104). */
  const Enumerated: set<Numeral> := set i: int | -30 <= i <= 30 :: FromValue(i)

  /** The table ends at `N30` and `P30`. */
  lemma EnumeratedEnds()
    ensures N(30) in Enumerated && Z0 in Enumerated && P(30) in Enumerated
    ensures N(31) !in Enumerated && P(31) !in Enumerated
  {
    EnumeratedIsRange(N(30));
    EnumeratedIsRange(Z0);
    EnumeratedIsRange(P(30));
    EnumeratedIsRange(N(31));
    EnumeratedIsRange(P(31));
  }

  /** `ToTypenum for Const<c>`: implemented only for the `c` that is the value
      of an enumerated numeral, whose numeral is then the output. */
  function ToTypenum(c: int): (r: Option<Numeral>)
    ensures r.Some? <==> InRange(c)
    ensures r.Some? ==> r.value in Enumerated && Value(r.value) == c
  {
    EnumeratedIsRange(FromValue(c));
    if FromValue(c) in Enumerated then Some(FromValue(c)) else None
  }

  /** `ToConst for t`: implemented only for the enumerated numerals. */
  function ToConst(t: Numeral): (r: Option<int>)
    ensures r.Some? <==> InRange(Value(t))
    ensures r.Some? ==> r.value == Value(t) && FromValue(r.value) == t
  {
    EnumeratedIsRange(t);
    FromValueOfValue(t);
    if t in Enumerated then Some(Value(t)) else None
  }

  /** The enumerated numerals are exactly those whose value lies in the range. */
  lemma EnumeratedIsRange(t: Numeral)
    ensures t in Enumerated <==> InRange(Value(t))
  {
    if InRange(Value(t)) {
      FromValueOfValue(t);
      assert FromValue(Value(t)) in Enumerated;
    }
  }

  /** Going from a `Const` to its numeral and back yields the same `Const`,
      and nothing outside the range has a numeral. */
  lemma BridgeRoundTrip(c: int)
    ensures ToTypenum(c).Some? <==> InRange(c)
    ensures InRange(c) ==> ToConst(ToTypenum(c).value) == Some(c)
  {
    EnumeratedIsRange(FromValue(c));
  }

  /** Going from a numeral to its `Const` and back yields the same numeral,
      and only in-range numerals have a `Const`. */
  lemma BridgeRoundTripNumeral(t: Numeral)
    ensures ToConst(t).Some? <==> InRange(Value(t))
    ensures InRange(Value(t)) ==> ToTypenum(ToConst(t).value) == Some(t)
  {
    EnumeratedIsRange(t);
    FromValueOfValue(t);
  }

  /** `Const<A> + Const<B>` (src/inner.rs:6-17). */
  function ConstAdd(a: int, b: int): (r: Option<int>)
    ensures r.Some? <==> InRange(a) && InRange(b) && InRange(a + b)
    ensures r.Some? ==> r.value == a + b
  {
    BridgeRoundTrip(a);
    BridgeRoundTrip(b);
    match (ToTypenum(a), ToTypenum(b))
    case (Some(x), Some(y)) =>
      BridgeRoundTripNumeral(NumAdd(x, y));
      ToConst(NumAdd(x, y))
    case _ => None
  }

  /** `Const<A> - Const<B>` (src/inner.rs:19-30). */
  function ConstSub(a: int, b: int): (r: Option<int>)
    ensures r.Some? <==> InRange(a) && InRange(b) && InRange(a - b)
    ensures r.Some? ==> r.value == a - b
  {
    BridgeRoundTrip(a);
    BridgeRoundTrip(b);
    match (ToTypenum(a), ToTypenum(b))
    case (Some(x), Some(y)) =>
      BridgeRoundTripNumeral(NumSub(x, y));
      ToConst(NumSub(x, y))
    case _ => None
  }

  /** `Const<A> * Const<B>` (src/inner.rs:32-43). */
  function ConstMul(a: int, b: int): (r: Option<int>)
    ensures r.Some? <==> InRange(a) && InRange(b) && InRange(a * b)
    ensures r.Some? ==> r.value == a * b
  {
    BridgeRoundTrip(a);
    BridgeRoundTrip(b);
    match (ToTypenum(a), ToTypenum(b))
    case (Some(x), Some(y)) =>
      BridgeRoundTripNumeral(NumMul(x, y));
      ToConst(NumMul(x, y))
    case _ => None
  }

  /** `Const<A> / Const<B>` (src/inner.rs:45-56). Because a truncated quotient
      is never larger than its dividend, the result is always in range when
      the operands are and the divisor is not zero. */
  function ConstDiv(a: int, b: int): (r: Option<int>)
    ensures r.Some? <==> InRange(a) && InRange(b) && b != 0
    ensures r.Some? ==> r.value == TruncDiv(a, b)
  {
    BridgeRoundTrip(a);
    BridgeRoundTrip(b);
    match (ToTypenum(a), ToTypenum(b))
    case (Some(x), Some(y)) =>
      (match NumDiv(x, y)
       case Some(z) =>
         BridgeRoundTripNumeral(z);
         ToConst(z)
       case None => None)
    case _ => None
  }

  /** `-Const<N>` (src/inner.rs:58-68). The enumerated range is symmetric, so
      negation is defined on all of it. */
  function ConstNeg(n: int): (r: Option<int>)
    ensures r.Some? <==> InRange(n)
    ensures r.Some? ==> r.value == -n
  {
    BridgeRoundTrip(n);
    match ToTypenum(n)
    case Some(x) =>
      BridgeRoundTripNumeral(NumNeg(x));
      ToConst(NumNeg(x))
    case None => None
  }

  /** Adding and then subtracting the same `Const` gives back the original. */
  lemma AddThenSub(a: int, b: int)
    requires ConstAdd(a, b).Some?
    ensures ConstSub(ConstAdd(a, b).value, b) == Some(a)
  {
  }

  /** Negating twice is the identity on the range. */
  lemma NegNeg(n: int)
    requires InRange(n)
    ensures ConstNeg(ConstNeg(n).value) == Some(n)
  {
  }

  /** A product of in-range values may leave the range: `6 * 6` has no type. */
  lemma MulLeavesRange()
    ensures ConstMul(6, 6) == None
    ensures ConstMul(5, 6) == Some(30)
  {
  }

  /** The chosen rounding: `-7 / 2` is `-3` (truncation), not `-4`. */
  lemma DivTruncates()
    ensures ConstDiv(-7, 2) == Some(-3)
    ensures ConstDiv(7, -2) == Some(-3)
    ensures ConstDiv(5, 0) == None
  {
    TruncQuotientUnique(-7, 2, -3);
    TruncQuotientUnique(7, -2, -3);
  }
}
