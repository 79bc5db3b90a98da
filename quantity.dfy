/** The `Quantity` container (src/lib.rs:260-406; src/quantity.rs is a copy
    without `DerefMut`). A quantity is a raw value tagged with a descriptor
    that has no run-time representation. Two quantities can be added, compared
    or hashed together only if their descriptors are the same type, which is
    a precondition here. The raw values are the Rust integers. */
module Quantities {
  import opened Wrappers
  import opened RustInt
  import opened PowerOfTen
  import opened UnitSystem

  datatype Quantity = Quantity(val: int, u: Unit)

  datatype Ordering = Less | Equal | Greater

  /** `Quantity::new` (src/lib.rs:270-275): the descriptor comes from the
      declared type. */
  function New(v: int, u: Unit): (q: Quantity)
    requires IsDescriptor(u)
    ensures q.val == v && q.u == u
  {
    Quantity(v, u)
  }

  /** `Deref::deref` (src/lib.rs:291-297). */
  function Deref(q: Quantity): (r: int)
    ensures r == q.val
  {
    q.val
  }

  /** Wrapping and then reading gives back the value, under the chosen
      descriptor. */
  lemma NewThenDeref(v: int, u: Unit)
    requires IsDescriptor(u)
    ensures Deref(New(v, u)) == v && New(v, u).u == u
  {
  }

  /** `From<T>::from` (src/lib.rs:305-309). */
  function From(v: int, u: Unit): (q: Quantity)
    requires IsDescriptor(u)
    ensures q == New(v, u)
  {
    New(v, u)
  }

  /** `convert` (src/lib.rs:286-288): the quantity under the descriptor `to`,
      its value rescaled by `unit_convert`. */
  function Convert(k: IntKind, q: Quantity, to: Unit): (r: Quantity)
    requires CanConvert(k, q.u, to, q.val)
    ensures r.u == to && InKind(k, r.val)
    ensures to.scale <= q.u.scale ==> r.val == q.val * Pow10(q.u.scale - to.scale)
    ensures to.scale >= q.u.scale ==> IsTruncQuotient(q.val, Pow10(to.scale - q.u.scale), r.val)
  {
    New(UnitConvert(k, q.u, to, q.val), to)
  }

  /** Converting to a finer scale and back is exact. */
  lemma ConvertRoundTrip(k: IntKind, q: Quantity, to: Unit)
    requires to.scale <= q.u.scale
    requires CanConvert(k, q.u, to, q.val)
    ensures CanConvert(k, to, q.u, Convert(k, q, to).val)
    ensures Convert(k, Convert(k, q, to), q.u) == q
  {
    var d := q.u.scale - to.scale;
    if d > 0 {
      RefineThenCoarsen(k, q.val, d);
    } else {
      ConvertToSelf(k, q.u, q.val);
    }
  }

  /** Two refining conversions in a row are one conversion: the scale
      differences add up, as do the exponents of the powers of ten. */
  lemma ConvertTwice(k: IntKind, q: Quantity, mid: Unit, to: Unit)
    requires to.scale <= mid.scale <= q.u.scale
    requires CanConvert(k, q.u, mid, q.val)
    requires CanConvert(k, mid, to, Convert(k, q, mid).val)
    requires CanConvert(k, q.u, to, q.val)
    ensures Convert(k, Convert(k, q, mid), to) == Convert(k, q, to)
  {
    var a, b := q.u.scale - mid.scale, mid.scale - to.scale;
    var x, y := Pow10(a), Pow10(b);
    var v1 := Convert(k, q, mid).val;
    assert v1 == q.val * x;
    var v2 := Convert(k, Convert(k, q, mid), to).val;
    assert v2 == v1 * y;
    Pow10Add(a, b);
    MulAssoc(q.val, x, y);
  }

  lemma MulAssoc(a: int, b: int, c: int)
    ensures (a * b) * c == a * (b * c)
  {
  }

  /** Converting to the descriptor a quantity already has changes nothing. */
  lemma ConvertToSameUnit(k: IntKind, q: Quantity)
    requires IsDescriptor(q.u) && InKind(k, q.val)
    ensures CanConvert(k, q.u, q.u, q.val)
    ensures Convert(k, q, q.u) == q
  {
    ConvertToSelf(k, q.u, q.val);
  }

  /** `Add` (src/lib.rs:348-360): same descriptor, values added. */
  function Add(a: Quantity, b: Quantity): (r: Quantity)
    requires a.u == b.u
    ensures r.u == a.u && r.val == a.val + b.val
  {
    Quantity(a.val + b.val, a.u)
  }

  /** `Sub` (src/lib.rs:362-374): same descriptor, values subtracted. */
  function Sub(a: Quantity, b: Quantity): (r: Quantity)
    requires a.u == b.u
    ensures r.u == a.u && r.val == a.val - b.val
  {
    Quantity(a.val - b.val, a.u)
  }

  /** Adding keeps the descriptor, and subtracting the addend undoes it. */
  lemma AddThenSub(a: Quantity, b: Quantity)
    requires a.u == b.u
    ensures Add(a, b).u == a.u && Sub(Add(a, b), b) == a
    ensures Add(a, b) == Add(b, a)
  {
  }

  /** `Mul` (src/lib.rs:376-390): the values multiplied, under the product
      descriptor `Mul<U1, U2>`; no type when that product has none. */
  function Mul(a: Quantity, b: Quantity): (r: Option<Quantity>)
    requires IsDescriptor(a.u) && IsDescriptor(b.u) && SameSystem(a.u, b.u)
    ensures r.Some? <==> MulUnits(a.u, b.u).Some?
    ensures r.Some? ==> r.value.u == Pointwise(Plus, a.u, b.u) && r.value.val == a.val * b.val
  {
    match MulUnits(a.u, b.u)
    case Some(w) => Some(Quantity(a.val * b.val, w))
    case None => None
  }

  /** `Div` (src/lib.rs:392-406): Rust's truncating quotient of the values,
      under the quotient descriptor `Div<U1, U2>`. A zero divisor panics, so
      it is excluded. */
  function Div(a: Quantity, b: Quantity): (r: Option<Quantity>)
    requires IsDescriptor(a.u) && IsDescriptor(b.u) && SameSystem(a.u, b.u)
    requires b.val != 0
    ensures r.Some? <==> DivUnits(a.u, b.u).Some?
    ensures r.Some? ==> r.value.u == Pointwise(Minus, a.u, b.u)
    ensures r.Some? ==> IsTruncQuotient(a.val, b.val, r.value.val)
  {
    match DivUnits(a.u, b.u)
    case Some(w) => Some(Quantity(TruncDiv(a.val, b.val), w))
    case None => None
  }

  /** Multiplying by a non-zero quantity and dividing by it again gives back
      the original quantity, descriptor and value. */
  lemma MulThenDivQuantity(a: Quantity, b: Quantity)
    requires IsDescriptor(a.u) && IsDescriptor(b.u) && SameSystem(a.u, b.u)
    requires b.val != 0
    requires Mul(a, b).Some?
    ensures IsDescriptor(Mul(a, b).value.u)
    ensures Div(Mul(a, b).value, b) == Some(a)
  {
    MulThenDiv(a.u, b.u);
    TruncDivExact(a.val, b.val);
  }

  /** `PartialEq::eq` (src/lib.rs:322-326): the values only. */
  function Eq(a: Quantity, b: Quantity): (r: bool)
    requires a.u == b.u
    ensures r <==> a == b
  {
    a.val == b.val
  }

  /** `Ord::cmp` (src/lib.rs:336-340): the order of the values. */
  function Cmp(a: Quantity, b: Quantity): (r: Ordering)
    requires a.u == b.u
    ensures r == Less <==> a.val < b.val
    ensures r == Equal <==> a.val == b.val
    ensures r == Greater <==> a.val > b.val
  {
    if a.val < b.val then Less else if a.val == b.val then Equal else Greater
  }

  /** `PartialOrd::partial_cmp` (src/lib.rs:330-334); integers are always
      comparable. */
  function PartialCmp(a: Quantity, b: Quantity): (r: Option<Ordering>)
    requires a.u == b.u
    ensures r.Some? && r.value == Cmp(a, b)
  {
    Some(Cmp(a, b))
  }

  /** `a < b` from `PartialOrd`. */
  predicate Lt(a: Quantity, b: Quantity)
    requires a.u == b.u
    ensures Lt(a, b) <==> a.val < b.val
  {
    PartialCmp(a, b) == Some(Less)
  }

  /** Since the descriptor is fixed by the type, equality of values is
      equality of quantities. */
  lemma EqIsIdentity(a: Quantity, b: Quantity)
    requires a.u == b.u
    ensures Eq(a, b) <==> a == b
  {
  }

  /** `cmp` is a total order agreeing with `eq` and `<` on the values. */
  lemma CmpIsTotalOrder(a: Quantity, b: Quantity, c: Quantity)
    requires a.u == b.u && b.u == c.u
    ensures Cmp(a, b) == Equal <==> Eq(a, b)
    ensures Cmp(a, b) == Less <==> Cmp(b, a) == Greater
    ensures Lt(a, b) <==> a.val < b.val
    ensures Cmp(a, b) == Less && Cmp(b, c) == Less ==> Cmp(a, c) == Less
  {
  }

  /** `Hash::hash` (src/lib.rs:342-346) feeds only the value to the hasher;
      the hasher state is modelled as the sequence of values fed to it. */
  function HashInto(q: Quantity, state: seq<int>): (s: seq<int>)
    ensures |s| == |state| + 1 && s[..|state|] == state && s[|state|] == q.val
  {
    state + [q.val]
  }

  /** Equal quantities feed the hasher alike. */
  lemma EqualQuantitiesHashAlike(a: Quantity, b: Quantity, state: seq<int>)
    requires a.u == b.u && Eq(a, b)
    ensures HashInto(a, state) == HashInto(b, state)
  {
  }

  /** A quantity stored in a variable. `DerefMut::deref_mut` (src/lib.rs:299-303)
      lends out its raw value, which the borrower overwrites in place; the
      descriptor is part of the type and cannot change. */
  class QuantityCell {
    var val: int
    const u: Unit

    constructor (q: Quantity)
      ensures val == q.val && u == q.u
    {
      val := q.val;
      u := q.u;
    }

    /** The quantity the variable holds now. */
    function Value(): Quantity
      reads this
    {
      Quantity(val, u)
    }

    /** `*q = v` through `deref_mut`. */
    method Assign(v: int)
      modifies this
      ensures Value() == Quantity(v, old(Value()).u)
      ensures Deref(Value()) == v
    {
      val := v;
    }
  }
}
