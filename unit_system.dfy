/** The unit-family generator `power_of_ten_unit_system` of src/lib.rs. For a
    system with dimension names `D1, ..., Dn` it declares the descriptor
    `$system<EXP, D1, ..., Dn>`, its products and quotients with `TenTo<N>`
    and with other descriptors of the family, the conversion relation between
    descriptors that share their dimensions, and the `unitless` and base
    aliases. The model states each generated item for a family of arity `n`.
    A type that would not resolve is `None`. */
module UnitSystem {
  import opened Wrappers
  import opened RustInt
  import opened Inner
  import opened PowerOfTen

  /** A descriptor: the power of ten it scales by and one exponent per
      dimension of its family (src/lib.rs:59-67). */
  datatype Unit = Unit(scale: int, dims: seq<int>)

  /** Every exponent of a descriptor is an `i8` const parameter. */
  predicate IsDescriptor(u: Unit)
  {
    IsI8(u.scale) && forall i :: 0 <= i < |u.dims| ==> IsI8(u.dims[i])
  }

  /** Two descriptors are instances of the same generated family. */
  predicate SameSystem(u1: Unit, u2: Unit)
  {
    |u1.dims| == |u2.dims|
  }

  /** Every component lies in the range the numeral bridge covers. */
  predicate AllInRange(u: Unit)
  {
    InRange(u.scale) && forall i :: 0 <= i < |u.dims| ==> InRange(u.dims[i])
  }

  function Zeros(n: nat): (z: seq<int>)
  {
    seq(n, _ => 0)
  }

  /** The exponent vector with a 1 at index `i` and 0 elsewhere. */
  function OneHot(n: nat, i: int): (z: seq<int>)
  {
    seq(n, j => if j == i then 1 else 0)
  }

  // ---------------------------------------------------------------------
  // Component-wise combination through the bridge
  // ---------------------------------------------------------------------

  /** Multiplication adds exponents, division subtracts them. */
  datatype Combine = Plus | Minus

  function Apply(op: Combine, a: int, b: int): (r: int)
  {
    match op
    case Plus => a + b
    case Minus => a - b
  }

  /** `Const<A> + Const<B>` or `Const<A> - Const<B>`. */
  function ConstCombine(op: Combine, a: int, b: int): (r: Option<int>)
    ensures r.Some? <==> InRange(a) && InRange(b) && InRange(Apply(op, a, b))
    ensures r.Some? ==> r.value == Apply(op, a, b)
  {
    match op
    case Plus => ConstAdd(a, b)
    case Minus => ConstSub(a, b)
  }

  /** The per-dimension where-clauses of the generated `Mul`/`Div` impls
      (src/lib.rs:123, lib.rs:147): one bridge operation per dimension, all of
      which must resolve. */
  function CombineEach(op: Combine, xs: seq<int>, ys: seq<int>): (r: Option<seq<int>>)
    requires |xs| == |ys|
    ensures r.Some? <==> forall i :: 0 <= i < |xs| ==>
      InRange(xs[i]) && InRange(ys[i]) && InRange(Apply(op, xs[i], ys[i]))
    ensures r.Some? ==> |r.value| == |xs| && forall i :: 0 <= i < |xs| ==> r.value[i] == Apply(op, xs[i], ys[i])
    decreases |xs|
  {
    if |xs| == 0 then
      Some([])
    else
      var head := ConstCombine(op, xs[0], ys[0]);
      var tail := CombineEach(op, xs[1..], ys[1..]);
      if head.Some? && tail.Some? then
        Some([head.value] + tail.value)
      else
        assert !(InRange(xs[0]) && InRange(ys[0]) && InRange(Apply(op, xs[0], ys[0])))
          || !(forall i :: 0 <= i < |xs| - 1 ==>
            InRange(xs[1..][i]) && InRange(ys[1..][i]) && InRange(Apply(op, xs[1..][i], ys[1..][i])));
        None
  }

  /** The reference meaning of combining two descriptors: every component
      combined with its counterpart. */
  function Pointwise(op: Combine, u1: Unit, u2: Unit): (w: Unit)
    requires SameSystem(u1, u2)
  {
    Unit(Apply(op, u1.scale, u2.scale), seq(|u1.dims|, i requires 0 <= i < |u1.dims| => Apply(op, u1.dims[i], u2.dims[i])))
  }

  // ---------------------------------------------------------------------
  // The generated operators
  // ---------------------------------------------------------------------

  /** `$system<EXP, ..> * TenTo<N>` (src/lib.rs:71-91): only the scale goes
      through the bridge, so only it and `N` must be in range. */
  function MulTenTo(u: Unit, n: int): (r: Option<Unit>)
    requires IsDescriptor(u) && IsI8(n)
    ensures r.Some? <==> InRange(u.scale) && InRange(n) && InRange(u.scale + n)
    ensures r.Some? ==> r.value.scale == u.scale + n && r.value.dims == u.dims
  {
    match ConstAdd(u.scale, n)
    case Some(e) => Some(Unit(e, u.dims))
    case None => None
  }

  /** `$system<EXP, ..> / TenTo<N>` (src/lib.rs:93-113). */
  function DivTenTo(u: Unit, n: int): (r: Option<Unit>)
    requires IsDescriptor(u) && IsI8(n)
    ensures r.Some? <==> InRange(u.scale) && InRange(n) && InRange(u.scale - n)
    ensures r.Some? ==> r.value.scale == u.scale - n && r.value.dims == u.dims
  {
    match ConstSub(u.scale, n)
    case Some(e) => Some(Unit(e, u.dims))
    case None => None
  }

  /** The product or quotient of two descriptors of one family: the scale and
      every dimension through the bridge, all of which must resolve. */
  function CombineUnits(op: Combine, u1: Unit, u2: Unit): (r: Option<Unit>)
    requires SameSystem(u1, u2)
    ensures r.Some? <==> AllInRange(u1) && AllInRange(u2) && AllInRange(Pointwise(op, u1, u2))
    ensures r.Some? ==> r.value == Pointwise(op, u1, u2)
  {
    var e := ConstCombine(op, u1.scale, u2.scale);
    var ds := CombineEach(op, u1.dims, u2.dims);
    PointwiseInRange(op, u1, u2);
    if e.Some? && ds.Some? then
      UnitExt(Unit(e.value, ds.value), Pointwise(op, u1, u2));
      Some(Unit(e.value, ds.value))
    else
      None
  }

  /** Two descriptors with the same components are the same descriptor. */
  lemma UnitExt(a: Unit, b: Unit)
    requires a.scale == b.scale && |a.dims| == |b.dims|
    requires forall i :: 0 <= i < |a.dims| ==> a.dims[i] == b.dims[i]
    ensures a == b
  {
  }

  /** The range condition on a combination, component by component. */
  lemma PointwiseInRange(op: Combine, u1: Unit, u2: Unit)
    requires SameSystem(u1, u2)
    ensures var w := Pointwise(op, u1, u2);
      |w.dims| == |u1.dims| && w.scale == Apply(op, u1.scale, u2.scale)
      && (forall i :: 0 <= i < |u1.dims| ==> w.dims[i] == Apply(op, u1.dims[i], u2.dims[i]))
    ensures AllInRange(u1) && AllInRange(u2) && AllInRange(Pointwise(op, u1, u2)) <==>
      InRange(u1.scale) && InRange(u2.scale) && InRange(Apply(op, u1.scale, u2.scale))
      && forall i :: 0 <= i < |u1.dims| ==>
        InRange(u1.dims[i]) && InRange(u2.dims[i]) && InRange(Apply(op, u1.dims[i], u2.dims[i]))
  {
  }

  /** `$system<..1> * $system<..2>` (src/lib.rs:115-137). */
  function MulUnits(u1: Unit, u2: Unit): (r: Option<Unit>)
    requires IsDescriptor(u1) && IsDescriptor(u2) && SameSystem(u1, u2)
    ensures r.Some? <==> AllInRange(u1) && AllInRange(u2) && AllInRange(Pointwise(Plus, u1, u2))
    ensures r.Some? ==> r.value == Pointwise(Plus, u1, u2)
  {
    CombineUnits(Plus, u1, u2)
  }

  /** `$system<..1> / $system<..2>` (src/lib.rs:139-161). */
  function DivUnits(u1: Unit, u2: Unit): (r: Option<Unit>)
    requires IsDescriptor(u1) && IsDescriptor(u2) && SameSystem(u1, u2)
    ensures r.Some? <==> AllInRange(u1) && AllInRange(u2) && AllInRange(Pointwise(Minus, u1, u2))
    ensures r.Some? ==> r.value == Pointwise(Minus, u1, u2)
  {
    CombineUnits(Minus, u1, u2)
  }

  /** The alias `Mul<A, B>` of two descriptors (src/lib.rs:250-251). An
      operand that does not resolve makes the alias not resolve either. */
  function Mul(a: Option<Unit>, b: Option<Unit>): (r: Option<Unit>)
    ensures r.Some? ==>
      a.Some? && b.Some? && SameSystem(a.value, b.value) && r.value == Pointwise(Plus, a.value, b.value)
    ensures a.Some? && b.Some? && IsDescriptor(a.value) && IsDescriptor(b.value) && SameSystem(a.value, b.value) ==>
      r == MulUnits(a.value, b.value)
  {
    if a.Some? && b.Some? && IsDescriptor(a.value) && IsDescriptor(b.value) && SameSystem(a.value, b.value) then
      MulUnits(a.value, b.value)
    else
      None
  }

  /** The alias `Div<A, B>` of two descriptors (src/lib.rs:252-253). */
  function Div(a: Option<Unit>, b: Option<Unit>): (r: Option<Unit>)
    ensures r.Some? ==>
      a.Some? && b.Some? && SameSystem(a.value, b.value) && r.value == Pointwise(Minus, a.value, b.value)
    ensures a.Some? && b.Some? && IsDescriptor(a.value) && IsDescriptor(b.value) && SameSystem(a.value, b.value) ==>
      r == DivUnits(a.value, b.value)
  {
    if a.Some? && b.Some? && IsDescriptor(a.value) && IsDescriptor(b.value) && SameSystem(a.value, b.value) then
      DivUnits(a.value, b.value)
    else
      None
  }

  /** The alias `Mul<U, TenTo<N>>`. */
  function MulTen(a: Option<Unit>, n: int): (r: Option<Unit>)
    requires IsI8(n)
    ensures r.Some? ==> a.Some? && r.value == Unit(a.value.scale + n, a.value.dims)
    ensures a.Some? && IsDescriptor(a.value) ==> r == MulTenTo(a.value, n)
  {
    if a.Some? && IsDescriptor(a.value) then MulTenTo(a.value, n) else None
  }

  /** `UnitConvert<T, from> for to` exists exactly when the two descriptors
      share every dimension exponent; the scales are free (src/lib.rs:163-168). */
  predicate Convertible(from: Unit, to: Unit)
    ensures Convertible(from, to) <==>
      SameSystem(from, to) && forall i :: 0 <= i < |from.dims| ==> from.dims[i] == to.dims[i]
  {
    from.dims == to.dims
  }

  /** What `to::unit_convert(v)` needs: the relation exists and `EXP2 - EXP1`,
      computed in `i8`, is a valid scaling of `v` on the type `k`. */
  predicate CanConvert(k: IntKind, from: Unit, to: Unit, v: int)
  {
    IsDescriptor(from) && IsDescriptor(to) && Convertible(from, to)
    && CanScale(k, v, to.scale - from.scale)
  }

  /** `unit_convert` (src/lib.rs:172-174): a value in `from` expressed in `to`
      is the value times `10^(from.scale - to.scale)`, with Rust's truncating
      division when that power is negative. */
  function UnitConvert(k: IntKind, from: Unit, to: Unit, v: int): (r: int)
    requires CanConvert(k, from, to, v)
    ensures InKind(k, r)
    ensures to.scale <= from.scale ==> r == v * Pow10(from.scale - to.scale)
    ensures to.scale >= from.scale ==> IsTruncQuotient(v, Pow10(to.scale - from.scale), r)
  {
    MulPowerOfTen(k, v, to.scale - from.scale)
  }

  // ---------------------------------------------------------------------
  // Generated aliases: `unitless` and the base units
  // ---------------------------------------------------------------------

  /** `gen_unitless!(@acc ...)` (src/lib.rs:195-204): one `0` is appended to
      the accumulated exponents per dimension name. */
  function GenUnitless(names: seq<string>, zeros: seq<int>): (u: Unit)
    ensures u.scale == 0 && u.dims == zeros + Zeros(|names|)
    decreases |names|
  {
    if |names| == 0 then
      Unit(0, zeros)
    else
      var u := GenUnitless(names[1..], zeros + [0]);
      assert zeros + [0] + Zeros(|names| - 1) == zeros + Zeros(|names|);
      u
  }

  /** The `unitless` alias of a family. */
  function Unitless(names: seq<string>): (u: Unit)
    ensures u == Unit(0, Zeros(|names|))
  {
    var u := GenUnitless(names, []);
    assert [] + Zeros(|names|) == Zeros(|names|);
    u
  }

  /** `gen_one_base!(@zeros_after ...)` (src/lib.rs:239-246). */
  function ZerosAfter(acc: seq<int>, after: seq<string>): (d: seq<int>)
    ensures d == acc + Zeros(|after|)
    decreases |after|
  {
    if |after| == 0 then
      acc
    else
      var d := ZerosAfter(acc + [0], after[1..]);
      assert acc + [0] + Zeros(|after| - 1) == acc + Zeros(|after|);
      d
  }

  /** `gen_one_base!(@zeros_before ...)` (src/lib.rs:230-237): a `0` per
      earlier dimension, the last one followed by the `1`. */
  function ZerosBefore(acc: seq<int>, before: seq<string>, after: seq<string>): (d: seq<int>)
    requires |before| >= 1
    ensures d == acc + Zeros(|before|) + [1] + Zeros(|after|)
    decreases |before|
  {
    if |before| == 1 then
      var d := ZerosAfter(acc + [0, 1], after);
      assert acc + [0, 1] == acc + Zeros(1) + [1];
      d
    else
      var d := ZerosBefore(acc + [0], before[1..], after);
      assert acc + [0] + Zeros(|before| - 1) == acc + Zeros(|before|);
      d
  }

  /** The base alias of the dimension that has the names `before` in front of
      it and `after` behind it (src/lib.rs:213-221). */
  function GenOneBase(before: seq<string>, after: seq<string>): (u: Unit)
    ensures u == Unit(0, OneHot(|before| + 1 + |after|, |before|))
  {
    var dims := if |before| == 0 then ZerosAfter([1], after) else ZerosBefore([], before, after);
    assert dims == OneHot(|before| + 1 + |after|, |before|);
    Unit(0, dims)
  }

  /** `gen_base_units!(@iter ...)` (src/lib.rs:209-223): walks the names,
      emitting one alias per name and moving it to the "before" list. */
  function GenBaseUnits(before: seq<string>, rest: seq<string>): (bs: seq<(string, Unit)>)
    ensures |bs| == |rest|
    ensures forall j :: 0 <= j < |rest| ==>
      bs[j] == (rest[j], Unit(0, OneHot(|before| + |rest|, |before| + j)))
    decreases |rest|
  {
    if |rest| == 0 then
      []
    else
      var tail := GenBaseUnits(before + [rest[0]], rest[1..]);
      var bs := [(rest[0], GenOneBase(before, rest[1..]))] + tail;
      forall j | 0 < j < |rest|
        ensures bs[j] == (rest[j], Unit(0, OneHot(|before| + |rest|, |before| + j)))
      {
        assert bs[j] == tail[j - 1];
        assert rest[1..][j - 1] == rest[j];
        assert |before + [rest[0]]| + |rest[1..]| == |before| + |rest|;
      }
      bs
  }

  /** The base aliases of a family: the i-th dimension's alias has scale 0 and
      exponent 1 exactly at index i. */
  function BaseUnits(names: seq<string>): (bs: seq<(string, Unit)>)
    ensures |bs| == |names|
    ensures forall j :: 0 <= j < |names| ==> bs[j] == (names[j], Unit(0, OneHot(|names|, j)))
  {
    GenBaseUnits([], names)
  }

  // ---------------------------------------------------------------------
  // The algebra the generated operators form
  // ---------------------------------------------------------------------

  /** Multiplying descriptors does not depend on the order of the operands. */
  lemma MulCommutes(u1: Unit, u2: Unit)
    requires IsDescriptor(u1) && IsDescriptor(u2) && SameSystem(u1, u2)
    ensures MulUnits(u1, u2) == MulUnits(u2, u1)
  {
    assert Pointwise(Plus, u1, u2) == Pointwise(Plus, u2, u1);
  }

  /** Dividing a product by one factor gives back the other factor. */
  lemma MulThenDiv(u1: Unit, u2: Unit)
    requires IsDescriptor(u1) && IsDescriptor(u2) && SameSystem(u1, u2)
    requires MulUnits(u1, u2).Some?
    ensures IsDescriptor(MulUnits(u1, u2).value)
    ensures DivUnits(MulUnits(u1, u2).value, u2) == Some(u1)
  {
    var w := MulUnits(u1, u2).value;
    assert Pointwise(Minus, w, u2) == u1;
  }

  /** Multiplying a quotient by the divisor gives back the dividend. */
  lemma DivThenMul(u1: Unit, u2: Unit)
    requires IsDescriptor(u1) && IsDescriptor(u2) && SameSystem(u1, u2)
    requires DivUnits(u1, u2).Some?
    ensures IsDescriptor(DivUnits(u1, u2).value)
    ensures MulUnits(DivUnits(u1, u2).value, u2) == Some(u1)
  {
    var w := DivUnits(u1, u2).value;
    PointwiseInRange(Minus, u1, u2);
    PointwiseInRange(Plus, w, u2);
    UnitExt(Pointwise(Plus, w, u2), u1);
  }

  /** A descriptor divided by itself is the family's `unitless` descriptor;
      the quotient has a type exactly when every component is in range. */
  lemma DivSelf(u: Unit, names: seq<string>)
    requires IsDescriptor(u) && |u.dims| == |names|
    ensures DivUnits(u, u).Some? <==> AllInRange(u)
    ensures DivUnits(u, u).Some? ==> DivUnits(u, u).value == Unitless(names)
  {
    assert AllInRange(Pointwise(Minus, u, u));
    assert Pointwise(Minus, u, u) == Unitless(names);
  }

  /** Multiplying by `unitless` is the identity wherever it has a type. */
  lemma MulUnitless(u: Unit, names: seq<string>)
    requires IsDescriptor(u) && |u.dims| == |names|
    ensures IsDescriptor(Unitless(names))
    ensures MulUnits(u, Unitless(names)) == if AllInRange(u) then Some(u) else None
  {
    var z := Unitless(names);
    assert AllInRange(z);
    assert Pointwise(Plus, u, z) == u;
  }

  /** Products agree whichever way three factors are grouped, whenever both
      groupings have a type (an intermediate product may leave the range). */
  lemma MulAssociates(a: Unit, b: Unit, c: Unit)
    requires IsDescriptor(a) && IsDescriptor(b) && IsDescriptor(c)
    requires SameSystem(a, b) && SameSystem(b, c)
    requires MulUnits(a, b).Some? && MulUnits(b, c).Some?
    requires IsDescriptor(MulUnits(a, b).value) && IsDescriptor(MulUnits(b, c).value)
    requires MulUnits(MulUnits(a, b).value, c).Some? && MulUnits(a, MulUnits(b, c).value).Some?
    ensures MulUnits(MulUnits(a, b).value, c) == MulUnits(a, MulUnits(b, c).value)
  {
    var ab, bc := MulUnits(a, b).value, MulUnits(b, c).value;
    PointwiseInRange(Plus, a, b);
    PointwiseInRange(Plus, b, c);
    PointwiseInRange(Plus, ab, c);
    PointwiseInRange(Plus, a, bc);
    UnitExt(Pointwise(Plus, ab, c), Pointwise(Plus, a, bc));
  }

  /** Scaling by `TenTo<N>` and back is the identity. */
  lemma TenToRoundTrip(u: Unit, n: int)
    requires IsDescriptor(u) && IsI8(n)
    requires MulTenTo(u, n).Some?
    ensures IsDescriptor(MulTenTo(u, n).value)
    ensures DivTenTo(MulTenTo(u, n).value, n) == Some(u)
  {
  }

  /** On an in-range descriptor, scaling by `TenTo<N>` is the same as
      multiplying by the dimensionless descriptor of scale `N`; only the scale
      is checked by the former, so out of range they differ. */
  lemma TenToIsScaledUnitless(u: Unit, n: int, names: seq<string>)
    requires IsDescriptor(u) && IsI8(n) && |u.dims| == |names|
    requires AllInRange(u)
    ensures IsDescriptor(Unit(n, Unitless(names).dims))
    ensures MulTenTo(u, n) == MulUnits(u, Unit(n, Unitless(names).dims))
  {
    var z := Unit(n, Unitless(names).dims);
    assert Pointwise(Plus, u, z).dims == u.dims;
  }

  /** Unit multiplication checks every dimension, `TenTo` only the scale: a
      descriptor with an out-of-range dimension can still be prefixed. */
  lemma TenToIgnoresDimensions()
    ensures MulTenTo(Unit(0, [40]), 3) == Some(Unit(3, [40]))
    ensures MulUnits(Unit(0, [40]), Unit(3, [0])) == None
  {
  }

  /** Converting to the same descriptor leaves the value unchanged. */
  lemma ConvertToSelf(k: IntKind, u: Unit, v: int)
    requires IsDescriptor(u) && InKind(k, v)
    ensures CanConvert(k, u, u, v)
    ensures UnitConvert(k, u, u, v) == v
  {
    OneFits(k);
    TruncDivExact(v, 1);
  }

  lemma OneFits(k: IntKind)
    ensures MaxOf(k) >= 1
  {
    assert Pow2(7) >= 2;
    Pow2Monotone(7, Bits(k) - 1);
  }

  lemma {:induction false} Pow2Monotone(a: nat, b: nat)
    requires a <= b
    ensures Pow2(a) <= Pow2(b)
    decreases b
  {
    if a < b {
      Pow2Monotone(a, b - 1);
    }
  }
}
