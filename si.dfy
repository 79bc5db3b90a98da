/** The SI catalog of src/si.rs: the family generated for eight dimensions,
    the decimal prefixes, the base aliases and the derived units, each alias
    an expression over `Mul`, `Div` and `TenTo`. */
module Si {
  import opened Wrappers
  import Inner
  import opened UnitSystem

  /** The dimensions of the `Si` family, in declaration order (src/si.rs:6-15):
      time, length, mass, current, temperature, amount, luminous intensity
      and angle. */
  const Dimensions: seq<string> := ["s", "m", "kg", "A", "K", "mol", "cd", "rad"]

  // Base aliases (src/si.rs:46-54); exponents in the order of `Dimensions`.
  const unit := Unit(0, [0, 0, 0, 0, 0, 0, 0, 0])
  const s := Unit(0, [1, 0, 0, 0, 0, 0, 0, 0])
  const m := Unit(0, [0, 1, 0, 0, 0, 0, 0, 0])
  const kg := Unit(0, [0, 0, 1, 0, 0, 0, 0, 0])
  const A := Unit(0, [0, 0, 0, 1, 0, 0, 0, 0])
  const K := Unit(0, [0, 0, 0, 0, 1, 0, 0, 0])
  const mol := Unit(0, [0, 0, 0, 0, 0, 1, 0, 0])
  const cd := Unit(0, [0, 0, 0, 0, 0, 0, 1, 0])
  const rad := Unit(0, [0, 0, 0, 0, 0, 0, 0, 1])

  /** The hand-written base aliases, in the order of `Dimensions`. */
  const BaseAliases: seq<Unit> := [s, m, kg, A, K, mol, cd, rad]

  /** The decimal prefixes (src/si.rs:20-44). */
  datatype Prefix =
    | Quecto | Ronto | Yocto | Zepto | Atto | Femto | Pico | Nano | Micro | Milli | Centi | Deci
    | Deka | Hecto | Kilo | Mega | Giga | Tera | Peta | Exa | Zetta | Yotta | Ronna | Quetta

  /** The `N` of `TenTo<N>` each prefix multiplies by: never 0, and always
      within the bridge's range. */
  function Shift(p: Prefix): (r: int)
    ensures Inner.InRange(r) && r != 0
  {
    match p
    case Quecto => -30
    case Ronto => -27
    case Yocto => -24
    case Zepto => -21
    case Atto => -18
    case Femto => -15
    case Pico => -12
    case Nano => -9
    case Micro => -6
    case Milli => -3
    case Centi => -2
    case Deci => -1
    case Deka => 1
    case Hecto => 2
    case Kilo => 3
    case Mega => 6
    case Giga => 9
    case Tera => 12
    case Peta => 15
    case Exa => 18
    case Zetta => 21
    case Yotta => 24
    case Ronna => 27
    case Quetta => 30
  }

  /** `p<U>`, that is `Mul<U, TenTo<Shift(p)>>`. */
  function Prefixed(p: Prefix, u: Unit): (r: Option<Unit>)
    ensures IsDescriptor(u) ==>
      (r.Some? <==> Inner.InRange(u.scale) && Inner.InRange(u.scale + Shift(p)))
    ensures r.Some? ==> r.value == Unit(u.scale + Shift(p), u.dims)
  {
    MulTen(Some(u), Shift(p))
  }

  // Derived units (src/si.rs:56-69), composed exactly as the source writes them.
  const Hz := Div(Some(unit), Some(s))
  const N := Mul(Some(kg), Div(Some(m), Mul(Some(s), Some(s))))
  const Pa := Div(N, Mul(Some(m), Some(m)))
  const J := Mul(Some(m), N)
  const W := Div(J, Some(s))
  const C := Mul(Some(s), Some(A))
  const V := Div(W, Some(A))
  const F := Div(C, V)
  const Ohm := Div(V, Some(A))
  const S := Div(Some(A), V)
  const Wb := Div(J, Some(A))
  const T := Div(Mul(V, Some(s)), Mul(Some(m), Some(m)))
  const H := Div(Mul(V, Some(s)), Some(A))
  const Gy := Div(J, Some(kg))

  /** `unit` is the generated `unitless` of the family, and the i-th base
      alias is the generated base unit of the i-th dimension: scale 0 and a
      single exponent 1 at index i. */
  lemma AliasesMatchGenerator()
    ensures unit == Unitless(Dimensions)
    ensures |BaseUnits(Dimensions)| == |BaseAliases| == 8
    ensures forall i :: 0 <= i < 8 ==> BaseUnits(Dimensions)[i] == (Dimensions[i], BaseAliases[i])
  {
    assert unit.dims == Zeros(8);
    forall i | 0 <= i < 8
      ensures BaseAliases[i] == Unit(0, OneHot(8, i))
    {
      assert BaseAliases[i].dims == OneHot(8, i);
    }
  }

  /** Every prefix shift lies in the bridge's range, quecto and quetta at its
      two ends. */
  lemma ShiftInRange(p: Prefix)
    ensures Inner.InRange(Shift(p))
    ensures Shift(Quecto) == -30 && Shift(Quetta) == 30
  {
    match p
    case _ =>
  }

  /** Distinct prefixes scale by distinct powers of ten. */
  lemma ShiftInjective(p: Prefix, q: Prefix)
    ensures Shift(p) == Shift(q) <==> p == q
  {
  }

  /** So every prefix applies to any descriptor of scale 0. */
  lemma PrefixesApplyAtScaleZero(p: Prefix, u: Unit)
    requires IsDescriptor(u) && u.scale == 0
    ensures Prefixed(p, u) == Some(Unit(Shift(p), u.dims))
  {
    ShiftInRange(p);
    var n := Shift(p);
    var r := MulTenTo(u, n);
    assert r.Some? && r.value == Unit(n, u.dims);
  }

  /** A prefix on a prefixed unit only resolves while the sum of the shifts
      stays in range: kilo of quetta-anything has no type. */
  lemma KiloOfQuettaFails(u: Unit)
    requires IsDescriptor(u) && u.scale == 0
    ensures Prefixed(Quetta, u).Some?
    ensures Prefixed(Kilo, Prefixed(Quetta, u).value) == None
  {
    assert Shift(Quetta) == 30 && Shift(Kilo) == 3;
    var q := MulTenTo(u, 30);
    assert q == Some(Unit(30, u.dims));
    assert MulTenTo(q.value, 3) == None;
  }

  /** Kilo of milli gives the unit back. */
  lemma KiloOfMilliCancels(u: Unit)
    requires IsDescriptor(u) && u.scale == 0
    ensures Prefixed(Milli, u).Some?
    ensures Prefixed(Kilo, Prefixed(Milli, u).value) == Some(u)
  {
    assert Shift(Milli) == -3 && Shift(Kilo) == 3;
    var mi := MulTenTo(u, -3);
    assert mi == Some(Unit(-3, u.dims));
    assert MulTenTo(mi.value, 3) == Some(Unit(0, u.dims));
  }

  /** `milli<m>` has metre's dimensions at scale -3. */
  lemma MilliMetre()
    ensures Prefixed(Milli, m) == Some(Unit(-3, m.dims))
  {
    InRange8Means(m);
    assert Shift(Milli) == -3;
    var r := MulTenTo(m, -3);
    assert r == Some(Unit(-3, m.dims));
  }

  /** `kilo<m>` has metre's dimensions at scale 3. */
  lemma KiloMetre()
    ensures Prefixed(Kilo, m) == Some(Unit(3, m.dims))
  {
    InRange8Means(m);
    assert Shift(Kilo) == 3;
    var r := MulTenTo(m, 3);
    assert r == Some(Unit(3, m.dims));
  }

  // ---------------------------------------------------------------------
  // Evaluating aliases over the eight SI components
  // ---------------------------------------------------------------------

  /** An eight-component descriptor with every component in range. */
  predicate InRange8(u: Unit)
  {
    |u.dims| == 8 && Inner.InRange(u.scale)
    && Inner.InRange(u.dims[0]) && Inner.InRange(u.dims[1]) && Inner.InRange(u.dims[2]) && Inner.InRange(u.dims[3])
    && Inner.InRange(u.dims[4]) && Inner.InRange(u.dims[5]) && Inner.InRange(u.dims[6]) && Inner.InRange(u.dims[7])
  }

  lemma InRange8Means(u: Unit)
    requires InRange8(u)
    ensures AllInRange(u) && IsDescriptor(u)
  {
    forall i | 0 <= i < 8
      ensures Inner.InRange(u.dims[i])
    {
      assert i == 0 || i == 1 || i == 2 || i == 3 || i == 4 || i == 5 || i == 6 || i == 7;
    }
  }

  /** The combination of two eight-component descriptors, written out. */
  function Combine8(op: Combine, a: Unit, b: Unit): (c: Unit)
    requires |a.dims| == 8 && |b.dims| == 8
    ensures |c.dims| == 8
  {
    Unit(Apply(op, a.scale, b.scale), [
      Apply(op, a.dims[0], b.dims[0]), Apply(op, a.dims[1], b.dims[1]),
      Apply(op, a.dims[2], b.dims[2]), Apply(op, a.dims[3], b.dims[3]),
      Apply(op, a.dims[4], b.dims[4]), Apply(op, a.dims[5], b.dims[5]),
      Apply(op, a.dims[6], b.dims[6]), Apply(op, a.dims[7], b.dims[7])])
  }

  lemma Combine8IsPointwise(op: Combine, a: Unit, b: Unit)
    requires |a.dims| == 8 && |b.dims| == 8
    ensures Pointwise(op, a, b) == Combine8(op, a, b)
  {
    var w, c := Pointwise(op, a, b), Combine8(op, a, b);
    PointwiseInRange(op, a, b);
    forall i | 0 <= i < 8
      ensures w.dims[i] == c.dims[i]
    {
      assert i == 0 || i == 1 || i == 2 || i == 3 || i == 4 || i == 5 || i == 6 || i == 7;
    }
    UnitExt(w, c);
  }

  /** On in-range operands with an in-range result, `Mul` or `Div` of two SI
      descriptors is the written-out combination. */
  lemma CombineOf8(op: Combine, a: Unit, b: Unit)
    requires InRange8(a) && InRange8(b) && InRange8(Combine8(op, a, b))
    ensures (match op case Plus => Mul(Some(a), Some(b)) case Minus => Div(Some(a), Some(b)))
      == Some(Combine8(op, a, b))
  {
    InRange8Means(a);
    InRange8Means(b);
    InRange8Means(Combine8(op, a, b));
    Combine8IsPointwise(op, a, b);
  }

  // The exponent vectors of the derived units, in the order s, m, kg, A, K,
  // mol, cd, rad. Each `Step` lemma evaluates the operations of one alias on
  // the exponent vectors of its operands; the `Is` lemma then follows the
  // alias's definition.

  lemma HertzStep()
    ensures Div(Some(unit), Some(s)) == Some(Unit(0, [-1, 0, 0, 0, 0, 0, 0, 0]))
  {
    CombineOf8(Minus, unit, s);
  }

  /** `unit / s`. */
  lemma HertzIs()
    ensures Hz == Some(Unit(0, [-1, 0, 0, 0, 0, 0, 0, 0]))
  {
    HertzStep();
  }

  lemma SecondSquaredStep()
    ensures Mul(Some(s), Some(s)) == Some(Unit(0, [2, 0, 0, 0, 0, 0, 0, 0]))
  {
    CombineOf8(Plus, s, s);
  }

  lemma AccelerationStep()
    ensures Div(Some(m), Some(Unit(0, [2, 0, 0, 0, 0, 0, 0, 0]))) == Some(Unit(0, [-2, 1, 0, 0, 0, 0, 0, 0]))
  {
    CombineOf8(Minus, m, Unit(0, [2, 0, 0, 0, 0, 0, 0, 0]));
  }

  lemma NewtonStep()
    ensures Mul(Some(kg), Some(Unit(0, [-2, 1, 0, 0, 0, 0, 0, 0]))) == Some(Unit(0, [-2, 1, 1, 0, 0, 0, 0, 0]))
  {
    CombineOf8(Plus, kg, Unit(0, [-2, 1, 0, 0, 0, 0, 0, 0]));
  }

  /** `kg * (m / (s * s))`, as the crate's own test also writes it (src/lib.rs:564-566). */
  lemma NewtonIs()
    ensures N == Some(Unit(0, [-2, 1, 1, 0, 0, 0, 0, 0]))
  {
    SecondSquaredStep();
    AccelerationStep();
    NewtonStep();
  }

  lemma PascalStep()
    ensures Mul(Some(m), Some(m)) == Some(Unit(0, [0, 2, 0, 0, 0, 0, 0, 0]))
    ensures Div(Some(Unit(0, [-2, 1, 1, 0, 0, 0, 0, 0])), Some(Unit(0, [0, 2, 0, 0, 0, 0, 0, 0]))) == Some(Unit(0, [-2, -1, 1, 0, 0, 0, 0, 0]))
  {
    CombineOf8(Plus, m, m);
    CombineOf8(Minus, Unit(0, [-2, 1, 1, 0, 0, 0, 0, 0]), Unit(0, [0, 2, 0, 0, 0, 0, 0, 0]));
  }

  /** `N / (m * m)`. */
  lemma PascalIs()
    ensures Pa == Some(Unit(0, [-2, -1, 1, 0, 0, 0, 0, 0]))
  {
    NewtonIs();
    PascalStep();
  }

  lemma JouleStep()
    ensures Mul(Some(m), Some(Unit(0, [-2, 1, 1, 0, 0, 0, 0, 0]))) == Some(Unit(0, [-2, 2, 1, 0, 0, 0, 0, 0]))
  {
    CombineOf8(Plus, m, Unit(0, [-2, 1, 1, 0, 0, 0, 0, 0]));
  }

  /** `m * N`. */
  lemma JouleIs()
    ensures J == Some(Unit(0, [-2, 2, 1, 0, 0, 0, 0, 0]))
  {
    NewtonIs();
    JouleStep();
  }

  lemma WattStep()
    ensures Div(Some(Unit(0, [-2, 2, 1, 0, 0, 0, 0, 0])), Some(s)) == Some(Unit(0, [-3, 2, 1, 0, 0, 0, 0, 0]))
  {
    CombineOf8(Minus, Unit(0, [-2, 2, 1, 0, 0, 0, 0, 0]), s);
  }

  /** `J / s`. */
  lemma WattIs()
    ensures W == Some(Unit(0, [-3, 2, 1, 0, 0, 0, 0, 0]))
  {
    JouleIs();
    WattStep();
  }

  lemma CoulombStep()
    ensures Mul(Some(s), Some(A)) == Some(Unit(0, [1, 0, 0, 1, 0, 0, 0, 0]))
  {
    CombineOf8(Plus, s, A);
  }

  /** `s * A`. */
  lemma CoulombIs()
    ensures C == Some(Unit(0, [1, 0, 0, 1, 0, 0, 0, 0]))
  {
    CoulombStep();
  }

  lemma VoltStep()
    ensures Div(Some(Unit(0, [-3, 2, 1, 0, 0, 0, 0, 0])), Some(A)) == Some(Unit(0, [-3, 2, 1, -1, 0, 0, 0, 0]))
  {
    CombineOf8(Minus, Unit(0, [-3, 2, 1, 0, 0, 0, 0, 0]), A);
  }

  /** `W / A`. */
  lemma VoltIs()
    ensures V == Some(Unit(0, [-3, 2, 1, -1, 0, 0, 0, 0]))
  {
    WattIs();
    VoltStep();
  }

  lemma FaradStep()
    ensures Div(Some(Unit(0, [1, 0, 0, 1, 0, 0, 0, 0])), Some(Unit(0, [-3, 2, 1, -1, 0, 0, 0, 0]))) == Some(Unit(0, [4, -2, -1, 2, 0, 0, 0, 0]))
  {
    CombineOf8(Minus, Unit(0, [1, 0, 0, 1, 0, 0, 0, 0]), Unit(0, [-3, 2, 1, -1, 0, 0, 0, 0]));
  }

  /** `C / V`. */
  lemma FaradIs()
    ensures F == Some(Unit(0, [4, -2, -1, 2, 0, 0, 0, 0]))
  {
    CoulombIs();
    VoltIs();
    FaradStep();
  }

  lemma OhmStep()
    ensures Div(Some(Unit(0, [-3, 2, 1, -1, 0, 0, 0, 0])), Some(A)) == Some(Unit(0, [-3, 2, 1, -2, 0, 0, 0, 0]))
  {
    CombineOf8(Minus, Unit(0, [-3, 2, 1, -1, 0, 0, 0, 0]), A);
  }

  /** `V / A`. */
  lemma OhmIs()
    ensures Ohm == Some(Unit(0, [-3, 2, 1, -2, 0, 0, 0, 0]))
  {
    VoltIs();
    OhmStep();
  }

  lemma SiemensStep()
    ensures Div(Some(A), Some(Unit(0, [-3, 2, 1, -1, 0, 0, 0, 0]))) == Some(Unit(0, [3, -2, -1, 2, 0, 0, 0, 0]))
  {
    CombineOf8(Minus, A, Unit(0, [-3, 2, 1, -1, 0, 0, 0, 0]));
  }

  /** `A / V`. */
  lemma SiemensIs()
    ensures S == Some(Unit(0, [3, -2, -1, 2, 0, 0, 0, 0]))
  {
    VoltIs();
    SiemensStep();
  }

  lemma WeberStep()
    ensures Div(Some(Unit(0, [-2, 2, 1, 0, 0, 0, 0, 0])), Some(A)) == Some(Unit(0, [-2, 2, 1, -1, 0, 0, 0, 0]))
  {
    CombineOf8(Minus, Unit(0, [-2, 2, 1, 0, 0, 0, 0, 0]), A);
  }

  /** `J / A`. */
  lemma WeberIs()
    ensures Wb == Some(Unit(0, [-2, 2, 1, -1, 0, 0, 0, 0]))
  {
    JouleIs();
    WeberStep();
  }

  lemma TeslaStep()
    ensures Mul(Some(Unit(0, [-3, 2, 1, -1, 0, 0, 0, 0])), Some(s)) == Some(Unit(0, [-2, 2, 1, -1, 0, 0, 0, 0]))
    ensures Mul(Some(m), Some(m)) == Some(Unit(0, [0, 2, 0, 0, 0, 0, 0, 0]))
    ensures Div(Some(Unit(0, [-2, 2, 1, -1, 0, 0, 0, 0])), Some(Unit(0, [0, 2, 0, 0, 0, 0, 0, 0]))) == Some(Unit(0, [-2, 0, 1, -1, 0, 0, 0, 0]))
  {
    CombineOf8(Plus, Unit(0, [-3, 2, 1, -1, 0, 0, 0, 0]), s);
    CombineOf8(Plus, m, m);
    CombineOf8(Minus, Unit(0, [-2, 2, 1, -1, 0, 0, 0, 0]), Unit(0, [0, 2, 0, 0, 0, 0, 0, 0]));
  }

  /** `(V * s) / (m * m)`. */
  lemma TeslaIs()
    ensures T == Some(Unit(0, [-2, 0, 1, -1, 0, 0, 0, 0]))
  {
    VoltIs();
    TeslaStep();
  }

  lemma HenryStep()
    ensures Mul(Some(Unit(0, [-3, 2, 1, -1, 0, 0, 0, 0])), Some(s)) == Some(Unit(0, [-2, 2, 1, -1, 0, 0, 0, 0]))
    ensures Div(Some(Unit(0, [-2, 2, 1, -1, 0, 0, 0, 0])), Some(A)) == Some(Unit(0, [-2, 2, 1, -2, 0, 0, 0, 0]))
  {
    CombineOf8(Plus, Unit(0, [-3, 2, 1, -1, 0, 0, 0, 0]), s);
    CombineOf8(Minus, Unit(0, [-2, 2, 1, -1, 0, 0, 0, 0]), A);
  }

  /** `(V * s) / A`. */
  lemma HenryIs()
    ensures H == Some(Unit(0, [-2, 2, 1, -2, 0, 0, 0, 0]))
  {
    VoltIs();
    HenryStep();
  }

  lemma GrayStep()
    ensures Div(Some(Unit(0, [-2, 2, 1, 0, 0, 0, 0, 0])), Some(kg)) == Some(Unit(0, [-2, 2, 0, 0, 0, 0, 0, 0]))
  {
    CombineOf8(Minus, Unit(0, [-2, 2, 1, 0, 0, 0, 0, 0]), kg);
  }

  /** `J / kg`. */
  lemma GrayIs()
    ensures Gy == Some(Unit(0, [-2, 2, 0, 0, 0, 0, 0, 0]))
  {
    JouleIs();
    GrayStep();
  }
}
