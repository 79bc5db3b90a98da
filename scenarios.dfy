/** The unit tests of src/lib.rs:421-573, restated over the model. The raw
    values are `i32` in most tests. The tests on velocity and on derived units
    use `f64`; only their descriptor algebra and their exact products are
    modelled here, with integer values. */
module Scenarios {
  import opened Wrappers
  import opened RustInt
  import opened PowerOfTen
  import opened UnitSystem
  import opened Si
  import Q = Quantities

  /** `Quantity::<i32, si::m>::new(42)` dereferences to 42, and `42.into()`
      builds the same quantity (src/lib.rs:422-432). */
  lemma NewAndFrom()
    ensures IsDescriptor(m)
    ensures Q.Deref(Q.New(42, m)) == 42
    ensures Q.From(42, m) == Q.New(42, m)
  {
    InRange8Means(m);
  }

  /** `*q = 200` through `deref_mut` on a kilogram quantity holding 100
      (src/lib.rs:434-439): the value changes and the descriptor does not. */
  method DerefMut() returns (before: int, after: int, u: Unit)
    ensures before == 100 && after == 200 && u == kg
  {
    InRange8Means(kg);
    var cell := new Q.QuantityCell(Q.New(100, kg));
    before := Q.Deref(cell.Value());
    cell.Assign(200);
    after := Q.Deref(cell.Value());
    u := cell.Value().u;
  }

  /** 5 m equals 5 m and is less than 10 m (src/lib.rs:441-449). */
  lemma EqualityAndOrdering()
    ensures IsDescriptor(m)
    ensures Q.Eq(Q.New(5, m), Q.New(5, m))
    ensures Q.Lt(Q.New(5, m), Q.New(10, m))
    ensures Q.Cmp(Q.New(5, m), Q.New(10, m)) == Q.Less
  {
    InRange8Means(m);
    Q.CmpIsTotalOrder(Q.New(5, m), Q.New(10, m), Q.New(10, m));
  }

  /** Two equal quantities feed a fresh hasher alike (src/lib.rs:451-464). */
  lemma EqualHashes()
    ensures IsDescriptor(m)
    ensures Q.HashInto(Q.New(42, m), []) == Q.HashInto(Q.New(42, m), []) == [42]
  {
    InRange8Means(m);
  }

  /** 10 m + 3 m is 13 m and 10 m - 3 m is 7 m (src/lib.rs:470-476). */
  lemma AddSubSameUnits()
    ensures IsDescriptor(m)
    ensures Q.Add(Q.New(10, m), Q.New(3, m)) == Q.New(13, m)
    ensures Q.Sub(Q.New(10, m), Q.New(3, m)) == Q.New(7, m)
  {
    InRange8Means(m);
  }

  /** The square metre, `Mul<m, m>`. */
  lemma SquareMetre()
    ensures Mul(Some(m), Some(m)) == Some(Unit(0, [0, 2, 0, 0, 0, 0, 0, 0]))
    ensures IsDescriptor(m) && IsDescriptor(Unit(0, [0, 2, 0, 0, 0, 0, 0, 0]))
  {
    CombineOf8(Plus, m, m);
    InRange8Means(m);
    InRange8Means(Unit(0, [0, 2, 0, 0, 0, 0, 0, 0]));
  }

  /** 6 m * 4 m is 24 square metres (src/lib.rs:478-485). */
  lemma MulCombinesUnits()
    ensures IsDescriptor(m)
    ensures Q.Mul(Q.Quantity(6, m), Q.Quantity(4, m)) == Some(Q.Quantity(24, Unit(0, [0, 2, 0, 0, 0, 0, 0, 0])))
  {
    SquareMetre();
  }

  /** 24 square metres / 3 m is 8 m (src/lib.rs:487-489). */
  lemma DivCombinesUnits()
    ensures IsDescriptor(Unit(0, [0, 2, 0, 0, 0, 0, 0, 0])) && IsDescriptor(m)
    ensures Q.Div(Q.Quantity(24, Unit(0, [0, 2, 0, 0, 0, 0, 0, 0])), Q.Quantity(3, m)) == Some(Q.Quantity(8, m))
  {
    SquareMetre();
    CombineOf8(Minus, Unit(0, [0, 2, 0, 0, 0, 0, 0, 0]), m);
    TruncDivExact(8, 3);
  }

  /** 10 m / 5 m is the unitless 2 (src/lib.rs:491-497). */
  lemma DivisionToUnitless()
    ensures IsDescriptor(m)
    ensures Q.Div(Q.Quantity(10, m), Q.Quantity(5, m)) == Some(Q.Quantity(2, unit))
  {
    InRange8Means(m);
    CombineOf8(Minus, m, m);
    TruncDivExact(2, 5);
  }

  /** 3 m is 3000 mm, `milli<m>` being `m` at scale -3 (src/lib.rs:523-528). */
  lemma MetreToMillimetre()
    ensures Prefixed(Milli, m) == Some(Unit(-3, m.dims))
    ensures CanConvert(I32, m, Unit(-3, m.dims), 3)
    ensures Q.Convert(I32, Q.Quantity(3, m), Unit(-3, m.dims)) == Q.Quantity(3000, Unit(-3, m.dims))
  {
    MilliMetre();
    InRange8Means(m);
    ConvertsOnI32();
    ScalingExamples();
  }

  /** 3000 mm is 3 m again (src/lib.rs:530-532). */
  lemma MillimetreToMetre()
    ensures CanConvert(I32, Unit(-3, m.dims), m, 3000)
    ensures Q.Convert(I32, Q.Quantity(3000, Unit(-3, m.dims)), m) == Q.Quantity(3, m)
  {
    InRange8Means(m);
    ConvertsOnI32();
    ScalingExamples();
  }

  /** 25 km is 25000 m, `kilo<m>` being `m` at scale 3 (src/lib.rs:535-540,
      where the value is the `f64` 2.5). */
  lemma KilometreToMetre()
    ensures Prefixed(Kilo, m) == Some(Unit(3, m.dims))
    ensures CanConvert(I32, Unit(3, m.dims), m, 25)
    ensures Q.Convert(I32, Q.Quantity(25, Unit(3, m.dims)), m) == Q.Quantity(25000, m)
  {
    KiloMetre();
    InRange8Means(m);
    I32Bounds();
    assert Pow10(3) == 1000;
  }

  /** Converting between the extreme scales -128 and 127 needs the exponent
      difference 255, which is no `i8`, so the model admits no such
      conversion. */
  lemma ExponentDifferenceOverflows(v: int)
    ensures !InKind(I8, 127 - (-128))
    ensures !CanConvert(I32, Unit(-128, m.dims), Unit(127, m.dims), v)
  {
    I8Bounds();
  }

  /** The scalings the conversion test needs are valid on `i32`. */
  lemma ConvertsOnI32()
    ensures CanScale(I32, 3, -3) && CanScale(I32, 3000, 3)
  {
    I32Bounds();
    assert Pow10(3) == 1000;
  }

  /** Converting 42 m to metres leaves 42 (src/lib.rs:542-547). */
  lemma ConversionIdentity()
    ensures IsDescriptor(m) && CanConvert(I32, m, m, 42)
    ensures Q.Convert(I32, Q.Quantity(42, m), m) == Q.Quantity(42, m)
  {
    InRange8Means(m);
    I32Bounds();
    Q.ConvertToSameUnit(I32, Q.Quantity(42, m));
  }

  /** Converting 3001 mm to metres gives 3 m: truncation loses the last
      digit, so converting back could give only 3000 mm. */
  lemma ConversionTruncates()
    ensures CanConvert(I32, Unit(-3, m.dims), m, 3001)
    ensures Q.Convert(I32, Q.Quantity(3001, Unit(-3, m.dims)), m) == Q.Quantity(3, m)
  {
    InRange8Means(m);
    InRange8Means(Unit(-3, m.dims));
    I32Bounds();
    assert Pow10(3) == 1000;
    TruncQuotientUnique(3001, 1000, 3);
    var r := MulPowerOfTen(I32, 3001, 3);
    TruncQuotientUnique(3001, 1000, r);
  }

  /** Metres per second, `Div<m, s>`. */
  lemma MetrePerSecond()
    ensures Div(Some(m), Some(s)) == Some(Unit(0, [-1, 1, 0, 0, 0, 0, 0, 0]))
  {
    CombineOf8(Minus, m, s);
  }

  /** 10 m/s * 5 s is 50 m (src/lib.rs:553-559). */
  lemma VelocityTimesTime()
    ensures Div(Some(m), Some(s)) == Some(Unit(0, [-1, 1, 0, 0, 0, 0, 0, 0]))
    ensures IsDescriptor(Unit(0, [-1, 1, 0, 0, 0, 0, 0, 0])) && IsDescriptor(s)
    ensures Q.Mul(Q.Quantity(10, Unit(0, [-1, 1, 0, 0, 0, 0, 0, 0])), Q.Quantity(5, s)) == Some(Q.Quantity(50, m))
  {
    MetrePerSecond();
    InRange8Means(s);
    InRange8Means(Unit(0, [-1, 1, 0, 0, 0, 0, 0, 0]));
    CombineOf8(Plus, Unit(0, [-1, 1, 0, 0, 0, 0, 0, 0]), s);
  }

  /** 10 kg * 5 m/s^2 is 50 N (src/lib.rs:561-567). */
  lemma MassTimesAcceleration()
    ensures Div(Some(m), Mul(Some(s), Some(s))) == Some(Unit(0, [-2, 1, 0, 0, 0, 0, 0, 0]))
    ensures N == Some(Unit(0, [-2, 1, 1, 0, 0, 0, 0, 0]))
    ensures IsDescriptor(kg) && IsDescriptor(Unit(0, [-2, 1, 0, 0, 0, 0, 0, 0]))
    ensures Q.Mul(Q.Quantity(10, kg), Q.Quantity(5, Unit(0, [-2, 1, 0, 0, 0, 0, 0, 0]))) == Some(Q.Quantity(50, N.value))
  {
    SecondSquaredStep();
    AccelerationStep();
    NewtonStep();
    NewtonIs();
    InRange8Means(kg);
    InRange8Means(Unit(0, [-2, 1, 0, 0, 0, 0, 0, 0]));
  }

  /** 50 N * 2 m is 100 J (src/lib.rs:569-572). The product's type is
      `Mul<N, m>` while `J` is `Mul<m, N>`; they are the same descriptor. */
  lemma ForceTimesDistance()
    ensures N.Some? && J.Some? && IsDescriptor(N.value) && IsDescriptor(m)
    ensures Q.Mul(Q.Quantity(50, N.value), Q.Quantity(2, m)) == Some(Q.Quantity(100, J.value))
  {
    NewtonIs();
    JouleIs();
    InRange8Means(m);
    InRange8Means(Unit(0, [-2, 1, 1, 0, 0, 0, 0, 0]));
    MulCommutes(m, Unit(0, [-2, 1, 1, 0, 0, 0, 0, 0]));
    JouleStep();
  }
}
