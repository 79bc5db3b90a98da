# uy, modelled in Dafny

uy is a Rust units-of-measure library. A quantity is a raw number tagged with
a zero-sized descriptor type `$system<EXP, D1, ..., Dn>`. `EXP` is a power of
ten and each `Di` is the exponent of one dimension. The descriptor arithmetic
runs in the type checker. A product, quotient or prefix whose type cannot be
formed makes the program fail to compile.

This project models that arithmetic on values and proves its properties:

- `UnitSystem` covers the `power_of_ten_unit_system` macro. It models the
  descriptor, its products and quotients with `TenTo<N>` and with other
  descriptors, conversions, and the generated `unitless` and base aliases.
  A type that would not resolve is `None`.
- `Inner` covers the numeral bridge of `src/inner.rs`. Every `Const<I>`
  operation goes to a type-level numeral and back, and that mapping exists
  only for -30..30.
- `RustInt` and `PowerOfTen` cover Rust's integer types, truncating `/`, and
  `MulPowerOfTen` for integers.
- `Quantities` covers the `Quantity` container. `src/lib.rs` and
  `src/quantity.rs` define it twice; the second copy lacks `DerefMut`.
- `Si` covers the SI catalog of `src/si.rs`.
- `Scenarios` restates the crate's unit tests over the model.

Points where the model makes a choice the source leaves open:

- **Dimension range.** A product or quotient of two descriptors sends its
  scale and every dimension exponent through the bridge (src/lib.rs:121-127,
  src/lib.rs:145-151). So all components of both operands and of the result
  must lie in -30..30.
- **`TenTo` range.** `* TenTo<N>` and `/ TenTo<N>` check only the scale
  (`TenToIgnoresDimensions`).
- **Conversion range.** Conversion checks no range at all. It only computes
  `EXP2 - EXP1` in `i8`.
- **Division of numerals.** The quotient of the type-level numerals belongs
  to the typenum crate. The model takes it to truncate toward zero, like
  Rust's `/`. A zero divisor has no implementation.
- **Round trips.** Conversion round-trips exactly only when it refines
  first (m to mm to m). Coarsening first truncates.
- **Integer types.** `isize` is taken to be 64 bits wide. `i128` is not in
  the list of integer types that get `MulPowerOfTen` (src/lib.rs:39).

## Model

| member | source | states |
|---|---|---|
| `RustInt.TruncDiv` | src/lib.rs:31 | Rust's `/`: the remainder is smaller than the divisor and never has the dividend's opposite sign; the quotient is no larger than the dividend and has the sign of the operands' product |
| `RustInt.TruncQuotientUnique` | src/lib.rs:31 | only one quotient has the truncating-remainder property, so `IsTruncQuotient` independently defines `TruncDiv` |
| `RustInt.TruncDivExact` | src/lib.rs:31 | dividing an exact multiple `v * d` by `d` gives `v` |
| `RustInt.Pow10Add` | src/lib.rs:29-31 | `10^a * 10^b = 10^(a+b)` |
| `RustInt.I8Bounds` | src/lib.rs:67 | the `i8` range of every descriptor exponent is -128..127 |
| `RustInt.I32Bounds` | src/lib.rs:503-509 | the `i32` range used by the tests is -2^31..2^31-1 |
| `PowerOfTen.MulPowerOfTen` | src/lib.rs:23-39 | the result stays in the integer type; a negative exponent multiplies by `10^-exp`; otherwise it is the truncated quotient by `10^exp`, no larger in magnitude and of the same sign |
| `PowerOfTen.ScalingExamples` | src/lib.rs:503-509 | 5 at -3 is 5000, 5000 at 3 is 5, 42 at 0 is 42, and -15 at 1 is -1 (toward zero) |
| `PowerOfTen.RefineThenCoarsen` | src/lib.rs:28-32 | scaling up by `10^e` and back down is exact, and the second step is valid |
| `PowerOfTen.CoarsenThenRefine` | src/lib.rs:28-32 | scaling down first and back up rounds toward zero: the loss is below `10^e` and has the sign of the value |
| `PowerOfTen.CoarsenFirstIsLossy` | src/lib.rs:28-32 | 5 scaled down by 10^3 and back up is 0 |
| `Inner.EnumeratedIsRange` | src/inner.rs:100-104 | a numeral has `ToTypenum`/`ToConst` impls exactly when its value lies in -30..30 |
| `Inner.EnumeratedEnds` | src/inner.rs:100-104 | the table contains N30, Z0 and P30 and not N31 or P31 |
| `Inner.ToTypenum` | src/inner.rs:83-88 | `Const<c>` has a `ToTypenum` impl exactly when c is in range; its output is an enumerated numeral denoting c |
| `Inner.ToConst` | src/inner.rs:90-95 | a numeral has a `ToConst` impl exactly when its value is in range; its output is the `Const` of that value, whose canonical numeral is the input |
| `Inner.NumAdd` | src/inner.rs:10-15 | the backend's `+` on numerals denotes the sum of their values |
| `Inner.NumSub` | src/inner.rs:23-28 | the backend's `-` on numerals denotes the difference of their values |
| `Inner.NumMul` | src/inner.rs:36-41 | the backend's `*` on numerals denotes the product of their values |
| `Inner.NumNeg` | src/inner.rs:61-66 | the backend's unary `-` denotes the negated value |
| `Inner.NumDiv` | src/inner.rs:49-54 | the backend's `/` is defined iff the divisor is not zero, and then denotes the quotient truncated toward zero |
| `Inner.BridgeRoundTrip` | src/inner.rs:80-98 | `Const<c>` has a numeral iff c is in range, and mapping it there and back gives `Const<c>` |
| `Inner.BridgeRoundTripNumeral` | src/inner.rs:80-98 | a numeral has a `Const` iff it is in range, and mapping it there and back gives the same numeral |
| `Inner.ConstAdd` | src/inner.rs:6-17 | `Const<A> + Const<B>` exists iff A, B and A+B are in range, and is `Const<A+B>` |
| `Inner.ConstSub` | src/inner.rs:19-30 | `Const<A> - Const<B>` exists iff A, B and A-B are in range, and is `Const<A-B>` |
| `Inner.ConstMul` | src/inner.rs:32-43 | `Const<A> * Const<B>` exists iff A, B and A*B are in range, and is `Const<A*B>` |
| `Inner.ConstDiv` | src/inner.rs:45-56 | `Const<A> / Const<B>` exists iff A and B are in range and B is not 0, and is the truncated quotient |
| `Inner.ConstNeg` | src/inner.rs:58-68 | `-Const<N>` exists iff N is in range (the range is symmetric), and is `Const<-N>` |
| `Inner.AddThenSub` | src/inner.rs:6-30 | `(A + B) - B = A` whenever the sum exists |
| `Inner.NegNeg` | src/inner.rs:58-68 | negating twice is the identity on the range |
| `Inner.MulLeavesRange` | src/inner.rs:32-43 | `6 * 6` has no type, `5 * 6` is 30 |
| `Inner.DivTruncates` | src/inner.rs:45-56 | `-7 / 2` and `7 / -2` are -3, and `5 / 0` has no type |
| `UnitSystem.ConstCombine` | src/lib.rs:121-123 | one component's `Const` add or subtract: defined iff both operands and the result are in range, with that value |
| `UnitSystem.CombineEach` | src/lib.rs:123 | the per-dimension bounds resolve iff every dimension's operands and result are in range; the result is the component-wise sum or difference |
| `UnitSystem.CombineUnits` | src/lib.rs:115-161 | a product or quotient of descriptors exists iff every component of both operands and of the pointwise result is in range, and it equals the pointwise result |
| `UnitSystem.MulTenTo` | src/lib.rs:71-91 | `U * TenTo<N>` exists iff the scale, N and their sum are in range; it adds N to the scale and keeps every dimension |
| `UnitSystem.DivTenTo` | src/lib.rs:93-113 | `U / TenTo<N>` exists iff the scale, N and their difference are in range; it subtracts N from the scale and keeps every dimension |
| `UnitSystem.MulUnits` | src/lib.rs:115-137 | `U1 * U2` exists iff all components of U1, U2 and U1+U2 are in range, and adds them pointwise |
| `UnitSystem.DivUnits` | src/lib.rs:139-161 | `U1 / U2` exists iff all components of U1, U2 and U1-U2 are in range, and subtracts them pointwise |
| `UnitSystem.Mul` | src/lib.rs:250-251 | the alias `Mul<A, B>` exists only if both operands do and it is their pointwise sum; on two descriptors it is `MulUnits` |
| `UnitSystem.Div` | src/lib.rs:252-253 | the alias `Div<A, B>` exists only if both operands do and it is their pointwise difference; on two descriptors it is `DivUnits` |
| `UnitSystem.MulTen` | src/lib.rs:250-251 | `Mul<U, TenTo<N>>` on a possibly missing U: when it exists, it is U with the scale shifted by N |
| `UnitSystem.Convertible` | src/lib.rs:163-168 | a conversion impl exists between two descriptors exactly when they are of one family and share every dimension exponent; the scales are free |
| `UnitSystem.UnitConvert` | src/lib.rs:163-175 | defined only between descriptors with equal dimensions; gives `mul_power_of_ten(v, EXP2 - EXP1)`, which is `v * 10^(EXP1-EXP2)` when refining and the truncated quotient otherwise |
| `UnitSystem.GenUnitless` | src/lib.rs:195-204 | the accumulator grows by one zero per dimension name, and the scale is 0 |
| `UnitSystem.Unitless` | src/lib.rs:183 | `unitless` has scale 0 and one zero exponent per dimension |
| `UnitSystem.ZerosAfter` | src/lib.rs:239-246 | one zero is appended per remaining name |
| `UnitSystem.ZerosBefore` | src/lib.rs:230-237 | a zero per earlier name, then the 1, then a zero per later name |
| `UnitSystem.GenOneBase` | src/lib.rs:228-247 | the alias of the dimension at index i has scale 0 and exponent 1 at i and 0 elsewhere |
| `UnitSystem.GenBaseUnits` | src/lib.rs:209-223 | walking the names emits, for each remaining name, its one-hot alias at its absolute index |
| `UnitSystem.BaseUnits` | src/lib.rs:186 | the i-th base alias of a family of n dimensions is scale 0 with a one-hot vector of length n at i |
| `UnitSystem.MulCommutes` | src/lib.rs:115-137 | `U1 * U2 = U2 * U1`, including whether it exists |
| `UnitSystem.MulThenDiv` | src/lib.rs:115-161 | `(U1 * U2) / U2 = U1` whenever the product exists |
| `UnitSystem.DivThenMul` | src/lib.rs:115-161 | `(U1 / U2) * U2 = U1` whenever the quotient exists |
| `UnitSystem.DivSelf` | src/lib.rs:139-161 | `U / U` exists exactly when U is in range, and is `unitless` |
| `UnitSystem.MulUnitless` | src/lib.rs:115-137 | multiplying by `unitless` gives U back when U is in range, and no type otherwise |
| `UnitSystem.MulAssociates` | src/lib.rs:115-137 | both groupings of a triple product agree whenever both exist |
| `UnitSystem.TenToRoundTrip` | src/lib.rs:71-113 | `(U * TenTo<N>) / TenTo<N> = U` whenever the product exists |
| `UnitSystem.TenToIsScaledUnitless` | src/lib.rs:71-137 | on an in-range U, `U * TenTo<N>` equals U times the dimensionless descriptor of scale N |
| `UnitSystem.TenToIgnoresDimensions` | src/lib.rs:71-91 | a dimension of 40 does not stop a `TenTo` product but does stop a product with a descriptor |
| `UnitSystem.ConvertToSelf` | src/lib.rs:163-175 | converting to the same descriptor is always valid and is the identity |
| `Quantities.NewThenDeref` | src/lib.rs:270-297 | `*Quantity::new(v)` is v, under the chosen descriptor |
| `Quantities.New` | src/lib.rs:270-275 | the new quantity holds the given value under the declared descriptor |
| `Quantities.Deref` | src/lib.rs:291-297 | dereferencing yields the raw value |
| `Quantities.From` | src/quantity.rs:48-52 | `from(v)` is `new(v)` |
| `Quantities.Convert` | src/lib.rs:286-288 | the result has the target descriptor and the rescaled value, exactly or truncated as above |
| `Quantities.ConvertRoundTrip` | src/lib.rs:286-288 | converting to a finer scale and back gives the same quantity |
| `Quantities.ConvertToSameUnit` | src/quantity.rs:35-37 | converting to the quantity's own descriptor changes nothing |
| `Quantities.ConvertTwice` | src/lib.rs:286-288 | two refining conversions in a row give the same quantity as one direct conversion, when all three are valid |
| `Quantities.AddThenSub` | src/lib.rs:348-374 | addition keeps the descriptor and is commutative, and subtracting the addend gives back the original |
| `Quantities.Add` | src/lib.rs:348-360 | the sum keeps the common descriptor and adds the raw values |
| `Quantities.Sub` | src/lib.rs:362-374 | the difference keeps the common descriptor and subtracts the raw values |
| `Quantities.Mul` | src/lib.rs:376-390 | the product exists iff the descriptor product does; it has the values' product under the pointwise-sum descriptor |
| `Quantities.Div` | src/lib.rs:392-406 | the quotient exists iff the descriptor quotient does; it has the truncated quotient of the values under the pointwise-difference descriptor |
| `Quantities.MulThenDivQuantity` | src/lib.rs:376-406 | multiplying by a non-zero quantity and dividing by it gives back the original value and descriptor |
| `Quantities.EqIsIdentity` | src/lib.rs:322-326 | `eq` on the values is equality of quantities of one descriptor |
| `Quantities.CmpIsTotalOrder` | src/lib.rs:330-340 | `cmp` agrees with `eq`, is antisymmetric and transitive, and `<` is `<` on the values |
| `Quantities.EqualQuantitiesHashAlike` | src/lib.rs:342-346 | equal quantities feed the hasher the same data |
| `Quantities.Eq` | src/lib.rs:322-326 | two quantities of one descriptor are `==` exactly when they are the same quantity |
| `Quantities.Cmp` | src/lib.rs:336-340 | `Less`, `Equal` and `Greater` exactly when the raw values are `<`, `==` and `>` |
| `Quantities.PartialCmp` | src/lib.rs:330-334 | always defined, and agrees with `cmp` |
| `Quantities.Lt` | src/lib.rs:330-334 | `a < b` exactly when the raw values are ordered so |
| `Quantities.HashInto` | src/lib.rs:342-346 | hashing appends the raw value, and nothing else, to what the hasher was fed before |
| `Quantities.QuantityCell.constructor` | src/lib.rs:270-275 | a variable holding a quantity holds its value and descriptor |
| `Quantities.QuantityCell.Assign` | src/lib.rs:299-303 | writing through `deref_mut` replaces the value and keeps the descriptor |
| `Si.AliasesMatchGenerator` | src/si.rs:46-54 | `unit` is the generated `unitless`, and the i-th hand-written base alias is the generated one-hot alias of the i-th dimension in the order s, m, kg, A, K, mol, cd, rad |
| `Si.Shift` | src/si.rs:20-44 | every prefix scales by a non-zero power of ten within the bridge's range |
| `Si.ShiftInjective` | src/si.rs:20-44 | distinct prefixes have distinct shifts |
| `Si.Prefixed` | src/si.rs:20-44 | `p<U>` exists on a descriptor iff its scale and the shifted scale are in range, and is U with the scale shifted by the prefix |
| `Si.ShiftInRange` | src/si.rs:20-44 | every prefix shift is in -30..30; quecto and quetta sit at the ends |
| `Si.PrefixesApplyAtScaleZero` | src/si.rs:20-44 | every prefix of a scale-0 descriptor exists and has the shift as its scale |
| `Si.KiloOfQuettaFails` | src/si.rs:35-44 | kilo of a quetta-prefixed unit has no type |
| `Si.KiloOfMilliCancels` | src/si.rs:29-35 | kilo of milli of a unit is that unit |
| `Si.MilliMetre` | src/si.rs:29 | `milli<m>` is m at scale -3 |
| `Si.KiloMetre` | src/si.rs:35 | `kilo<m>` is m at scale 3 |
| `Si.HertzIs` | src/si.rs:56 | Hz is s^-1 |
| `Si.NewtonIs` | src/si.rs:57 | N is kg m s^-2 |
| `Si.PascalIs` | src/si.rs:58 | Pa is kg m^-1 s^-2 |
| `Si.JouleIs` | src/si.rs:59 | J is kg m^2 s^-2 |
| `Si.WattIs` | src/si.rs:60 | W is kg m^2 s^-3 |
| `Si.CoulombIs` | src/si.rs:61 | C is s A |
| `Si.VoltIs` | src/si.rs:62 | V is kg m^2 s^-3 A^-1 |
| `Si.FaradIs` | src/si.rs:63 | F is s^4 A^2 kg^-1 m^-2 |
| `Si.OhmIs` | src/si.rs:64 | Ohm is kg m^2 s^-3 A^-2 |
| `Si.SiemensIs` | src/si.rs:65 | S is s^3 A^2 kg^-1 m^-2 |
| `Si.WeberIs` | src/si.rs:66 | Wb is kg m^2 s^-2 A^-1 |
| `Si.TeslaIs` | src/si.rs:67 | T is kg s^-2 A^-1 |
| `Si.HenryIs` | src/si.rs:68 | H is kg m^2 s^-2 A^-2 |
| `Si.GrayIs` | src/si.rs:69 | Gy is m^2 s^-2 |
| `Scenarios.NewAndFrom` | src/lib.rs:421-432 | `new(42)` dereferences to 42 and `42.into()` is the same quantity |
| `Scenarios.DerefMut` | src/lib.rs:434-439 | a kilogram quantity holding 100 holds 200 after `*q = 200`, still in kilograms |
| `Scenarios.EqualityAndOrdering` | src/lib.rs:441-449 | 5 m equals 5 m, is less than 10 m, and compares `Less` |
| `Scenarios.EqualHashes` | src/lib.rs:451-464 | two 42 m quantities feed a fresh hasher alike |
| `Scenarios.AddSubSameUnits` | src/lib.rs:470-476 | 10 m + 3 m is 13 m and 10 m - 3 m is 7 m |
| `Scenarios.MulCombinesUnits` | src/lib.rs:478-485 | 6 m * 4 m is 24 m^2 |
| `Scenarios.DivCombinesUnits` | src/lib.rs:487-489 | 24 m^2 / 3 m is 8 m |
| `Scenarios.DivisionToUnitless` | src/lib.rs:491-497 | 10 m / 5 m is the dimensionless 2 |
| `Scenarios.MetreToMillimetre` | src/lib.rs:523-528 | 3 m converts to 3000 mm on `i32` |
| `Scenarios.MillimetreToMetre` | src/lib.rs:530-532 | 3000 mm converts back to 3 m |
| `Scenarios.ConversionIdentity` | src/lib.rs:542-547 | converting 42 m to metres leaves 42 |
| `Scenarios.ConversionTruncates` | src/lib.rs:530-532 | 3001 mm converts to 3 m: coarsening truncates (3001 is an input of this model, not of the test, which converts 3000 mm) |
| `Scenarios.KilometreToMetre` | src/lib.rs:535-540 | `kilo<m>` is m at scale 3, and 25 km converts to 25000 m on `i32` (the test converts the `f64` 2.5) |
| `Scenarios.ExponentDifferenceOverflows` | src/lib.rs:172-174 | the exponent difference between scales -128 and 127 is no `i8`, so no conversion between them is admitted |
| `Scenarios.VelocityTimesTime` | src/lib.rs:553-559 | (m/s) * s is m, and 10 * 5 is 50 |
| `Scenarios.MassTimesAcceleration` | src/lib.rs:561-567 | kg * (m/(s*s)) is N |
| `Scenarios.ForceTimesDistance` | src/lib.rs:569-572 | N * m is J, although J is declared as m * N |

## Left out

- The `f32`/`f64` impls of `MulPowerOfTen` (src/lib.rs:41-51) and the float
  values in the tests. They are floating point. Three float tests appear in
  `Scenarios` with integer values:
  - `KilometreToMetre` for src/lib.rs:535-540;
  - `VelocityTimesTime` for src/lib.rs:553-559;
  - `MassTimesAcceleration` and `ForceTimesDistance` for src/lib.rs:561-573.
  The float scaling test (src/lib.rs:511-517) is not carried.
- The typenum crate's internals. Its numerals are modelled by their values,
  and its arithmetic is the integer arithmetic of those values.
- The `paste` identifier mangling (`Typenum` prefix, case changes) and the
  `TypenumSi` carrier struct. They only produce names.
- `DefaultHasher`. `HashInto` models only which data is fed to the hasher,
  which is the raw value.
- `Debug`, `Clone` and `Copy`, the empty `Unit` marker trait, and the README
  doctest (src/lib.rs:408-412). None of them computes anything.
- Overflow of the raw values' own `+`, `-`, `*` and `/`, and the panic on a
  zero divisor. Raw values are unbounded and `Quantities.Div` requires a
  non-zero divisor.
- `Quantities.Add`, `Quantities.Sub` and `Quantities.Mul`: no wrap-around or
  overflow panic of the raw type is modelled, because the operator belongs
  to the raw value type and not to this crate.
- The overflow of `10.pow(..)` and of the product in `mul_power_of_ten`, and
  `-exp` for `exp = -128`. These are preconditions (`CanScale`), not
  modelled panics.
- `UnitSystem.UnitConvert`: the `i8` subtraction `EXP2 - EXP1`
  (src/lib.rs:173) must not overflow. This is a precondition (`CanConvert`
  requires the difference to be an `i8`). The model does not capture the
  debug-build panic or the release-build wrap-around. For example, `Si<-128, ..>`
  to `Si<127, ..>` gives 255, which wraps to -1.
- `UnitSystem.SameSystem` compares only the number of dimensions. The model
  handles one generated family at a time. It does not model that Rust rejects
  products and conversions between two different families of the same arity.
  The crate generates only `Si`.
- Compile failure itself. A type that does not resolve is `None`, and a bound
  the caller must satisfy is a `requires`.
- Stale names: `si::meters` and `si::units::m` in src/quantity.rs:31-32, and
  `si::unitless` in src/lib.rs:495 where src/si.rs declares `unit`. `unit`
  and `unitless` are the same all-zero descriptor here.
- src/quantity.rs is not in the crate's module tree (src/lib.rs:8-9). It is
  modelled once, together with the copy in src/lib.rs. It has no `DerefMut`,
  so `QuantityCell` models only the copy in src/lib.rs.
