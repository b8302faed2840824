/** The hexadecimal float syntax of `crates/aim-android-xml/src/double.rs`: `hex_bits` returns the
    binary32 or binary64 pattern nearest to the exact value of the text, ties to even
    (section 4.3.1 of IEEE 754-2019). */
module HexFloat {
  import opened Common

  const I64_MAX: int := 0x7fff_ffff_ffff_ffff

  // ---- powers of two ----

  ghost function Real2(k: int): (r: real)
    ensures r > 0.0
    decreases if k < 0 then -k else k
  {
    if k == 0 then 1.0 else if k > 0 then 2.0 * Real2(k - 1) else Real2(k + 1) / 2.0
  }

  lemma Real2Next(k: int)
    ensures Real2(k + 1) == 2.0 * Real2(k)
  {
  }

  /** Scaling by a natural power. */
  lemma {:induction false} Real2Add(k: int, n: nat)
    ensures Real2(k + n) == Real2(k) * Pow2(n) as real
    decreases n
  {
    if n > 0 {
      Real2Add(k, n - 1);
      Real2Next(k + n - 1);
      var x, y := Real2(k), Pow2(n - 1) as real;
      assert 2.0 * (x * y) == x * (2.0 * y);
    }
  }

  lemma {:induction false} Pow2Add(a: nat, b: nat)
    ensures Pow2(a + b) == Pow2(a) * Pow2(b)
    decreases b
  {
    if b > 0 {
      Pow2Add(a, b - 1);
      calc {
        Pow2(a + b);
        2 * (Pow2(a) * Pow2(b - 1));
        Pow2(a) * (2 * Pow2(b - 1));
      }
    }
  }

  // ---- what a bit pattern stands for ----

  /** A binary interchange format: `fraction` bits after the leading one, exponents `1 - max` to `max`. */
  datatype Format = Format(fraction: nat, max: nat) {
    /** The parameters `hex_bits` is called with fit its 64-bit integers. */
    ghost predicate Valid() {
      1 <= fraction < 63 && 1 <= max && (2 * max + 1) * Pow2(fraction) <= U64_MAX
    }

    /** The least exponent of a normal value. */
    function Min(): int { 1 - max }

    /** The exponent of the least subnormal value. */
    function Smallest(): int { 1 - max - fraction }

    function Infinity(): nat { (2 * max + 1) * Pow2(fraction) }
  }

  const BINARY64 := Format(52, 1023)
  const BINARY32 := Format(23, 127)

  lemma FormatsAreValid()
    ensures BINARY64.Valid() && BINARY32.Valid()
    ensures BINARY64.Infinity() == 0x7ff0_0000_0000_0000 && BINARY32.Infinity() == 0x7f80_0000
  {
    assert Pow2(3) == 8 && Pow2(5) == 32 by { assert Pow2(2) == 4; }
    Pow2Add(5, 5);
    Pow2Add(10, 3);
    Pow2Add(13, 10);
    Pow2Add(13, 13);
    Pow2Add(26, 26);
  }

  /** The value of a non-negative pattern. The infinity pattern counts as the power of two past the
      largest finite value, which is where rounding goes over to it. */
  ghost function Value(f: Format, pattern: nat): real {
    var field, rest := pattern / Pow2(f.fraction), pattern % Pow2(f.fraction);
    if field == 0 then rest as real * Real2(f.Smallest())
    else (Pow2(f.fraction) + rest) as real * Real2(f.Smallest() + field - 1)
  }

  ghost function Distance(x: real, y: real): real {
    if x < y then y - x else x - y
  }

  /** `r` is the pattern nearest to `x`, the even one of two that are equally near. */
  ghost predicate Nearest(f: Format, r: nat, x: real) {
    && r <= f.Infinity()
    && forall q: nat {:trigger Value(f, q)} :: q <= f.Infinity() && q != r ==>
         && Distance(Value(f, r), x) <= Distance(Value(f, q), x)
         && (Distance(Value(f, r), x) == Distance(Value(f, q), x) ==> r % 2 == 0)
  }

  lemma MulMonotone(a: int, b: int, d: nat)
    requires a <= b
    ensures a * d <= b * d
  {
  }

  lemma DivisionOf(n: nat, d: nat, t: nat)
    requires t < d
    ensures (n * d + t) / d == n && (n * d + t) % d == t
  {
    var x := n * d + t;
    var q, r := x / d, x % d;
    assert x == q * d + r;
    if q < n {
      MulMonotone(q + 1, n, d);
    } else if n < q {
      MulMonotone(n + 1, q, d);
    }
  }

  ghost function Spaced(f: Format, field: nat, t: nat): real {
    if field == 0 then t as real * Real2(f.Smallest())
    else (Pow2(f.fraction) + t) as real * Real2(f.Smallest() + field - 1)
  }

  /** Within one exponent field the values are evenly spaced, up to the first value of the next. */
  lemma ValueAt(f: Format, field: nat, t: nat)
    requires t <= Pow2(f.fraction)
    ensures Value(f, field * Pow2(f.fraction) + t) == Spaced(f, field, t)
  {
    hide Pow2, Real2;
    var m := Pow2(f.fraction);
    if t < m {
      DivisionOf(field, m, t);
    } else {
      assert field * m + t == (field + 1) * m + 0;
      DivisionOf(field + 1, m, 0);
      FieldEnd(f, field);
    }
  }

  /** The values of one exponent field run on into the next. */
  lemma FieldEnd(f: Format, field: nat)
    ensures Spaced(f, field, Pow2(f.fraction)) == Spaced(f, field + 1, 0)
  {
    hide Pow2, Real2;
    var m := Pow2(f.fraction);
    if field > 0 {
      var u := Real2(f.Smallest() + field - 1);
      Real2Next(f.Smallest() + field - 1);
      assert (m + m) as real * u == m as real * (2.0 * u);
    }
  }

  lemma ValueStep(f: Format, q: nat)
    ensures Value(f, q) < Value(f, q + 1)
  {
    hide Pow2, Real2;
    var m := Pow2(f.fraction);
    var field, t := q / m, q % m;
    assert q == field * m + t;
    ValueAt(f, field, t);
    ValueAt(f, field, t + 1);
    SpacedStep(f, field, t);
  }

  lemma SpacedStep(f: Format, field: nat, t: nat)
    ensures Spaced(f, field, t) < Spaced(f, field, t + 1)
  {
    hide Pow2, Real2;
    var u := Real2(if field == 0 then f.Smallest() else f.Smallest() + field - 1);
    var n := if field == 0 then t else Pow2(f.fraction) + t;
    assert (n + 1) as real * u == n as real * u + u;
  }

  lemma {:induction false} ValueMonotone(f: Format, p: nat, q: nat)
    requires p <= q
    ensures Value(f, p) <= Value(f, q)
    decreases q - p
  {
    if p < q {
      ValueMonotone(f, p, q - 1);
      ValueStep(f, q - 1);
    }
  }

  /** Between two neighbouring patterns the nearer one is nearest of all. */
  lemma NearestOfTwo(f: Format, p: nat, r: nat, x: real)
    requires p + 1 <= f.Infinity() && Value(f, p) <= x <= Value(f, p + 1)
    requires r == p ==> 2.0 * x <= Value(f, p) + Value(f, p + 1)
    requires r == p + 1 ==> 2.0 * x >= Value(f, p) + Value(f, p + 1)
    requires r == p || r == p + 1
    requires 2.0 * x == Value(f, p) + Value(f, p + 1) ==> r % 2 == 0
    ensures Nearest(f, r, x)
  {
    ValueStep(f, p);
    forall q: nat | q <= f.Infinity() && q != r
      ensures Distance(Value(f, r), x) <= Distance(Value(f, q), x)
      ensures Distance(Value(f, r), x) == Distance(Value(f, q), x) ==> r % 2 == 0
    {
      if q < p {
        ValueMonotone(f, q, p - 1);
        ValueStep(f, p - 1);
      } else if q > p + 1 {
        ValueMonotone(f, p + 2, q);
        ValueStep(f, p + 1);
      }
    }
  }

  /** At or past the power of two after the largest finite value the infinity pattern is nearest. */
  lemma NearestInfinity(f: Format, x: real)
    requires Value(f, f.Infinity()) <= x
    ensures Nearest(f, f.Infinity(), x)
  {
    forall q: nat | q < f.Infinity() ensures Value(f, q) < Value(f, f.Infinity()) {
      ValueMonotone(f, q, f.Infinity() - 1);
      ValueStep(f, f.Infinity() - 1);
    }
  }

  // ---- bits as a number ----

  ghost function Big(bits: seq<bool>): nat {
    if bits == [] then 0 else 2 * Big(bits[..|bits| - 1]) + (if bits[|bits| - 1] then 1 else 0)
  }

  lemma {:induction false} BigConcat(a: seq<bool>, b: seq<bool>)
    ensures Big(a + b) == Big(a) * Pow2(|b|) + Big(b)
    decreases |b|
  {
    if b == [] {
      assert a + b == a;
    } else {
      var c := b[..|b| - 1];
      assert (a + b)[..|a + b| - 1] == a + c;
      BigConcat(a, c);
      assert 2 * (Big(a) * Pow2(|c|)) == Big(a) * Pow2(|b|);
    }
  }

  lemma {:induction false} BigBound(a: seq<bool>)
    ensures Big(a) < Pow2(|a|)
  {
    if a != [] {
      BigBound(a[..|a| - 1]);
    }
  }

  lemma {:induction false} BigZero(a: seq<bool>)
    ensures Big(a) == 0 <==> forall i :: 0 <= i < |a| ==> !a[i]
  {
    if a != [] {
      var b := a[..|a| - 1];
      BigZero(b);
      if forall i :: 0 <= i < |b| ==> !b[i] {
        assert forall i :: 0 <= i < |b| ==> a[i] == b[i];
      } else {
        var i :| 0 <= i < |b| && b[i];
        assert a[i];
      }
    }
  }

  /** A number whose first bit is set has that many bits. */
  lemma BigLeading(a: seq<bool>)
    requires a != [] && a[0]
    ensures Pow2(|a| - 1) <= Big(a) < Pow2(|a|)
  {
    BigBound(a);
    assert a == [true] + a[1..];
    BigConcat([true], a[1..]);
    assert Big([true]) == 1;
  }

  ghost function Zeros(n: nat): (z: seq<bool>)
    ensures |z| == n && forall i :: 0 <= i < n ==> !z[i]
  {
    seq(n, i => false)
  }

  // ---- rounding a run of bits ----

  /** The code's test for rounding up after the first `count` bits. */
  ghost predicate RoundsUp(d: seq<bool>, count: nat)
    requires count < |d|
  {
    d[count] && ((exists i :: count < i < |d| && d[i]) || Big(d[..count]) % 2 != 0)
  }

  lemma StickyBits(d: seq<bool>, count: nat)
    requires count < |d|
    ensures (exists i :: count < i < |d| && d[i]) <==> Big(d[count + 1..]) > 0
  {
    var low := d[count + 1..];
    BigZero(low);
    if i :| count < i < |d| && d[i] {
      assert low[i - count - 1];
    }
    if Big(low) > 0 {
      var i :| 0 <= i < |low| && low[i];
      assert d[count + 1 + i];
    }
  }

  lemma BigOne(b: bool)
    ensures Big([b]) == if b then 1 else 0
  {
    assert [b][..0] == [];
  }

  lemma BigThree(a: seq<bool>, b: bool, low: seq<bool>, tail: seq<bool>, p: nat)
    requires tail == [b] + low && p == Big(a) * Pow2(|tail|)
    ensures Big(a + tail) == p + (if b then Pow2(|low|) else 0) + Big(low)
  {
    hide Big, Pow2;
    BigConcat(a, tail);
    BigConcat([b], low);
    BigOne(b);
  }

  lemma BitsSplit(d: seq<bool>, count: nat, p: nat)
    requires count < |d| && p == Big(d[..count]) * Pow2(|d| - count)
    ensures var h, low := Pow2(|d| - count - 1), Big(d[count + 1..]);
            low < h && Big(d) == p + (if d[count] then h else 0) + low
  {
    hide Big, Pow2;
    var low, tail := d[count + 1..], d[count..];
    assert |low| == |d| - count - 1 && |tail| == |d| - count;
    assert tail == [d[count]] + low;
    BigThree(d[..count], d[count], low, tail, p);
    assert d == d[..count] + tail;
    BigBound(low);
  }

  lemma HalfWay(kept: nat, p: nat)
    ensures (2 * kept + 1) * p == 2 * (kept * p) + p
    ensures (kept + 1) * p == kept * p + p
  {
  }

  /** Dropping all but the first `count` bits: the kept number, and how the rest compares to a half. */
  lemma RestAndHalf(d: seq<bool>, count: nat, a: nat, m: nat)
    requires count < |d| && m == Pow2(|d| - count) && a == Big(d[..count]) * m
    ensures a <= Big(d) < a + m
    ensures RoundsUp(d, count) ==> 2 * Big(d) >= 2 * a + m
    ensures !RoundsUp(d, count) ==> 2 * Big(d) <= 2 * a + m
    ensures 2 * Big(d) == 2 * a + m ==> (RoundsUp(d, count) <==> Big(d[..count]) % 2 != 0)
  {
    var h := Pow2(|d| - count - 1);
    assert Pow2(|d| - count) == 2 * h;
    hide Big, Pow2;
    BitsSplit(d, count, a);
    StickyBits(d, count);
    HalfCases(Big(d), a, m, h, Big(d[count + 1..]), d[count], Big(d[..count]) % 2 != 0, RoundsUp(d, count));
  }

  lemma HalfCases(n: nat, a: nat, p: nat, h: nat, low: nat, bit: bool, odd: bool, up: bool)
    requires n == a + (if bit then h else 0) + low && low < h && p == 2 * h
    requires up <==> bit && (low > 0 || odd)
    ensures a <= n < a + p
    ensures up ==> 2 * n >= 2 * a + p
    ensures !up ==> 2 * n <= 2 * a + p
    ensures 2 * n == 2 * a + p ==> (up <==> odd)
  {
  }

  /** Comparing multiples of a positive unit is comparing the multipliers. */
  lemma Scaled(a: int, b: int, u: real)
    requires u > 0.0
    ensures a <= b <==> a as real * u <= b as real * u
    ensures a == b <==> a as real * u == b as real * u
  {
    if a <= b {
      assert (b - a) as real * u >= 0.0;
    } else {
      assert (a - b) as real * u > 0.0;
    }
    assert (b - a) as real * u == b as real * u - a as real * u;
  }

  /** Rounding the number `d`, in units of the last place of its first `count` bits, between the two
      patterns those units fall on. */
  lemma RoundedBits(f: Format, d: seq<bool>, count: nat, top: int, p: nat, r: nat, x: real)
    requires count < |d| && p + 1 <= f.Infinity()
    requires Value(f, p) == Big(d[..count]) as real * Real2(top - count + 1)
    requires Value(f, p + 1) == (Big(d[..count]) + 1) as real * Real2(top - count + 1)
    requires p % 2 == Big(d[..count]) % 2
    requires r == if RoundsUp(d, count) then p + 1 else p
    requires x == Big(d) as real * Real2(top - |d| + 1)
    ensures Nearest(f, r, x)
  {
    hide Big, Pow2, Real2, Value, Nearest, RoundsUp;
    var kept, n, m := Big(d[..count]), Big(d), Pow2(|d| - count);
    var u := Real2(top - |d| + 1);
    RestAndHalf(d, count, kept * m, m);
    Real2Add(top - |d| + 1, |d| - count);
    UnitOf(kept, m, u);
    UnitOf(kept + 1, m, u);
    HalfWay(kept, m);
    RoundedUnits(f, p, r, kept * m, m, n, u, x);
  }

  lemma RoundedUnits(f: Format, p: nat, r: nat, a: nat, m: nat, n: nat, u: real, x: real)
    requires p + 1 <= f.Infinity() && u > 0.0
    requires Value(f, p) == a as real * u && Value(f, p + 1) == (a + m) as real * u && x == n as real * u
    requires a <= n <= a + m && (r == p || r == p + 1)
    requires r == p ==> 2 * n <= 2 * a + m
    requires r == p + 1 ==> 2 * n >= 2 * a + m
    requires 2 * n == 2 * a + m ==> r % 2 == 0
    ensures Nearest(f, r, x)
  {
    hide Value, Nearest;
    Scaled(a, n, u);
    Scaled(n, a + m, u);
    Scaled(2 * n, 2 * a + m, u);
    Scaled(2 * a + m, 2 * n, u);
    HalfUnits(a, m, n, u);
    NearestOfTwo(f, p, r, x);
  }

  lemma UnitOf(kept: nat, m: nat, u: real)
    ensures kept as real * (u * m as real) == (kept * m) as real * u
  {
    assert (kept * m) as real == kept as real * m as real;
  }

  lemma HalfUnits(a: nat, m: nat, n: nat, u: real)
    ensures (2 * a + m) as real * u == a as real * u + (a + m) as real * u
    ensures (2 * n) as real * u == 2.0 * (n as real * u)
  {
    assert (2 * a + m) as real == a as real + (a + m) as real;
    assert (2 * n) as real == 2.0 * n as real;
  }

  lemma EvenTwice(x: nat)
    ensures (2 * x) % 2 == 0
  {
  }

  lemma Doubled(n: nat, h: nat)
    ensures n * (2 * h) == 2 * (n * h)
  {
  }

  lemma EvenMultiple(n: nat, k: nat)
    requires k >= 1
    ensures (n * Pow2(k)) % 2 == 0
  {
    var p, h := Pow2(k), Pow2(k - 1);
    assert p == 2 * h;
    hide Pow2;
    Doubled(n, h);
    EvenTwice(n * h);
  }

  lemma Pow2Next(k: nat)
    ensures Pow2(k + 1) == 2 * Pow2(k)
  {
  }

  /** The parity of a pattern is that of its significand. */
  lemma PatternParity(f: Format, field: nat, t: nat)
    requires f.fraction >= 1
    ensures (field * Pow2(f.fraction) + t) % 2 == (Pow2(f.fraction) + t) % 2
  {
    EvenMultiple(field, f.fraction);
    EvenMultiple(1, f.fraction);
    hide Pow2;
    var a := field * Pow2(f.fraction);
    assert a % 2 == 0;
  }

  lemma PatternBelowInfinity(f: Format, field: nat, t: nat)
    requires field <= 2 * f.max && t < Pow2(f.fraction)
    ensures field * Pow2(f.fraction) + t + 1 <= f.Infinity()
  {
    hide Pow2;
    MulMonotone(field + 1, 2 * f.max + 1, Pow2(f.fraction));
    HalfWay(field, Pow2(f.fraction));
  }

  lemma NormalPattern(f: Format, top: int, t: nat)
    requires f.Min() <= top <= f.max && t < Pow2(f.fraction)
    ensures var p, u := (top + f.max) * Pow2(f.fraction) + t, Real2(top - f.fraction);
            && Value(f, p) == (Pow2(f.fraction) + t) as real * u
            && Value(f, p + 1) == (Pow2(f.fraction) + t + 1) as real * u
  {
    hide Pow2, Real2, Value;
    ValueAt(f, top + f.max, t);
    ValueAt(f, top + f.max, t + 1);
    assert f.Smallest() + (top + f.max) - 1 == top - f.fraction;
  }

  /** A leading bit in the normal range: the pattern is the exponent field over the rounded rest. The
      carry out of the significand is the step to the next exponent, and out of that to infinity. */
  lemma NormalRounds(f: Format, d: seq<bool>, top: int, kept: nat, r: nat, x: real)
    requires f.Valid() && f.Min() <= top <= f.max && f.fraction + 1 < |d| && d[0]
    requires x == Big(d) as real * Real2(top - |d| + 1)
    requires kept == Big(d[..f.fraction + 1]) && kept >= Pow2(f.fraction)
    requires r ==
             (top + f.max) * Pow2(f.fraction) + (kept - Pow2(f.fraction)) + (if RoundsUp(d, f.fraction + 1) then 1
                 else 0)
    ensures Nearest(f, r, x)
  {
    hide Big, Pow2, Real2, Value, Nearest, RoundsUp;
    var m, t: nat := Pow2(f.fraction), kept - Pow2(f.fraction);
    BigBound(d[..f.fraction + 1]);
    Pow2Next(f.fraction);
    NormalPattern(f, top, t);
    PatternParity(f, top + f.max, t);
    PatternBelowInfinity(f, top + f.max, t);
    RoundedBits(f, d, f.fraction + 1, top, (top + f.max) * m + t, r, x);
  }

  /** A leading bit below the normal range: the pattern is the rounded number of least subnormals. */
  lemma SubnormalRounds(f: Format, d: seq<bool>, top: int, count: nat, r: nat, x: real)
    requires f.Valid() && f.Smallest() - 1 <= top < f.Min() && count == top - f.Smallest() + 1 < |d|
    requires x == Big(d) as real * Real2(top - |d| + 1)
    requires r == Big(d[..count]) + (if RoundsUp(d, count) then 1 else 0)
    ensures Nearest(f, r, x)
  {
    hide Big, Pow2, Real2, Value, Nearest, RoundsUp;
    var kept := Big(d[..count]);
    BigBound(d[..count]);
    Pow2Monotone(count, f.fraction);
    ValueAt(f, 0, kept);
    ValueAt(f, 0, kept + 1);
    PatternBelowInfinity(f, 0, kept);
    RoundedBits(f, d, count, top, kept, r, x);
  }

  lemma {:induction false} Pow2Monotone(a: nat, b: nat)
    requires a <= b
    ensures Pow2(a) <= Pow2(b)
    decreases b - a
  {
    if a < b {
      Pow2Monotone(a, b - 1);
    }
  }

  lemma {:induction false} Real2Monotone(a: int, b: int)
    requires a <= b
    ensures Real2(a) <= Real2(b)
    decreases b - a
  {
    if a < b {
      Real2Monotone(a, b - 1);
      Real2Next(b - 1);
    }
  }

  /** A number with its leading bit at `top` lies between that power of two and the next. */
  lemma LeadingBounds(d: seq<bool>, top: int)
    requires d != [] && d[0]
    ensures Real2(top) <= Big(d) as real * Real2(top - |d| + 1) < Real2(top + 1)
  {
    hide Big, Pow2, Real2;
    BigLeading(d);
    var n := |d|;
    var u := Real2(top - n + 1);
    ScaledTo(top - n + 1, n - 1, top, u);
    ScaledTo(top - n + 1, n, top + 1, u);
    BetweenScaled(Pow2(n - 1), Big(d), Pow2(n), u, Real2(top), Real2(top + 1));
  }

  lemma ScaledTo(k: int, n: nat, top: int, u: real)
    requires k + n == top && u == Real2(k)
    ensures Real2(top) == u * Pow2(n) as real
  {
    hide Pow2, Real2;
    Real2Add(k, n);
  }

  lemma BetweenScaled(a: nat, b: nat, c: nat, u: real, low: real, high: real)
    requires a <= b < c && u > 0.0 && low == u * a as real && high == u * c as real
    ensures low <= b as real * u < high
  {
    Scaled(a, b, u);
    Scaled(c, b, u);
  }

  /** Less than half of the least subnormal rounds to zero. */
  lemma TinyRounds(f: Format, x: real)
    requires f.Valid() && 0.0 <= x < Real2(f.Smallest() - 1)
    ensures Nearest(f, 0, x)
  {
    var m := Pow2(f.fraction);
    Real2Next(f.Smallest() - 1);
    hide Pow2, Real2, Value, Nearest;
    ValueAt(f, 0, 0);
    ValueAt(f, 0, 1);
    MulMonotone(1, 2 * f.max + 1, m);
    NearestOfTwo(f, 0, 0, x);
  }

  /** From the power of two past the largest finite value on, everything rounds to infinity. */
  lemma HugeRounds(f: Format, x: real)
    requires f.Valid() && Real2(f.max + 1) <= x
    ensures Nearest(f, f.Infinity(), x)
  {
    var m := Pow2(f.fraction);
    Real2Add(f.max + 1 - f.fraction, f.fraction);
    hide Pow2, Real2, Value, Nearest;
    ValueAt(f, 2 * f.max + 1, 0);
    assert f.Smallest() + (2 * f.max + 1) - 1 == f.max + 1 - f.fraction;
    NearestInfinity(f, x);
  }

  /** Zeros appended to the bits change nothing. */
  lemma PaddedValue(b: seq<bool>, z: nat, e: int)
    ensures Big(b + Zeros(z)) as real * Real2(e - z) == Big(b) as real * Real2(e)
  {
    BigConcat(b, Zeros(z));
    BigZero(Zeros(z));
    Real2Add(e - z, z);
    hide Big, Pow2, Real2, Zeros;
    UnitOf(Big(b), Pow2(z), Real2(e - z));
  }

  lemma LeadingZeros(bits: seq<bool>, first: nat)
    requires first <= |bits| && forall i :: 0 <= i < first ==> !bits[i]
    ensures Big(bits) == Big(bits[first..])
  {
    assert bits == bits[..first] + bits[first..];
    BigConcat(bits[..first], bits[first..]);
    BigZero(bits[..first]);
  }
}
