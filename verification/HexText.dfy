/** Reading the text of a hexadecimal float: `split_exponent`, `exponent_value` and `hex_bits`. */
module HexText {
  import opened Common
  import opened HexFloat

  // ---- rounding, with the integers of the code ----

  const I64_MIN: int := -0x8000_0000_0000_0000

  function SaturatingAdd(a: int, b: int): int {
    if a + b > I64_MAX then I64_MAX else if a + b < I64_MIN then I64_MIN else a + b
  }

  /** What `exponent_value` makes of an exponent: beyond 64 bits it stops counting. */
  function Clamped(e: int): int {
    if e > I64_MAX then I64_MAX else if e < -I64_MAX then -I64_MAX else e
  }

  /** More mantissa bits than fit in memory, and few enough for 64-bit counting. */
  const MOST_BITS: int := 0x2000_0000_0000_0000

  lemma MaxExponentBound(f: Format)
    requires f.Valid()
    ensures f.max < 0x4000_0000_0000_0000
  {
    Pow2Monotone(1, f.fraction);
    hide Pow2;
    assert Pow2(f.fraction) >= 2 by {
      Pow2Next(0);
      assert Pow2(0) == 1 by { Pow2Zero(); }
    }
    MulMonotone(2, Pow2(f.fraction), 2 * f.max + 1);
  }

  lemma Pow2Zero()
    ensures Pow2(0) == 1
  {
  }

  /** Saturation never changes which range the leading bit falls in, nor its place within a range. */
  lemma SaturationHarmless(f: Format, a: int, e: int)
    requires f.Valid() && -MOST_BITS - 1 <= a <= MOST_BITS
    ensures var top := SaturatingAdd(a, Clamped(e));
            && (top > f.max <==> a + e > f.max)
            && (top < f.Smallest() - 1 <==> a + e < f.Smallest() - 1)
            && (f.Smallest() - 1 <= top <= f.max ==> top == a + e)
  {
    MaxExponentBound(f);
  }

  method FirstSet(bits: seq<bool>) returns (first: nat)
    ensures first <= |bits| && (first < |bits| ==> bits[first])
    ensures forall i :: 0 <= i < first ==> !bits[i]
  {
    first := 0;
    while first < |bits| && !bits[first]
      invariant first <= |bits|
      invariant forall i :: 0 <= i < first ==> !bits[i]
    {
      first := first + 1;
    }
  }

  /** The first `count` bits from `first` as a number, reading zeros past the end. */
  method Significand(bits: seq<bool>, first: nat, count: nat, ghost d: seq<bool>) returns (significand: nat)
    requires first <= |bits| && count < |d| && d == bits[first..] + Zeros(count + 1)
    ensures significand == Big(d[..count])
  {
    significand := 0;
    var at := 0;
    assert d[..0] == [];
    while at < count
      invariant at <= count && significand == Big(d[..at])
    {
      var bit := first + at < |bits| && bits[first + at];
      assert d[..at + 1][..at] == d[..at] && d[at] == bit;
      significand := 2 * significand + (if bit then 1 else 0);
      at := at + 1;
    }
  }

  /** Whether any bit past the first dropped one is set. */
  method Sticky(bits: seq<bool>, first: nat, count: nat, ghost d: seq<bool>) returns (sticky: bool)
    requires first <= |bits| && d == bits[first..] + Zeros(count + 1)
    ensures sticky <==> exists i :: count < i < |d| && d[i]
  {
    sticky := false;
    var at := first + count + 1;
    while at < |bits|
      invariant at >= first + count + 1
      invariant sticky <==> exists i :: first + count < i < at && i < |bits| && bits[i]
    {
      sticky := sticky || bits[at];
      at := at + 1;
    }
    if sticky {
      var i :| first + count < i < |bits| && bits[i];
      assert d[i - first];
    }
    if i :| count < i < |d| && d[i] {
      assert bits[first + i];
    }
  }

  /** The part of `hex_bits` after the digits are read. */
  method RoundMantissa(bits: seq<bool>, integerDigits: nat, exponent: int, f: Format, ghost e: int, ghost x: real)
      returns (r: nat)
    requires f.Valid() && |bits| <= MOST_BITS && 4 * integerDigits <= |bits|
    requires exponent == Clamped(e)
    requires x == Big(bits) as real * Real2(e + 4 * integerDigits - |bits|)
    ensures Nearest(f, r, x)
  {
    hide Big, Pow2, Real2, Nearest, RoundsUp, Zeros;
    var first := FirstSet(bits);
    if first == |bits| {
      BigZero(bits);
      TinyRounds(f, x);
      return 0;
    }
    var top := SaturatingAdd(integerDigits * 4 - first - 1, exponent);
    SaturationHarmless(f, integerDigits * 4 - first - 1, e);
    ghost var trueTop := integerDigits * 4 - first - 1 + e;
    Normalized(bits, first, trueTop, e + 4 * integerDigits - |bits|, x);
    if top > f.max {
      Real2Monotone(f.max + 1, trueTop);
      HugeRounds(f, x);
      return f.Infinity();
    }
    var smallest := f.Smallest();
    if top < smallest - 1 {
      Real2Monotone(trueTop + 1, smallest - 1);
      TinyRounds(f, x);
      return 0;
    }
    r := RoundInRange(bits, first, top, f, x);
  }

  /** The value from its first set bit on, and the powers of two it lies between. */
  lemma Normalized(bits: seq<bool>, first: nat, top: int, scale: int, x: real)
    requires first < |bits| && bits[first] && (forall i :: 0 <= i < first ==> !bits[i])
    requires x == Big(bits) as real * Real2(scale) && scale == top - (|bits| - first) + 1
    ensures x == Big(bits[first..]) as real * Real2(top - |bits[first..]| + 1) && Real2(top) <= x < Real2(top + 1)
  {
    hide Big, Pow2, Real2;
    LeadingZeros(bits, first);
    LeadingBounds(bits[first..], top);
  }

  /** The leading bit is neither too high for a finite value nor too low to matter. */
  method RoundInRange(bits: seq<bool>, first: nat, top0: int, f: Format, ghost x: real) returns (r: nat)
    requires f.Valid() && first < |bits| && bits[first]
    requires f.Smallest() - 1 <= top0 <= f.max
    requires x == Big(bits[first..]) as real * Real2(top0 - |bits[first..]| + 1)
    ensures Nearest(f, r, x)
  {
    hide Big, Pow2, Real2, Nearest, RoundsUp;
    var top := top0;
    var count: nat := if top >= f.Min() then f.fraction + 1 else top - f.Smallest() + 1;
    ghost var d0 := bits[first..];
    ghost var d := d0 + Zeros(count + 1);
    PaddedValue(d0, count + 1, top - |d0| + 1);
    assert top - |d| + 1 == top - |d0| + 1 - (count + 1);
    var significand := Significand(bits, first, count, d);
    var sticky := Sticky(bits, first, count, d);
    var bit := first + count < |bits| && bits[first + count];
    ghost var kept := significand;
    var up := bit && (sticky || significand % 2 != 0);
    RoundsUpMeans(d, count, up);
    if up {
      significand := significand + 1;
    }
    if top < f.Min() {
      SubnormalRounds(f, d, top, count, significand, x);
      return significand;
    }
    BigLeading(d[..count]);
    if significand == Pow2(f.fraction + 1) {
      significand := significand / 2;
      top := top + 1;
    }
    FieldAndRest(f, top0, kept, if up then 1 else 0);
    NormalRounds(f, d, top0, kept, Composed(f, top0, kept, if up then 1 else 0), x);
    if top > f.max {
      return f.Infinity();
    }
    return (top + f.max) * Pow2(f.fraction) + significand % Pow2(f.fraction);
  }

  lemma RoundsUpMeans(d: seq<bool>, count: nat, up: bool)
    requires count < |d|
    requires up <==> d[count] && ((exists i :: count < i < |d| && d[i]) || Big(d[..count]) % 2 != 0)
    ensures up == RoundsUp(d, count)
  {
  }

  /** The pattern of exponent `top` and significand `kept`, `up` units further on. */
  ghost function Composed(f: Format, top: int, kept: nat, up: nat): nat
    requires top + f.max >= 0 && kept >= Pow2(f.fraction)
  {
    (top + f.max) * Pow2(f.fraction) + (kept - Pow2(f.fraction)) + up
  }

  /** Masking the significand and moving a carry into the exponent only ever adds: whichever way the
      code puts the fields together, the pattern is the one `up` units after the truncated one. */
  lemma FieldAndRest(f: Format, top: int, kept: nat, up: nat)
    requires f.Valid() && f.Min() <= top <= f.max && up <= 1
    requires Pow2(f.fraction) <= kept < Pow2(f.fraction + 1)
    ensures kept + up < Pow2(f.fraction + 1) ==>
              (top + f.max) * Pow2(f.fraction) + (kept + up) % Pow2(f.fraction) == Composed(f, top, kept, up)
    ensures kept + up == Pow2(f.fraction + 1) ==>
              && (kept + up) / 2 == Pow2(f.fraction)
              && (top + 1 + f.max) * Pow2(f.fraction) + Pow2(f.fraction) % Pow2(f.fraction) ==
                   Composed(f, top, kept, up)
              && (top == f.max ==> f.Infinity() == Composed(f, top, kept, up))
  {
    hide Pow2;
    var m := Pow2(f.fraction);
    Pow2Next(f.fraction);
    HalfWay(top + f.max, m);
    DivisionOf(1, m, 0);
    if kept + up < 2 * m {
      DivisionOf(1, m, kept + up - m);
    }
  }

  // ---- the text ----

  function Digit(c: char): Option<nat> {
    if '0' <= c <= '9' then Some(c as nat - '0' as nat)
    else if 'a' <= c <= 'f' then Some(c as nat - 'a' as nat + 10)
    else if 'A' <= c <= 'F' then Some(c as nat - 'A' as nat + 10)
    else None
  }

  /** The n-th hexadecimal digit, of either case, has value n, and no other character is one. */
  lemma DigitTable(n: nat, c: char)
    requires n < 16
    ensures Digit("0123456789abcdef"[n]) == Some(n) && Digit("0123456789ABCDEF"[n]) == Some(n)
    ensures c !in "0123456789abcdefABCDEF" ==> Digit(c) == None
  {
    if Digit(c).Some? {
      OneOf(c);
    }
  }

  lemma OneOf(c: char)
    requires '0' <= c <= '9' || 'a' <= c <= 'f' || 'A' <= c <= 'F'
    ensures c in "0123456789abcdefABCDEF"
  {
    var all := "0123456789abcdefABCDEF";
    if c <= '9' {
      assert all[c as nat - '0' as nat] == c;
    } else if c <= 'F' {
      assert all[c as nat - 'A' as nat + 16] == c;
    } else {
      assert all[c as nat - 'a' as nat + 10] == c;
    }
  }

  /** Where the first of `marks` stands in `s`, or the end. */
  function Find(s: string, marks: set<char>): (i: nat)
    ensures i <= |s| && (i < |s| ==> s[i] in marks)
    ensures forall k :: 0 <= k < i ==> s[k] !in marks
  {
    if s == [] || s[0] in marks then 0 else 1 + Find(s[1..], marks)
  }

  predicate IsDecimal(s: string) {
    forall k :: 0 <= k < |s| ==> '0' <= s[k] <= '9'
  }

  ghost function Decimal(s: string): nat
    requires IsDecimal(s)
  {
    if s == [] then 0 else 10 * Decimal(s[..|s| - 1]) + (s[|s| - 1] as nat - '0' as nat)
  }

  /** An exponent: an optional sign and digits, at least one. */
  function Unsigned(s: string): string {
    if s != [] && (s[0] == '-' || s[0] == '+') then s[1..] else s
  }

  ghost predicate IsExponent(s: string) {
    Unsigned(s) != [] && IsDecimal(Unsigned(s))
  }

  ghost function Exponent(s: string): int
    requires IsExponent(s)
  {
    if s[0] == '-' then 0 - Decimal(Unsigned(s)) else Decimal(Unsigned(s))
  }

  method ExponentValue(s: string) returns (r: Option<int>)
    ensures r.Some? <==> IsExponent(s)
    ensures r.Some? ==> r.value == Clamped(Exponent(s))
  {
    if s == [] {
      return None;
    }
    var negative, digits := s[0] == '-', Unsigned(s);
    if digits == [] || !IsDecimal(digits) {
      return None;
    }
    var value: int := 0;
    var i := 0;
    assert digits[..0] == [];
    while i < |digits|
      invariant i <= |digits| && value == Clamped(Decimal(digits[..i]))
    {
      assert digits[..i + 1][..i] == digits[..i];
      var times := if value * 10 > I64_MAX then I64_MAX else value * 10;
      value := SaturatingAdd(times, digits[i] as int - '0' as int);
      i := i + 1;
    }
    assert digits[..|digits|] == digits;
    return Some(if negative then -value else value);
  }

  /** The digits of a mantissa: all of it but its first point. */
  ghost function Digits(m: string): string {
    if m == [] then []
    else
      var rest, c := m[..|m| - 1], m[|m| - 1];
      if c == '.' && '.' !in rest then Digits(rest) else Digits(rest) + [c]
  }

  /** How many digits stand before the point. */
  ghost function IntegerDigits(m: string): (n: nat)
    ensures n <= |Digits(m)| && ('.' !in m ==> n == |m| == |Digits(m)|)
  {
    if m == [] then 0
    else
      var rest, c := m[..|m| - 1], m[|m| - 1];
      assert m == rest + [c];
      if c == '.' || '.' in rest then IntegerDigits(rest) else IntegerDigits(rest) + 1
  }

  lemma {:induction false} DigitsOfPrefix(m: string, i: nat)
    requires i <= |m|
    ensures Digits(m[..i]) <= Digits(m)
    decreases |m|
  {
    if i < |m| {
      var rest := m[..|m| - 1];
      DigitsOfPrefix(rest, i);
      assert rest[..i] == m[..i];
    } else {
      assert m[..i] == m;
    }
  }

  ghost predicate IsHex(s: string) {
    forall k :: 0 <= k < |s| ==> Digit(s[k]).Some?
  }

  ghost function Hex(s: string): nat
    requires IsHex(s)
  {
    if s == [] then 0 else 16 * Hex(s[..|s| - 1]) + Digit(s[|s| - 1]).value
  }

  function Nibble(n: nat): seq<bool> {
    [n / 8 % 2 == 1, n / 4 % 2 == 1, n / 2 % 2 == 1, n % 2 == 1]
  }

  lemma NibbleValue(n: nat)
    requires n < 16
    ensures Big(Nibble(n)) == n
  {
    var b := Nibble(n);
    assert b[..3][..2] == b[..2] && b[..2][..1] == b[..1] && b[..1][..0] == [];
    assert Big(b[..1]) == if b[0] then 1 else 0;
    assert Big(b[..2]) == 2 * Big(b[..1]) + (if b[1] then 1 else 0);
    assert Big(b[..3]) == 2 * Big(b[..2]) + (if b[2] then 1 else 0);
    assert Big(b) == 2 * Big(b[..3]) + (if b[3] then 1 else 0);
  }

  lemma HexBitsValue(bits: seq<bool>, s: string, c: char)
    requires IsHex(s) && Big(bits) == Hex(s) && Digit(c).Some?
    ensures IsHex(s + [c]) && Big(bits + Nibble(Digit(c).value)) == Hex(s + [c])
    ensures |Nibble(Digit(c).value)| == 4
  {
    var n := Digit(c).value;
    assert Pow2(4) == 16 by {
      assert Pow2(4) == 2 * Pow2(3) == 4 * Pow2(2);
    }
    hide Big, Pow2;
    BigConcat(bits, Nibble(n));
    NibbleValue(n);
    assert (s + [c])[..|s|] == s;
  }

  lemma DigitsStep(m: string, i: nat)
    requires i < |m|
    ensures var point := m[i] == '.' && '.' !in m[..i];
            && Digits(m[..i + 1]) == (if point then Digits(m[..i]) else Digits(m[..i]) + [m[i]])
            && IntegerDigits(m[..i + 1]) == IntegerDigits(m[..i]) + (if m[i] == '.' || '.' in m[..i] then 0 else 1)
            && ('.' in m[..i + 1] <==> m[i] == '.' || '.' in m[..i])
  {
    var c := m[i];
    assert m[..i + 1][..i] == m[..i] && m[..i + 1] == m[..i] + [c];
  }

  lemma BadDigit(m: string, i: nat, c: char)
    requires i <= |m| && Digit(c).None? && Digits(m[..i]) != [] && Digits(m[..i])[|Digits(m[..i])| - 1] == c
    ensures !IsHex(Digits(m))
  {
    DigitsOfPrefix(m, i);
    var k := |Digits(m[..i])| - 1;
    assert Digits(m)[k] == c;
  }

  lemma NoDigits(m: string)
    ensures Digits(m[..0]) == [] && IntegerDigits(m[..0]) == 0 && IsHex([]) && Big([]) == Hex([])
  {
    assert m[..0] == [];
  }

  /** The loop of `hex_bits` over the mantissa. */
  method ReadMantissa(m: string) returns (r: Option<(seq<bool>, nat)>)
    ensures r.Some? <==> IsHex(Digits(m))
    ensures r.Some? ==>
            |r.value.0| == 4 * |Digits(m)| && Big(r.value.0) == Hex(Digits(m)) && r.value.1 == IntegerDigits(m)
  {
    hide Big, Hex, Digit, Nibble, Digits, IntegerDigits, IsHex;
    var bits: seq<bool> := [];
    var dot, integerDigits, i := false, 0, 0;
    NoDigits(m);
    while i < |m|
      invariant i <= |m| && (dot <==> '.' in m[..i])
      invariant IsHex(Digits(m[..i])) && |bits| == 4 * |Digits(m[..i])| && Big(bits) == Hex(Digits(m[..i]))
      invariant integerDigits == IntegerDigits(m[..i])
    {
      var c := m[i];
      DigitsStep(m, i);
      i := i + 1;
      if c == '.' && !dot {
        dot := true;
        continue;
      }
      var digit := Digit(c);
      if digit.None? {
        BadDigit(m, i, c);
        return None;
      }
      if !dot {
        integerDigits := integerDigits + 1;
      }
      HexBitsValue(bits, Digits(m[..i - 1]), c);
      bits := bits + Nibble(digit.value);
    }
    assert m[..|m|] == m;
    return Some((bits, integerDigits));
  }

  /** A hexadecimal float after its prefix: a mantissa, `p` or `P`, an exponent. */
  ghost predicate WellFormed(hex: string) {
    var p := Find(hex, {'p', 'P'});
    p < |hex| && Digits(hex[..p]) != [] && IsHex(Digits(hex[..p])) && IsExponent(hex[p + 1..])
  }

  /** The number the text denotes: its digits as an integer, scaled by the exponent and the point. */
  ghost function Denotes(hex: string): real
    requires WellFormed(hex)
  {
    var p := Find(hex, {'p', 'P'});
    var m := hex[..p];
    Hex(Digits(m)) as real * Real2(Exponent(hex[p + 1..]) - 4 * (|Digits(m)| - IntegerDigits(m)))
  }

  /** `hex_bits`: malformed text is refused, anything else becomes the nearest pattern, ties to even. */
  method HexBits(hex: string, f: Format) returns (r: Option<nat>)
    requires f.Valid() && 4 * |hex| <= MOST_BITS
    ensures r.Some? <==> WellFormed(hex)
    ensures r.Some? ==> Nearest(f, r.value, Denotes(hex))
  {
    hide Nearest, Big, Hex, Real2, Digits, IntegerDigits, IsExponent, Exponent, IsHex, Clamped, Find;
    var p := Find(hex, {'p', 'P'});
    if p == |hex| {
      return None;
    }
    var mantissa := hex[..p];
    var exponent := ExponentValue(hex[p + 1..]);
    if exponent.None? {
      return None;
    }
    var read := ReadMantissa(mantissa);
    if read.None? {
      return None;
    }
    var (bits, integerDigits) := read.value;
    if bits == [] {
      return None;
    }
    ghost var e := Exponent(hex[p + 1..]);
    DigitsLength(mantissa);
    assert e + 4 * integerDigits - |bits| == e - 4 * (|Digits(mantissa)| - IntegerDigits(mantissa));
    var pattern := RoundMantissa(bits, integerDigits, exponent.value, f, e, Denotes(hex));
    return Some(pattern);
  }

  lemma {:induction false} DigitsLength(m: string)
    ensures |Digits(m)| <= |m| && IntegerDigits(m) <= |Digits(m)|
  {
    if m != [] {
      DigitsLength(m[..|m| - 1]);
    }
  }
}
