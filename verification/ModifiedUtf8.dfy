/** The string codecs: modified UTF-8 with four-byte supplementary characters
    (`encode_utf`, `decode_utf` in `crates/aim-android-xml/src/abx.rs`), and a dex file's string data
    (`put_uleb`, `uleb`, `string_data`, `utf16` in `crates/aim-android-image/src/reindex.rs`).

    Bytes, UTF-16 units and characters are numbers. */
module ModifiedUtf8 {
  import opened Common

  // ---- characters and UTF-16 ----

  predicate IsChar(c: nat) {
    c < 0x110000 && !(0xd800 <= c < 0xe000)
  }

  predicate IsText(s: seq<nat>) {
    forall i {:trigger s[i]} :: 0 <= i < |s| ==> IsChar(s[i])
  }

  predicate High(u: nat) { 0xd800 <= u < 0xdc00 }
  predicate Low(u: nat) { 0xdc00 <= u < 0xe000 }

  /** `char::encode_utf16`. */
  function UnitsOf(c: nat): seq<nat> {
    if c < 0x10000 then [c] else [0xd800 + (c - 0x10000) / 0x400, 0xdc00 + (c - 0x10000) % 0x400]
  }

  function ToUtf16(s: seq<nat>): seq<nat> {
    if s == [] then [] else UnitsOf(s[0]) + ToUtf16(s[1..])
  }

  /** `String::from_utf16`. */
  function FromUtf16(u: seq<nat>): Option<seq<nat>>
    decreases |u|
  {
    if u == [] then Some([])
    else if High(u[0]) then
      if |u| > 1 && Low(u[1]) then
        var rest := FromUtf16(u[2..]);
        if rest.None? then None else Some([0x10000 + (u[0] - 0xd800) * 0x400 + (u[1] - 0xdc00)] + rest.value)
      else None
    else if Low(u[0]) then None
    else
      var rest := FromUtf16(u[1..]);
      if rest.None? then None else Some([u[0]] + rest.value)
  }

  lemma {:induction false} Utf16RoundTrip(s: seq<nat>)
    requires IsText(s)
    ensures FromUtf16(ToUtf16(s)) == Some(s)
  {
    if s != [] {
      var rest := ToUtf16(s[1..]);
      Utf16RoundTrip(s[1..]);
      var u := ToUtf16(s);
      assert [s[0]] + s[1..] == s;
      if s[0] < 0x10000 {
        assert u[0] == s[0] && u[1..] == rest;
      } else {
        assert u[0] == UnitsOf(s[0])[0] && u[1] == UnitsOf(s[0])[1] && u[2..] == rest;
      }
    }
  }

  // ---- modified UTF-8 ----

  /** A character's bytes: NUL in two, otherwise UTF-8. */
  function BytesOf(c: nat): seq<nat> {
    if c == 0 then [0xc0, 0x80]
    else if c < 0x80 then [c]
    else if c < 0x800 then [0xc0 + c / 0x40, 0x80 + c % 0x40]
    else if c < 0x10000 then [0xe0 + c / 0x1000, 0x80 + c / 0x40 % 0x40, 0x80 + c % 0x40]
    else [0xf0 + c / 0x40000, 0x80 + c / 0x1000 % 0x40, 0x80 + c / 0x40 % 0x40, 0x80 + c % 0x40]
  }

  /** `encode_utf`. */
  function EncodeUtf(s: seq<nat>): seq<nat> {
    if s == [] then [] else BytesOf(s[0]) + EncodeUtf(s[1..])
  }

  /** The six bits of a continuation byte at `j`. */
  function Cont(b: seq<nat>, j: nat): Option<nat> {
    if j < |b| && 0x80 <= b[j] < 0xc0 then Some(b[j] - 0x80) else None
  }

  datatype Piece = Piece(units: seq<nat>, length: nat)

  /** The units of the character a byte sequence begins with, and its length. */
  function DecodeFirst(b: seq<nat>): (r: Option<Piece>)
    requires b != []
    ensures r.Some? ==> 0 < r.value.length <= |b|
  {
    if 0xf0 <= b[0] <= 0xf4 then
      if Cont(b, 1).None? || Cont(b, 2).None? || Cont(b, 3).None? then None
      else
        var c := b[0] % 8 * 0x40000 + Cont(b, 1).value * 0x1000 + Cont(b, 2).value * 0x40 + Cont(b, 3).value;
        if IsChar(c) && c >= 0x10000 then Some(Piece(UnitsOf(c), 4)) else None
    else if 0x01 <= b[0] <= 0x7f then Some(Piece([b[0]], 1))
    else if 0xc0 <= b[0] <= 0xdf then
      if Cont(b, 1).None? then None else Some(Piece([b[0] % 0x20 * 0x40 + Cont(b, 1).value], 2))
    else if 0xe0 <= b[0] <= 0xef then
      if Cont(b, 1).None? || Cont(b, 2).None? then None
      else Some(Piece([b[0] % 0x10 * 0x1000 + Cont(b, 1).value * 0x40 + Cont(b, 2).value], 3))
    else None
  }

  function DecodeUnits(b: seq<nat>): Option<seq<nat>>
    decreases |b|
  {
    if b == [] then Some([])
    else
      var first := DecodeFirst(b);
      if first.None? then None
      else
        var rest := DecodeUnits(b[first.value.length..]);
        if rest.None? then None else Some(first.value.units + rest.value)
  }

  /** `decode_utf`. */
  function DecodeUtf(b: seq<nat>): Option<seq<nat>> {
    var units := DecodeUnits(b);
    if units.None? then None else FromUtf16(units.value)
  }

  lemma ThreeDecode(b: seq<nat>, c: nat, x: nat, y: nat, z: nat)
    requires x < 16 && y < 64 && z < 64 && c == x * 0x1000 + y * 0x40 + z
    requires |b| >= 3 && b[0] == 0xe0 + x && b[1] == 0x80 + y && b[2] == 0x80 + z
    ensures DecodeFirst(b) == Some(Piece([c], 3))
  {
  }

  lemma FourDecode(b: seq<nat>, c: nat, w: nat, x: nat, y: nat, z: nat)
    requires IsChar(c) && c >= 0x10000
    requires w <= 4 && x < 64 && y < 64 && z < 64 && c == w * 0x40000 + x * 0x1000 + y * 0x40 + z
    requires |b| >= 4 && b[0] == 0xf0 + w && b[1] == 0x80 + x && b[2] == 0x80 + y && b[3] == 0x80 + z
    ensures DecodeFirst(b) == Some(Piece(UnitsOf(c), 4))
  {
    hide UnitsOf;
  }

  lemma FirstDecodes(c: nat, rest: seq<nat>)
    requires IsChar(c)
    ensures DecodeFirst(BytesOf(c) + rest) == Some(Piece(UnitsOf(c), |BytesOf(c)|))
  {
    var b := BytesOf(c) + rest;
    if c == 0 {
      assert b[0] == 0xc0 && b[1] == 0x80;
    } else if c < 0x80 {
      assert b[0] == c;
    } else if c < 0x800 {
      assert b[0] == 0xc0 + c / 0x40 && b[1] == 0x80 + c % 0x40;
    } else if c < 0x10000 {
      hide DecodeFirst;
      assert b[0] == 0xe0 + c / 0x1000 && b[1] == 0x80 + c / 0x40 % 0x40 && b[2] == 0x80 + c % 0x40;
      ThreeParts(c);
      ThreeDecode(b, c, c / 0x1000, c / 0x40 % 0x40, c % 0x40);
    } else {
      hide DecodeFirst, UnitsOf;
      assert b[0] == 0xf0 + c / 0x40000 && b[1] == 0x80 + c / 0x1000 % 0x40 && b[2] == 0x80 + c / 0x40 % 0x40
             && b[3] == 0x80 + c % 0x40;
      FourParts(c);
      FourDecode(b, c, c / 0x40000, c / 0x1000 % 0x40, c / 0x40 % 0x40, c % 0x40);
    }
  }

  lemma ThreeParts(c: nat)
    requires c < 0x10000
    ensures c / 0x1000 < 16 && c / 0x1000 * 0x1000 + c / 0x40 % 0x40 * 0x40 + c % 0x40 == c
  {
    assert c / 0x40 / 0x40 == c / 0x1000;
  }

  lemma FourParts(c: nat)
    requires 0x10000 <= c < 0x110000
    ensures c / 0x40000 <= 4
            && c / 0x40000 * 0x40000 + c / 0x1000 % 0x40 * 0x1000 + c / 0x40 % 0x40 * 0x40 + c % 0x40 == c
  {
    assert c / 0x40 / 0x40 == c / 0x1000;
    assert c / 0x1000 / 0x40 == c / 0x40000;
  }

  /** That is UTF-8: as many bytes as the character needs, marked by the first one's high bits, six bits in each of the
      others, high bits first. */
  lemma Utf8Bits(c: nat)
    requires 0 < c && IsChar(c)
    ensures var b := BytesOf(c);
            && |b| == (if c < 0x80 then 1 else if c < 0x800 then 2 else if c < 0x10000 then 3 else 4)
            && (forall i :: 1 <= i < |b| ==> 0x80 <= b[i] < 0xc0)
            && (|b| == 1 ==> b[0] < 0x80 && c == b[0])
            && (|b| == 2 ==> 0xc0 <= b[0] < 0xe0 && c == (b[0] - 0xc0) * 0x40 + (b[1] - 0x80))
            && (|b| == 3 ==>
                 0xe0 <= b[0] < 0xf0 && c == (b[0] - 0xe0) * 0x1000 + (b[1] - 0x80) * 0x40 + (b[2] - 0x80))
            && (|b| == 4 ==>
                 && 0xf0 <= b[0] < 0xf8
                 && c == (b[0] - 0xf0) * 0x40000 + (b[1] - 0x80) * 0x1000 + (b[2] - 0x80) * 0x40 + (b[3] - 0x80))
  {
    if c < 0x80 {
    } else if c < 0x800 {
      assert c / 0x40 * 0x40 + c % 0x40 == c;
    } else if c < 0x10000 {
      ThreeParts(c);
    } else {
      FourParts(c);
    }
  }

  lemma {:induction false} UnitsDecode(s: seq<nat>)
    requires IsText(s)
    ensures DecodeUnits(EncodeUtf(s)) == Some(ToUtf16(s))
  {
    if s != [] {
      UnitsDecode(s[1..]);
      FirstDecodes(s[0], EncodeUtf(s[1..]));
      var b := EncodeUtf(s);
      assert b[|BytesOf(s[0])|..] == EncodeUtf(s[1..]);
    }
  }

  /** What is written is read back, for every text. */
  lemma UtfRoundTrip(s: seq<nat>)
    requires IsText(s)
    ensures DecodeUtf(EncodeUtf(s)) == Some(s)
  {
    UnitsDecode(s);
    Utf16RoundTrip(s);
  }

  lemma {:induction false} EncodedBytes(s: seq<nat>)
    requires IsText(s)
    ensures forall i {:trigger EncodeUtf(s)[i]} :: 0 <= i < |EncodeUtf(s)| ==> 0 < EncodeUtf(s)[i] < 0x100
  {
    if s != [] {
      EncodedBytes(s[1..]);
      var a, b := BytesOf(s[0]), EncodeUtf(s[1..]);
      forall i | 0 <= i < |a + b| ensures 0 < (a + b)[i] < 0x100 {
        if i >= |a| {
          assert (a + b)[i] == b[i - |a|];
        }
      }
    }
  }

  // ---- the loops ----

  lemma {:induction false} EncodedMore(s: seq<nat>, i: nat)
    requires i < |s|
    ensures EncodeUtf(s[..i + 1]) == EncodeUtf(s[..i]) + BytesOf(s[i])
  {
    hide BytesOf;
    if i == 0 {
      assert s[..1] == [s[0]];
    } else {
      EncodedMore(s[1..], i - 1);
      assert s[..i + 1][1..] == s[1..][..i] && s[..i][1..] == s[1..][..i - 1];
    }
  }

  method Encode(s: seq<nat>) returns (out: seq<nat>)
    ensures out == EncodeUtf(s)
  {
    out := [];
    var i := 0;
    while i < |s|
      invariant i <= |s| && out == EncodeUtf(s[..i])
    {
      EncodedMore(s, i);
      out := out + BytesOf(s[i]);
      i := i + 1;
    }
    assert s[..i] == s;
  }

  method Decode(b: seq<nat>) returns (r: Option<seq<nat>>)
    ensures r == DecodeUtf(b)
  {
    var units: seq<nat> := [];
    var i := 0;
    assert b[0..] == b;
    assert DecodeUnits(b).Some? ==> [] + DecodeUnits(b).value == DecodeUnits(b).value;
    while i < |b|
      invariant i <= |b|
      invariant DecodeUnits(b) == var rest := DecodeUnits(b[i..]); if rest.None? then None else Some(units + rest.value)
      decreases |b| - i
    {
      var first := DecodeFirst(b[i..]);
      if first.None? {
        return None;
      }
      var n := first.value.length;
      assert b[i..][n..] == b[i + n..];
      ghost var rest := DecodeUnits(b[i + n..]);
      if rest.Some? {
        assert units + (first.value.units + rest.value) == (units + first.value.units) + rest.value;
      }
      units := units + first.value.units;
      i := i + n;
    }
    assert b[i..] == [] && units + [] == units;
    assert DecodeUnits(b[i..]) == Some([]);
    r := FromUtf16(units);
  }

  // ---- dex string data ----

  /** `put_uleb`: seven bits to a byte, low ones first. */
  function PutUleb(value: nat): seq<nat>
    decreases value
  {
    if value < 0x80 then [value] else [value % 0x80 + 0x80] + PutUleb(value / 0x80)
  }

  /** The number whose groups of seven bits are these, low ones first. */
  function Sevens(b: seq<nat>): nat {
    if b == [] then 0 else b[0] % 0x80 + 0x80 * Sevens(b[1..])
  }

  /** The groups make up the value, every byte but the last is marked, and the last is not an empty group more. */
  lemma {:induction false} UlebGroups(value: nat)
    ensures var b := PutUleb(value);
            && b != [] && Sevens(b) == value && b[|b| - 1] < 0x80 && (|b| > 1 ==> b[|b| - 1] > 0)
            && forall i :: 0 <= i < |b| - 1 ==> 0x80 <= b[i] < 0x100
    decreases value
  {
    var b := PutUleb(value);
    if value < 0x80 {
      assert b[1..] == [];
    } else {
      UlebGroups(value / 0x80);
      var rest := PutUleb(value / 0x80);
      assert b[0] == value % 0x80 + 0x80 && b[1..] == rest;
      assert b[|b| - 1] == rest[|rest| - 1];
    }
  }

  datatype Leb = Leb(value: nat, length: nat)

  /** `uleb`, from the byte that is shifted by `shift`: at most five bytes, to 32 bits. */
  function GetUleb(d: seq<nat>, shift: nat): Option<Leb>
    requires shift <= 35
    decreases 35 - shift
  {
    if shift >= 35 || d == [] then None
    else
      var part := d[0] % 0x80 * Pow2(shift) % 0x1_0000_0000;
      if d[0] < 0x80 then Some(Leb(part, 1))
      else if shift + 7 > 35 then None
      else
        var rest := GetUleb(d[1..], shift + 7);
        if rest.None? then None else Some(Leb(part + rest.value.value, rest.value.length + 1))
  }

  lemma {:induction false} PowerSum(a: nat, b: nat)
    ensures Pow2(a + b) == Pow2(a) * Pow2(b) && Pow2(a) > 0
  {
    if a > 0 {
      PowerSum(a - 1, b);
    }
  }

  lemma UlebStep(d: seq<nat>, shift: nat, low: nat, part: nat)
    requires shift < 35 && shift + 7 <= 35 && d != [] && low < 0x80 && d[0] == low + 0x80
    requires part == low * Pow2(shift) && part < 0x1_0000_0000
    ensures GetUleb(d, shift) ==
            var rest := GetUleb(d[1..], shift + 7);
                if rest.None? then None else Some(Leb(part + rest.value.value, rest.value.length + 1))
  {
    hide Pow2;
    assert d[0] % 0x80 == low;
  }

  /** The value without its low seven bits, scaled to where they were read. */
  lemma UlebParts(value: nat, high: nat, low: nat, shift: nat, p: nat, q: nat, whole: nat)
    requires value == high * 0x80 + low && high > 0 && shift % 7 == 0 && shift < 35 && p == Pow2(shift)
             && q == Pow2(shift + 7)
    requires whole == value * p && whole < 0x1_0000_0000
    ensures shift + 7 < 35 && high * q < 0x1_0000_0000 && low * p < 0x1_0000_0000 && low * p + high * q == whole
  {
    hide Pow2;
    PowerSum(shift, 7);
    Power7();
    Scaled(high, low, p);
    if shift + 7 >= 35 {
      TooLarge(high, shift, p);
    }
  }

  lemma PutStep(value: nat, rest: seq<nat>)
    requires value >= 0x80
    ensures var d := PutUleb(value) + rest;
            d != [] && d[0] == value % 0x80 + 0x80 && d[1..] == PutUleb(value / 0x80) + rest
                && |PutUleb(value)| == 1 + |PutUleb(value / 0x80)|
  {
  }

  lemma UlebOne(value: nat, shift: nat, rest: seq<nat>, whole: nat)
    requires shift < 35 && value < 0x80 && whole == value * Pow2(shift) && whole < 0x1_0000_0000
    ensures GetUleb([value] + rest, shift) == Some(Leb(whole, 1))
  {
    hide Pow2;
    assert ([value] + rest)[0] % 0x80 == value;
  }

  /** What `put_uleb` appends, `uleb` reads back, using up exactly that. */
  lemma {:induction false} UlebFrom(value: nat, shift: nat, rest: seq<nat>, whole: nat)
    requires shift % 7 == 0 && shift < 35 && whole == value * Pow2(shift) && whole < 0x1_0000_0000
    ensures GetUleb(PutUleb(value) + rest, shift) == Some(Leb(whole, |PutUleb(value)|))
    decreases value
  {
    hide Pow2, GetUleb;
    if value < 0x80 {
      UlebOne(value, shift, rest, whole);
    } else {
      var high, low := value / 0x80, value % 0x80;
      UlebParts(value, high, low, shift, Pow2(shift), Pow2(shift + 7), whole);
      UlebFrom(high, shift + 7, rest, high * Pow2(shift + 7));
      PutStep(value, rest);
      UlebStep(PutUleb(value) + rest, shift, low, low * Pow2(shift));
    }
  }

  lemma Power7()
    ensures Pow2(7) == 0x80
  {
    assert Pow2(4) == 16;
  }

  lemma Scaled(high: nat, low: nat, p: nat)
    ensures (high * 0x80 + low) * p == high * (p * 0x80) + low * p
    ensures low * p <= (high * 0x80 + low) * p && high * (p * 0x80) <= (high * 0x80 + low) * p
  {
  }

  lemma TooLarge(high: nat, shift: nat, p: nat)
    requires shift == 28 && p == Pow2(shift) && high > 0
    ensures high * (p * 0x80) >= 0x1_0000_0000
  {
    assert Pow2(28) == 0x1000_0000 by {
      PowerSum(14, 14);
      PowerSum(7, 7);
      Power7();
    }
  }

  lemma UlebRoundTrip(value: nat, rest: seq<nat>)
    requires value < 0x1_0000_0000
    ensures GetUleb(PutUleb(value) + rest, 0) == Some(Leb(value, |PutUleb(value)|))
  {
    assert Pow2(0) == 1;
    UlebFrom(value, 0, rest, value);
  }

  /** A unit's bytes in string data: NUL in two, surrogates in three. */
  function UnitBytes(u: nat): seq<nat> {
    if 0 < u < 0x80 then [u]
    else if u < 0x800 then [0xc0 + u / 0x40, 0x80 + u % 0x40]
    else [0xe0 + u / 0x1000, 0x80 + u / 0x40 % 0x40, 0x80 + u % 0x40]
  }

  /** The same bits as UTF-8 has for a character of that number; a zero takes two bytes. */
  lemma UnitBits(u: nat)
    requires u < 0x10000
    ensures var b := UnitBytes(u);
            && |b| == (if 0 < u < 0x80 then 1 else if u < 0x800 then 2 else 3)
            && (forall i :: 1 <= i < |b| ==> 0x80 <= b[i] < 0xc0)
            && (|b| == 1 ==> u == b[0])
            && (|b| == 2 ==> 0xc0 <= b[0] < 0xe0 && u == (b[0] - 0xc0) * 0x40 + (b[1] - 0x80))
            && (|b| == 3 ==>
                 0xe0 <= b[0] < 0xf0 && u == (b[0] - 0xe0) * 0x1000 + (b[1] - 0x80) * 0x40 + (b[2] - 0x80))
  {
  }

  function UnitsBytes(units: seq<nat>): seq<nat> {
    if units == [] then [] else UnitBytes(units[0]) + UnitsBytes(units[1..])
  }

  /** `string_data`: the number of units, their bytes, and a zero. */
  function StringData(units: seq<nat>): seq<nat> {
    PutUleb(|units|) + UnitsBytes(units) + [0]
  }

  function At(b: seq<nat>, i: nat): nat {
    if i < |b| then b[i] else 0
  }

  /** `utf16`, which takes every byte as it comes. */
  function Utf16(b: seq<nat>): seq<nat>
    decreases |b|
  {
    if b == [] then []
    else if b[0] < 0x80 then [b[0]] + Utf16(b[1..])
    else if 0xc0 <= b[0] < 0xe0 then [b[0] % 0x20 * 0x40 + At(b, 1) % 0x40] + (if |b| > 2 then Utf16(b[2..]) else [])
    else [b[0] % 0x10 * 0x1000 + At(b, 1) % 0x40 * 0x40 + At(b, 2) % 0x40] + (if |b| > 3 then Utf16(b[3..]) else [])
  }

  lemma ThreeUnits(b: seq<nat>, u: nat, x: nat, y: nat, z: nat)
    requires x < 16 && y < 64 && z < 64 && u == x * 0x1000 + y * 0x40 + z
    requires |b| >= 3 && b[0] == 0xe0 + x && b[1] == 0x80 + y && b[2] == 0x80 + z
    ensures Utf16(b) == [u] + Utf16(b[3..])
  {
    assert b[0] % 0x10 == x;
    assert At(b, 1) % 0x40 == y;
    assert At(b, 2) % 0x40 == z;
    if |b| == 3 {
      assert b[3..] == [];
    }
  }

  lemma TwoUnits(b: seq<nat>, u: nat, x: nat, y: nat)
    requires x < 32 && y < 64 && u == x * 0x40 + y
    requires |b| >= 2 && b[0] == 0xc0 + x && b[1] == 0x80 + y
    ensures Utf16(b) == [u] + Utf16(b[2..])
  {
    assert b[0] % 0x20 == x;
    assert At(b, 1) % 0x40 == y;
    if |b| == 2 {
      assert b[2..] == [];
    }
  }

  /** The string ids are ordered by the units their data was written from. */
  lemma {:induction false} StringDataRoundTrip(units: seq<nat>)
    requires forall i {:trigger units[i]} :: 0 <= i < |units| ==> units[i] < 0x10000
    ensures Utf16(UnitsBytes(units)) == units
  {
    if units != [] {
      var u, rest := units[0], UnitsBytes(units[1..]);
      var b := UnitBytes(u) + rest;
      StringDataRoundTrip(units[1..]);
      assert [u] + units[1..] == units;
      if 0 < u < 0x80 {
        assert b[1..] == rest;
      } else if u < 0x800 {
        hide Utf16;
        assert b[0] == 0xc0 + u / 0x40 && b[1] == 0x80 + u % 0x40 && b[2..] == rest;
        TwoUnits(b, u, u / 0x40, u % 0x40);
      } else {
        hide Utf16;
        ThreeParts(u);
        assert b[0] == 0xe0 + u / 0x1000 && b[1] == 0x80 + u / 0x40 % 0x40 && b[2] == 0x80 + u % 0x40 && b[3..] == rest;
        ThreeUnits(b, u, u / 0x1000, u / 0x40 % 0x40, u % 0x40);
      }
    }
  }

  /** The zero that ends string data is the only one in it, so its bytes end where they should. */
  lemma {:induction false} NoZeroBytes(units: seq<nat>)
    requires forall i {:trigger units[i]} :: 0 <= i < |units| ==> units[i] < 0x10000
    ensures forall i {:trigger UnitsBytes(units)[i]} ::
            0 <= i < |UnitsBytes(units)| ==> 0 < UnitsBytes(units)[i] < 0x100
  {
    if units != [] {
      NoZeroBytes(units[1..]);
      var a, b := UnitBytes(units[0]), UnitsBytes(units[1..]);
      forall i | 0 <= i < |a + b| ensures 0 < (a + b)[i] < 0x100 {
        if i >= |a| {
          assert (a + b)[i] == b[i - |a|];
        }
      }
    }
  }

  /** The bytes before the first zero. */
  function Terminated(b: seq<nat>): Option<seq<nat>> {
    if b == [] then None
    else if b[0] == 0 then Some([])
    else
      var rest := Terminated(b[1..]);
      if rest.None? then None else Some([b[0]] + rest.value)
  }

  lemma {:induction false} TerminatedAt(b: seq<nat>, rest: seq<nat>)
    requires forall i {:trigger b[i]} :: 0 <= i < |b| ==> b[i] > 0
    ensures Terminated(b + [0] + rest) == Some(b)
  {
    var d := b + [0] + rest;
    if b == [] {
      assert d[0] == 0;
    } else {
      TerminatedAt(b[1..], rest);
      assert d[0] == b[0] && d[1..] == b[1..] + [0] + rest;
      assert [b[0]] + b[1..] == b;
    }
  }

  /** Reading string data back, as `Old::string` does: the length is skipped, the bytes up to the zero are the string.
      */
  lemma StringReadBack(units: seq<nat>, rest: seq<nat>)
    requires |units| < 0x1_0000_0000 && forall i {:trigger units[i]} :: 0 <= i < |units| ==> units[i] < 0x10000
    ensures var d := StringData(units) + rest;
            && GetUleb(d, 0) == Some(Leb(|units|, |PutUleb(|units|)|)) && |PutUleb(|units|)| <= |d|
            && Terminated(d[|PutUleb(|units|)|..]) == Some(UnitsBytes(units)) && Utf16(UnitsBytes(units)) == units
  {
    hide GetUleb, PutUleb, UnitsBytes, Utf16, Terminated;
    var d, n := StringData(units) + rest, PutUleb(|units|);
    assert d == n + (UnitsBytes(units) + [0] + rest);
    UlebRoundTrip(|units|, UnitsBytes(units) + [0] + rest);
    assert d[|n|..] == UnitsBytes(units) + [0] + rest;
    NoZeroBytes(units);
    TerminatedAt(UnitsBytes(units), rest);
    StringDataRoundTrip(units);
  }
}
