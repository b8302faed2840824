/** What the models share. */
module Common {
  datatype Option<+T> = None | Some(value: T)

  const U64_MAX: nat := 0xffff_ffff_ffff_ffff

  function Pow2(k: nat): (r: nat)
    ensures r > 0
  {
    if k == 0 then 1 else 2 * Pow2(k - 1)
  }

  /** The units of plain text. */
  function Ascii(s: string): seq<nat> {
    seq(|s|, i requires 0 <= i < |s| => s[i] as nat)
  }

  /** A number in decimal. */
  function Decimal(n: nat): (r: seq<nat>)
    ensures r != [] && forall i :: 0 <= i < |r| ==> 48 <= r[i] <= 57
  {
    if n < 10 then [48 + n] else Decimal(n / 10) + [48 + n % 10]
  }
}
