/** The opcodes of the Dalvik bytecode reference: the format of each, which says its length and where its index stands,
    and the table the index is for. Disassembly goes by this table; the rewriter has its own. */
module DexFormats {
  import opened Common

  type Code = seq<nat>

  const UNIT: nat := 0x10000

  /** Named as in the reference: the first digit is the length in units, the letter the kind of extra data, and "c" an
      index into a table. */
  datatype Format =
    | F10x | F12x | F11n | F11x | F10t
    | F20t | F22x | F21t | F21s | F21h | F21c | F23x | F22b | F22t | F22s | F22c
    | F30t | F32x | F31i | F31t | F31c | F35c | F3rc
    | F45cc | F4rcc
    | F51l

  function FormatOf(op: nat): Format {
    if op in {0x01, 0x04, 0x07, 0x21} then F12x
    else if op in {0x02, 0x05, 0x08} then F22x
    else if op in {0x03, 0x06, 0x09} then F32x
    else if 0x0a <= op <= 0x0d || 0x0f <= op <= 0x11 || op in {0x1d, 0x1e, 0x27} then F11x
    else if op == 0x12 then F11n
    else if op in {0x13, 0x16} then F21s
    else if op in {0x14, 0x17} then F31i
    else if op in {0x15, 0x19} then F21h
    else if op == 0x18 then F51l
    else if op in {0x1a, 0x1c, 0x1f, 0x22} || 0x60 <= op <= 0x6d || op in {0xfe, 0xff} then F21c
    else if op == 0x1b then F31c
    else if op in {0x20, 0x23} || 0x52 <= op <= 0x5f then F22c
    else if op == 0x24 || 0x6e <= op <= 0x72 || op == 0xfc then F35c
    else if op == 0x25 || 0x74 <= op <= 0x78 || op == 0xfd then F3rc
    else if op in {0x26, 0x2b, 0x2c} then F31t
    else if op == 0x28 then F10t
    else if op == 0x29 then F20t
    else if op == 0x2a then F30t
    else if 0x2d <= op <= 0x31 || 0x44 <= op <= 0x51 || 0x90 <= op <= 0xaf then F23x
    else if 0x32 <= op <= 0x37 then F22t
    else if 0x38 <= op <= 0x3d then F21t
    else if 0x7b <= op <= 0x8f || 0xb0 <= op <= 0xcf then F12x
    else if 0xd0 <= op <= 0xd7 then F22s
    else if 0xd8 <= op <= 0xe2 then F22b
    else if op == 0xfa then F45cc
    else if op == 0xfb then F4rcc
    else F10x
  }

  function Length(f: Format): nat {
    match f
    case F10x | F12x | F11n | F11x | F10t => 1
    case F20t | F22x | F21t | F21s | F21h | F21c | F23x | F22b | F22t | F22s | F22c => 2
    case F30t | F32x | F31i | F31t | F31c | F35c | F3rc => 3
    case F45cc | F4rcc => 4
    case F51l => 5
  }

  datatype Table = Strings | Types | Fields | Methods | Protos | CallSites | MethodHandles

  /** The table the index of an instruction with one is for. */
  function TableOf(op: nat): Table {
    match op
    case 0x1a => Strings // const-string
    case 0x1b => Strings // const-string/jumbo
    case 0x1c => Types // const-class
    case 0x1f => Types // check-cast
    case 0x20 => Types // instance-of
    case 0x22 => Types // new-instance
    case 0x23 => Types // new-array
    case 0x24 => Types // filled-new-array
    case 0x25 => Types // filled-new-array/range
    case 0xfc => CallSites // invoke-custom
    case 0xfd => CallSites // invoke-custom/range
    case 0xfe => MethodHandles // const-method-handle
    case 0xff => Protos // const-method-type
    case _ => if op < 0x6e then Fields else Methods // iget to sput, invokes
  }

  /** An index operand: where it begins, how many units it takes, and its table. */
  datatype Operand = Operand(at: nat, units: nat, table: Table)

  function Operands(op: nat): seq<Operand> {
    match FormatOf(op)
    case F21c | F22c | F35c | F3rc => [Operand(1, 1, TableOf(op))]
    case F31c => [Operand(1, 2, TableOf(op))]
    case F45cc | F4rcc => [Operand(1, 1, TableOf(op)), Operand(3, 1, Protos)]
    case _ => []
  }

  /** The units of the instruction or payload the code begins with; none if a payload's sizes are cut off. A payload is
      its mark, then for a packed switch a size, a first key of two units and a target of two units for each; for a
      sparse switch a size, and a key and a target for each; for array data a width, a size of two units and the
      bytes. */
  function Units(code: Code): (r: Option<nat>)
    requires code != []
    ensures r.Some? ==> r.value > 0
  {
    if code[0] == 0x0100 then
      if |code| < 2 then None else Some(1 + 1 + 2 + 2 * code[1])
    else if code[0] == 0x0200 then
      if |code| < 2 then None else Some(1 + 1 + 2 * code[1] + 2 * code[1])
    else if code[0] == 0x0300 then
      if |code| < 4 then None
      else
        var bytes := code[1] * (code[2] + 0x10000 * code[3]);
        Some(1 + 1 + 2 + bytes / 2 + bytes % 2)
    else Some(Length(FormatOf(code[0] % 0x100)))
  }
}
