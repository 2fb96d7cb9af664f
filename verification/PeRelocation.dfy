/** Base relocation of a PE image (DianaPeFile_ProcessRelocationEntry): the fixups of a block add the distance to
    the preferred base to the values in the image, in place. */
module PeRelocation {
  import opened Words

  const HIGH := 1
  const HIGHLOW := 3
  const THUMB_MOV32 := 7
  const DIR64 := 10

  /** The offset of the target in the module; the sum is 32 bits wide. A sub-entry is 4 bits of type and 12 bits of
      offset. */
  function TargetOf(page: nat, e: Word16): Word32 {
    (page + e % 0x1000) % TWO32
  }

  function KindOf(e: Word16): int {
    e / 0x1000
  }

  /** How many bytes a fixup rewrites: none where its type is not handled, or its target is 0. */
  function WidthOf(page: nat, e: Word16): (w: nat)
    ensures w <= 8
  {
    if TargetOf(page, e) == 0 then 0
    else match KindOf(e)
      case 1 => 2
      case 3 => 4
      case 7 => 8
      case 10 => 8
      case _ => 0
  }

  // ------------------------------------------------------------------ MOVW and MOVT

  /** imm16 = imm4:i:imm3:imm8, from bits 3..0 and 10 of hw1 and bits 14..12 and 7..0 of hw2. */
  function ImmediateOf(hw1: Word16, hw2: Word16): Word16 {
    hw1 % 16 * 0x1000 + hw1 / 0x400 % 2 * 0x800 + hw2 / 0x1000 % 8 * 0x100 + hw2 % 0x100
  }

  /** hw1 & ~0x040F. */
  function Opcode1(hw1: Word16): Word16 {
    hw1 / 16 % 64 * 16 + hw1 / 0x800 * 0x800
  }

  /** hw2 & ~0x70FF. */
  function Opcode2(hw2: Word16): Word16 {
    hw2 / 0x100 % 16 * 0x100 + hw2 / 0x8000 * 0x8000
  }

  function With1(hw1: Word16, imm16: Word16): Word16 {
    Opcode1(hw1) + imm16 / 0x1000 + imm16 / 0x800 % 2 * 0x400
  }

  function With2(hw2: Word16, imm16: Word16): Word16 {
    Opcode2(hw2) + imm16 / 0x100 % 8 * 0x1000 + imm16 % 0x100
  }

  lemma FirstHalfword(h: int, a: int, b: int, c: int, d: int)
    requires 0 <= a < 16 && 0 <= b < 64 && 0 <= c < 2 && 0 <= d < 32 && h == a + 16 * b + 0x400 * c + 0x800 * d
    ensures h % 16 == a && h / 16 % 64 == b && h / 0x400 % 2 == c && h / 0x800 == d
  {
    assert h / 16 == b + 64 * c + 128 * d;
    assert h / 0x400 == c + 2 * d;
  }

  lemma SecondHalfword(h: int, a: int, b: int, c: int, d: int)
    requires 0 <= a < 0x100 && 0 <= b < 16 && 0 <= c < 8 && 0 <= d < 2
    requires h == a + 0x100 * b + 0x1000 * c + 0x8000 * d
    ensures h % 0x100 == a && h / 0x100 % 16 == b && h / 0x1000 % 8 == c && h / 0x8000 == d
  {
    assert h / 0x100 == b + 16 * c + 128 * d;
    assert h / 0x1000 == c + 8 * d;
  }

  lemma Immediate(i: int, a: int, b: int, c: int, d: int)
    requires 0 <= a < 16 && 0 <= b < 2 && 0 <= c < 8 && 0 <= d < 0x100
    requires i == a * 0x1000 + b * 0x800 + c * 0x100 + d
    ensures i / 0x1000 == a && i / 0x800 % 2 == b && i / 0x100 % 8 == c && i % 0x100 == d
  {
    assert i / 0x800 == b + 2 * a;
    assert i / 0x100 == c + 8 * b + 16 * a;
  }

  /** The fields of a halfword or an immediate make it up. */
  lemma Fields(h: Word16)
    ensures h == h % 16 + 16 * (h / 16 % 64) + 0x400 * (h / 0x400 % 2) + 0x800 * (h / 0x800)
    ensures h == h % 0x100 + 0x100 * (h / 0x100 % 16) + 0x1000 * (h / 0x1000 % 8) + 0x8000 * (h / 0x8000)
    ensures h == h / 0x1000 * 0x1000 + h / 0x800 % 2 * 0x800 + h / 0x100 % 8 * 0x100 + h % 0x100
  {
    assert h / 16 / 64 == h / 0x400 && h / 0x400 / 2 == h / 0x800;
    assert h / 0x100 / 16 == h / 0x1000 && h / 0x1000 / 8 == h / 0x8000;
    assert h / 0x100 / 8 == h / 0x800 && h / 0x800 / 2 == h / 0x1000;
  }

  lemma WithImmediate(hw1: Word16, hw2: Word16, imm16: Word16)
    ensures Opcode1(With1(hw1, imm16)) == Opcode1(hw1) && Opcode2(With2(hw2, imm16)) == Opcode2(hw2)
    ensures ImmediateOf(With1(hw1, imm16), With2(hw2, imm16)) == imm16
  {
    FirstHalfword(With1(hw1, imm16), imm16 / 0x1000, hw1 / 16 % 64, imm16 / 0x800 % 2, hw1 / 0x800);
    SecondHalfword(With2(hw2, imm16), imm16 % 0x100, hw2 / 0x100 % 16, imm16 / 0x100 % 8, hw2 / 0x8000);
    Fields(imm16);
  }

  lemma OwnImmediate(hw1: Word16, hw2: Word16)
    ensures var imm16 := ImmediateOf(hw1, hw2); With1(hw1, imm16) == hw1 && With2(hw2, imm16) == hw2
  {
    Immediate(ImmediateOf(hw1, hw2), hw1 % 16, hw1 / 0x400 % 2, hw2 / 0x1000 % 8, hw2 % 0x100);
    Fields(hw1);
    Fields(hw2);
  }

  function GetThumbMovImm16(b: seq<Byte>): Word16
    requires |b| == 4
  {
    ImmediateOf(Get16(b[..2]), Get16(b[2..]))
  }

  function SetThumbMovImm16(b: seq<Byte>, imm16: Word16): (r: seq<Byte>)
    requires |b| == 4
    ensures |r| == 4
  {
    Put16(With1(Get16(b[..2]), imm16)) + Put16(With2(Get16(b[2..]), imm16))
  }

  /** The bits of an instruction that are not the immediate: the opcode and the register. */
  function OpcodeOf(b: seq<Byte>): (Word16, Word16)
    requires |b| == 4
  {
    (Opcode1(Get16(b[..2])), Opcode2(Get16(b[2..])))
  }

  /** Setting the immediate of an instruction leaves its opcode and register. */
  lemma SetImmediate(b: seq<Byte>, imm16: Word16)
    requires |b| == 4
    ensures var r := SetThumbMovImm16(b, imm16);
            GetThumbMovImm16(r) == imm16 && OpcodeOf(r) == OpcodeOf(b)
  {
    hide Get16, Put16, With1, With2, ImmediateOf, Opcode1, Opcode2;
    WithImmediate(Get16(b[..2]), Get16(b[2..]), imm16);
    var h1, h2 := With1(Get16(b[..2]), imm16), With2(Get16(b[2..]), imm16);
    GetPut16(h1);
    GetPut16(h2);
    var r := SetThumbMovImm16(b, imm16);
    assert r[..2] == Put16(h1) && r[2..] == Put16(h2);
  }

  /** An instruction is its opcode and its immediate. */
  lemma SameInstruction(a: seq<Byte>, b: seq<Byte>)
    requires |a| == 4 && |b| == 4 && OpcodeOf(a) == OpcodeOf(b) && GetThumbMovImm16(a) == GetThumbMovImm16(b)
    ensures a == b
  {
    PutGet16(a[..2]);
    PutGet16(a[2..]);
    PutGet16(b[..2]);
    PutGet16(b[2..]);
    OwnImmediate(Get16(a[..2]), Get16(a[2..]));
    OwnImmediate(Get16(b[..2]), Get16(b[2..]));
    hide Get16, Put16, ImmediateOf, Opcode1, Opcode2;
    assert Get16(a[..2]) == Get16(b[..2]) && Get16(a[2..]) == Get16(b[2..]);
    assert a == a[..2] + a[2..] && b == b[..2] + b[2..];
  }

  // ------------------------------------------------------------------ one fixup

  predicate IsFixup(kind: int, b: seq<Byte>) {
    (kind == HIGH && |b| == 2) || (kind == HIGHLOW && |b| == 4) || ((kind == THUMB_MOV32 || kind == DIR64) && |b| == 8)
  }

  function Moved32(x: Word32, diff: Word64): Word32 {
    (x + diff % TWO32) % TWO32
  }

  function Moved64(x: Word64, diff: Word64): Word64 {
    (x + diff) % TWO64
  }

  /** A HIGH fixup is the upper half of a value whose lower half counts as 0. */
  function MovedHigh(x: Word16, diff: Word64): Word16 {
    Moved32(x * TWO16, diff) / TWO16
  }

  /** The address that MOVW and MOVT hold. */
  function ThumbAddress(b: seq<Byte>): Word32
    requires |b| == 8
  {
    GetThumbMovImm16(b[..4]) as int + TWO16 * GetThumbMovImm16(b[4..]) as int
  }

  function Patch(kind: int, b: seq<Byte>, diff: Word64): (r: seq<Byte>)
    requires IsFixup(kind, b)
    ensures |r| == |b|
  {
    if kind == HIGH then Put16(MovedHigh(Get16(b), diff))
    else if kind == HIGHLOW then Put32(Moved32(Get32(b), diff))
    else if kind == DIR64 then Put64(Moved64(Get64(b), diff))
    else
      var v := Moved32(ThumbAddress(b), diff);
      SetThumbMovImm16(b[..4], v % TWO16) + SetThumbMovImm16(b[4..], v / TWO16)
  }

  lemma ThumbMoves(b: seq<Byte>, diff: Word64)
    requires |b| == 8
    ensures var r := Patch(THUMB_MOV32, b, diff);
            && ThumbAddress(r) == Moved32(ThumbAddress(b), diff)
            && OpcodeOf(r[..4]) == OpcodeOf(b[..4]) && OpcodeOf(r[4..]) == OpcodeOf(b[4..])
  {
    hide GetThumbMovImm16, SetThumbMovImm16, OpcodeOf, Moved32;
    var v := Moved32(ThumbAddress(b), diff);
    SetImmediate(b[..4], v % TWO16);
    SetImmediate(b[4..], v / TWO16);
    var r := Patch(THUMB_MOV32, b, diff);
    assert r[..4] == SetThumbMovImm16(b[..4], v % TWO16) && r[4..] == SetThumbMovImm16(b[4..], v / TWO16);
  }

  lemma PatchIs(kind: int, b: seq<Byte>, diff: Word64)
    requires IsFixup(kind, b)
    ensures var r := Patch(kind, b, diff);
            && (kind == HIGH ==> Get16(r) == MovedHigh(Get16(b), diff))
            && (kind == HIGHLOW ==> Get32(r) == Moved32(Get32(b), diff))
            && (kind == DIR64 ==> Get64(r) == Moved64(Get64(b), diff))
            && (kind == THUMB_MOV32 ==>
                  && ThumbAddress(r) == Moved32(ThumbAddress(b), diff)
                  && OpcodeOf(r[..4]) == OpcodeOf(b[..4]) && OpcodeOf(r[4..]) == OpcodeOf(b[4..]))
  {
    if kind == HIGH {
      GetPut16(MovedHigh(Get16(b), diff));
    } else if kind == HIGHLOW {
      GetPut32(Moved32(Get32(b), diff));
    } else if kind == DIR64 {
      GetPut64(Moved64(Get64(b), diff));
    } else {
      ThumbMoves(b, diff);
    }
    hide *;
  }

  /** The immediate of a Thumb instruction of four bytes: imm4 in the low bits of the first byte, i in bit 2 of the second,
      imm3 in bits 4 to 6 of the fourth, and imm8 in the third. */
  function ImmediateIn(b0: int, b1: int, b2: int, b3: int): int {
    4096 * (b0 % 16) + 2048 * (b1 / 4 % 2) + 256 * (b3 / 16 % 8) + b2
  }

  function ImmediateAt(b: seq<Byte>, k: nat): int
    requires k + 4 <= |b|
  {
    ImmediateIn(b[k], b[k + 1], b[k + 2], b[k + 3])
  }

  /** The bits of the instruction that are no part of the immediate. */
  predicate SameButImmediate(a: seq<Byte>, b: seq<Byte>, k: nat)
    requires k + 4 <= |a| && k + 4 <= |b|
  {
    && a[k] / 16 == b[k] / 16 && a[k + 1] % 4 == b[k + 1] % 4 && a[k + 1] / 8 == b[k + 1] / 8
    && a[k + 3] % 16 == b[k + 3] % 16 && a[k + 3] / 128 == b[k + 3] / 128
  }

  lemma LowByte(lo: int, hi: int)
    requires 0 <= lo < 0x100 && 0 <= hi < 0x100
    ensures var h := lo + 0x100 * hi;
            h % 16 == lo % 16 && h / 16 % 64 == lo / 16 + 16 * (hi % 4) && h / 0x400 % 2 == hi / 4 % 2 && h / 0x800 == hi / 8
  {
    var h, l0, l1, h0, h1, h2 := lo + 0x100 * hi, lo % 16, lo / 16, hi % 4, hi / 4 % 2, hi / 8;
    assert lo == l0 + 16 * l1;
    assert hi == h0 + 4 * (hi / 4) && hi / 4 == h1 + 2 * (hi / 4 / 2) && hi / 4 / 2 == h2;
    FirstHalfword(h, l0, l1 + 16 * h0, h1, h2);
  }

  lemma HighByte(lo: int, hi: int)
    requires 0 <= lo < 0x100 && 0 <= hi < 0x100
    ensures var h := lo + 0x100 * hi;
            h % 0x100 == lo && h / 0x100 % 16 == hi % 16 && h / 0x1000 % 8 == hi / 16 % 8 && h / 0x8000 == hi / 128
  {
    var h, g0, g1, g2 := lo + 0x100 * hi, hi % 16, hi / 16 % 8, hi / 128;
    assert hi == g0 + 16 * (hi / 16) && hi / 16 == g1 + 8 * (hi / 16 / 8) && hi / 16 / 8 == g2;
    SecondHalfword(h, lo, g0, g1, g2);
  }

  lemma BytesOfHalfword(b: seq<Byte>)
    requires |b| == 2
    ensures Get16(b) == b[0] as int + 0x100 * b[1] as int
  {
  }

  /** The immediate and the rest of an instruction in terms of its bytes. */
  lemma ImmediateOfBytes(b: seq<Byte>)
    requires |b| == 4
    ensures GetThumbMovImm16(b) as int == ImmediateAt(b, 0)
    ensures Opcode1(Get16(b[..2])) as int == 16 * (b[0] as int / 16 + 16 * (b[1] as int % 4)) + 0x800 * (b[1] as int / 8)
    ensures Opcode2(Get16(b[2..])) as int == 0x100 * (b[3] as int % 16) + 0x8000 * (b[3] as int / 128)
  {
    BytesOfHalfword(b[..2]);
    BytesOfHalfword(b[2..]);
    LowByte(b[0], b[1]);
    HighByte(b[2], b[3]);
    hide Get16;
    assert b[..2][0] == b[0] && b[..2][1] == b[1] && b[2..][0] == b[2] && b[2..][1] == b[3];
  }

  lemma SameOpcode(a: seq<Byte>, b: seq<Byte>)
    requires |a| == 4 && |b| == 4 && OpcodeOf(a) == OpcodeOf(b)
    ensures SameButImmediate(a, b, 0)
  {
    ImmediateOfBytes(a);
    ImmediateOfBytes(b);
    assert Opcode1(Get16(a[..2])) == Opcode1(Get16(b[..2])) && Opcode2(Get16(a[2..])) == Opcode2(Get16(b[2..]));
    hide OpcodeOf, GetThumbMovImm16, Opcode1, Opcode2, Get16;
    Digits(a[0] as int / 16, a[1] as int % 4, a[1] as int / 8, b[0] as int / 16, b[1] as int % 4, b[1] as int / 8);
    TwoDigits(a[3] as int % 16, a[3] as int / 128, b[3] as int % 16, b[3] as int / 128);
  }

  lemma Digits(a: int, b: int, c: int, x: int, y: int, z: int)
    requires 0 <= a < 16 && 0 <= b < 4 && 0 <= x < 16 && 0 <= y < 4
    requires 16 * (a + 16 * b) + 0x800 * c == 16 * (x + 16 * y) + 0x800 * z
    ensures a == x && b == y && c == z
  {
    assert a - x == 16 * (y - b) + 128 * (z - c);
    assert b - y == 8 * (z - c);
  }

  lemma TwoDigits(a: int, b: int, x: int, y: int)
    requires 0 <= a < 16 && 0 <= x < 16 && 0x100 * a + 0x8000 * b == 0x100 * x + 0x8000 * y
    ensures a == x && b == y
  {
    assert a - x == 128 * (y - b);
  }

  /** What a fixup does to the number it stands for. DIR64 and HIGHLOW move it by the distance, modulo their size. HIGH is
      the upper half of a 32-bit number whose lower half counts as 0. A pair of MOVW and MOVT holds an address, MOVW the
      lower half; nothing but the two immediates changes. */
  lemma PatchMoves(kind: int, b: seq<Byte>, diff: Word64)
    requires IsFixup(kind, b)
    ensures var r := Patch(kind, b, diff);
            && (kind == 10 ==> Get64(r) as int == Get64(b) + diff as int - (if Get64(b) + diff as int < TWO64 then 0 else TWO64))
            && (kind == 3 ==> Get32(r) as int == (Get32(b) as int + diff as int) % TWO32)
            && (kind == 1 ==> Get16(r) as int == (Get16(b) as int * 65536 + diff as int) % TWO32 / 65536)
            && (kind == 7 ==>
                  && ImmediateAt(r, 0) + 65536 * ImmediateAt(r, 4) == (ImmediateAt(b, 0) + 65536 * ImmediateAt(b, 4) + diff) % TWO32
                  && SameButImmediate(r, b, 0) && SameButImmediate(r, b, 4))
  {
    PatchIs(kind, b, diff);
    hide Patch, Get64, Get32, Get16, OpcodeOf, GetThumbMovImm16, Moved32, Moved64;
    if kind == THUMB_MOV32 {
      ThumbPatch(b, Patch(kind, b, diff), diff);
    } else if kind == HIGHLOW {
      Moved32Is(Get32(b), diff);
    } else if kind == DIR64 {
      Moved64Is(Get64(b), diff);
    } else {
      Moved32Is(Get16(b) * TWO16, diff);
    }
  }

  lemma Moved32Is(x: Word32, diff: Word64)
    ensures Moved32(x, diff) as int == (x as int + diff as int) % TWO32
  {
    var q, d := diff as int / TWO32, diff as int % TWO32;
    assert x as int + diff as int == TWO32 * q + (x as int + d);
  }

  lemma Moved64Is(x: Word64, diff: Word64)
    ensures Moved64(x, diff) as int == x as int + diff as int - (if x as int + diff as int < TWO64 then 0 else TWO64)
  {
  }

  lemma ThumbPatch(b: seq<Byte>, r: seq<Byte>, diff: Word64)
    requires |b| == 8 && |r| == 8 && ThumbAddress(r) == Moved32(ThumbAddress(b), diff)
    requires OpcodeOf(r[..4]) == OpcodeOf(b[..4]) && OpcodeOf(r[4..]) == OpcodeOf(b[4..])
    ensures ImmediateAt(r, 0) + 65536 * ImmediateAt(r, 4) == (ImmediateAt(b, 0) + 65536 * ImmediateAt(b, 4) + diff) % TWO32
    ensures SameButImmediate(r, b, 0) && SameButImmediate(r, b, 4)
  {
    AddressOfBytes(b);
    AddressOfBytes(r);
    SameOpcode(r[..4], b[..4]);
    SameOpcode(r[4..], b[4..]);
    Moved32Is(ThumbAddress(b), diff);
    hide OpcodeOf, ThumbAddress, Moved32, ImmediateIn;
  }

  lemma AddressOfBytes(b: seq<Byte>)
    requires |b| == 8
    ensures ThumbAddress(b) as int == ImmediateAt(b, 0) + 65536 * ImmediateAt(b, 4)
  {
    ImmediateOfBytes(b[..4]);
    ImmediateOfBytes(b[4..]);
    assert ImmediateAt(b[..4], 0) == ImmediateAt(b, 0) && ImmediateAt(b[4..], 0) == ImmediateAt(b, 4);
    hide GetThumbMovImm16, ImmediateIn;
  }

  /** -diff, 64 bits wide. */
  function Opposite(diff: Word64): Word64 {
    if diff == 0 then 0 else TWO64 - diff
  }

  lemma MovedBack32(x: Word32, diff: Word64)
    ensures Moved32(Moved32(x, diff), Opposite(diff)) == x
  {
    LowOfOpposite(diff);
    hide Opposite;
  }

  lemma LowOfOpposite(diff: Word64)
    ensures Opposite(diff) % TWO32 == if diff % TWO32 == 0 then 0 else TWO32 - diff % TWO32
  {
  }

  lemma MovedBack64(x: Word64, diff: Word64)
    ensures Moved64(Moved64(x, diff), Opposite(diff)) == x
  {
  }

  lemma MovedBackHigh(x: Word16, diff: Word64)
    ensures MovedHigh(MovedHigh(x, diff), Opposite(diff)) == x <==> diff % TWO16 == 0
  {
    LowOfOpposite(diff);
    var d := diff % TWO32;
    assert d % TWO16 == diff % TWO16;
    HalvesMovedBack(x, d);
  }

  lemma HalvesMovedBack(x: Word16, d: Word32)
    ensures var y := (x * TWO16 + d) % TWO32 / TWO16;
            var o := if d == 0 then 0 else TWO32 - d;
            (y * TWO16 + o) % TWO32 / TWO16 == x <==> d % TWO16 == 0
  {
  }

  lemma HighRestores(b: seq<Byte>, diff: Word64)
    requires |b| == 2
    ensures Patch(HIGH, Patch(HIGH, b, diff), Opposite(diff)) == b <==> diff % TWO16 == 0
  {
    hide Patch, MovedHigh, Get16, Put16, Opposite;
    var r := Patch(HIGH, b, diff);
    var s := Patch(HIGH, r, Opposite(diff));
    PatchIs(HIGH, b, diff);
    PatchIs(HIGH, r, Opposite(diff));
    PutGet16(b);
    PutGet16(s);
    MovedBackHigh(Get16(b), diff);
  }

  lemma SameAddress(a: seq<Byte>, b: seq<Byte>)
    requires |a| == 8 && |b| == 8 && ThumbAddress(a) == ThumbAddress(b)
    requires OpcodeOf(a[..4]) == OpcodeOf(b[..4]) && OpcodeOf(a[4..]) == OpcodeOf(b[4..])
    ensures a == b
  {
    hide OpcodeOf, GetThumbMovImm16;
    SameInstruction(a[..4], b[..4]);
    SameInstruction(a[4..], b[4..]);
    assert a == a[..4] + a[4..] && b == b[..4] + b[4..];
  }

  /** A fixup is restored by the opposite distance; a HIGH fixup exactly when the distance is a multiple of 64K. */
  lemma PatchRestores(kind: int, b: seq<Byte>, diff: Word64)
    requires IsFixup(kind, b)
    ensures Patch(kind, Patch(kind, b, diff), Opposite(diff)) == b <==> kind != HIGH || diff % TWO16 == 0
  {
    hide Patch, Moved32, Moved64, Get32, Put32, Get64, Put64, OpcodeOf, ThumbAddress, Opposite;
    if kind == HIGH {
      HighRestores(b, diff);
    } else {
      var r := Patch(kind, b, diff);
      var s := Patch(kind, r, Opposite(diff));
      PatchIs(kind, b, diff);
      PatchIs(kind, r, Opposite(diff));
      if kind == HIGHLOW {
        MovedBack32(Get32(b), diff);
        PutGet32(s);
        PutGet32(b);
      } else if kind == DIR64 {
        MovedBack64(Get64(b), diff);
        PutGet64(s);
        PutGet64(b);
      } else {
        MovedBack32(ThumbAddress(b), diff);
        SameAddress(s, b);
      }
    }
  }

  // ------------------------------------------------------------------ a block of fixups

  predicate Fits(n: nat, page: nat, e: Word16) {
    WidthOf(page, e) == 0 || TargetOf(page, e) + WidthOf(page, e) <= n
  }

  function Bytes(image: seq<Byte>, page: nat, e: Word16): (b: seq<Byte>)
    requires Fits(|image|, page, e) && WidthOf(page, e) != 0
    ensures |b| == WidthOf(page, e) && IsFixup(KindOf(e), b)
  {
    image[TargetOf(page, e)..TargetOf(page, e) + WidthOf(page, e)]
  }

  function Fix(image: seq<Byte>, page: nat, e: Word16, diff: Word64): (r: seq<Byte>)
    requires Fits(|image|, page, e)
    ensures |r| == |image|
  {
    var t, w := TargetOf(page, e), WidthOf(page, e);
    if w == 0 then image else image[..t] + Patch(KindOf(e), Bytes(image, page, e), diff) + image[t + w..]
  }

  datatype Relocated = Relocated(image: seq<Byte>, ok: bool)

  /** A short read ends the block with an error. */
  function Relocate(image: seq<Byte>, page: nat, es: seq<Word16>, diff: Word64): Relocated
    decreases |es|
  {
    if |es| == 0 then Relocated(image, true)
    else if !Fits(|image|, page, es[0]) then Relocated(image, false)
    else Relocate(Fix(image, page, es[0], diff), page, es[1..], diff)
  }

  method ProcessRelocationEntry(image: array<Byte>, page: nat, es: seq<Word16>, diff: Word64) returns (ok: bool)
    modifies image
    ensures Relocated(image[..], ok) == Relocate(old(image[..]), page, es, diff)
  {
    hide Patch, WidthOf, TargetOf;
    var i := 0;
    while i < |es|
      invariant 0 <= i <= |es|
      invariant Relocate(image[..], page, es[i..], diff) == Relocate(old(image[..]), page, es, diff)
    {
      var e := es[i];
      var t, w := TargetOf(page, e), WidthOf(page, e);
      assert es[i..][1..] == es[i + 1..];
      if w != 0 {
        if image.Length < t + w {
          return false;
        }
        ghost var was := image[..];
        var patched := Patch(KindOf(e), image[t..t + w], diff);
        Write(image, t, patched);
        assert image[..] == Fix(was, page, e, diff);
      }
      i := i + 1;
    }
    return true;
  }

  // ------------------------------------------------------------------ what a block does to the image

  /** The byte belongs to a fixup. */
  predicate Covers(page: nat, e: Word16, a: nat) {
    TargetOf(page, e) <= a < TargetOf(page, e) + WidthOf(page, e)
  }

  ghost predicate IsCovered(page: nat, es: seq<Word16>, a: nat) {
    exists k | 0 <= k < |es| :: Covers(page, es[k], a)
  }

  ghost predicate AreApart(page: nat, d: Word16, e: Word16) {
    forall a: nat :: !(Covers(page, d, a) && Covers(page, e, a))
  }

  /** No two fixups of the block overlap. */
  ghost predicate AreDisjoint(page: nat, es: seq<Word16>) {
    forall j, k | 0 <= j < k < |es| :: AreApart(page, es[j], es[k])
  }

  predicate AllFit(n: nat, page: nat, es: seq<Word16>) {
    forall k | 0 <= k < |es| :: Fits(n, page, es[k])
  }

  lemma {:induction false} OkWhenAllFit(image: seq<Byte>, page: nat, es: seq<Word16>, diff: Word64)
    ensures var r := Relocate(image, page, es, diff);
            |r.image| == |image| && (r.ok <==> AllFit(|image|, page, es))
    decreases |es|
  {
    hide Fix, Fits;
    if |es| != 0 {
      if Fits(|image|, page, es[0]) {
        OkWhenAllFit(Fix(image, page, es[0], diff), page, es[1..], diff);
        assert forall k | 0 < k < |es| :: es[k] == es[1..][k - 1];
      }
    }
  }

  lemma FixFrame(image: seq<Byte>, page: nat, e: Word16, diff: Word64, a: nat)
    requires Fits(|image|, page, e) && a < |image| && !Covers(page, e, a)
    ensures Fix(image, page, e, diff)[a] == image[a]
  {
    hide WidthOf, TargetOf, Patch;
  }

  /** The bytes outside the fixups never change, whatever overlaps, even when the block ends with an error. */
  lemma {:induction false} RelocateFrame(image: seq<Byte>, page: nat, es: seq<Word16>, diff: Word64, a: nat)
    requires a < |image| && !IsCovered(page, es, a)
    ensures var r := Relocate(image, page, es, diff); |r.image| == |image| && r.image[a] == image[a]
    decreases |es|
  {
    hide Fix, Fits, Covers;
    if |es| != 0 && Fits(|image|, page, es[0]) {
      assert !Covers(page, es[0], a);
      FixFrame(image, page, es[0], diff, a);
      assert forall k | 0 < k < |es| :: es[k] == es[1..][k - 1];
      RelocateFrame(Fix(image, page, es[0], diff), page, es[1..], diff, a);
    }
  }

  lemma FixPatches(image: seq<Byte>, page: nat, e: Word16, diff: Word64)
    requires Fits(|image|, page, e) && WidthOf(page, e) != 0
    ensures Bytes(Fix(image, page, e, diff), page, e) == Patch(KindOf(e), Bytes(image, page, e), diff)
  {
    hide WidthOf, TargetOf, Patch;
  }

  lemma SameBytes(x: seq<Byte>, y: seq<Byte>, page: nat, e: Word16)
    requires |x| == |y| && Fits(|x|, page, e) && WidthOf(page, e) != 0
    requires forall a: nat | a < |x| && Covers(page, e, a) :: x[a] == y[a]
    ensures Bytes(x, page, e) == Bytes(y, page, e)
  {
    hide WidthOf, TargetOf;
    var t, w := TargetOf(page, e), WidthOf(page, e);
    forall i | 0 <= i < w
      ensures Bytes(x, page, e)[i] == Bytes(y, page, e)[i]
    {
      assert Covers(page, e, t + i);
    }
  }

  /** Every fixup of a block without overlaps is patched once. */
  lemma {:induction false} RelocatePatches(image: seq<Byte>, page: nat, es: seq<Word16>, diff: Word64, k: nat)
    requires AllFit(|image|, page, es) && AreDisjoint(page, es) && k < |es| && WidthOf(page, es[k]) != 0
    ensures var r := Relocate(image, page, es, diff).image;
            |r| == |image| && Bytes(r, page, es[k]) == Patch(KindOf(es[k]), Bytes(image, page, es[k]), diff)
    decreases |es|
  {
    hide Fix, Fits, Covers, WidthOf, Patch, AreApart;
    OkWhenAllFit(image, page, es, diff);
    var first := Fix(image, page, es[0], diff);
    var rest := es[1..];
    assert Fits(|image|, page, es[0]);
    assert forall j | 0 < j < |es| :: es[j] == rest[j - 1];
    OkWhenAllFit(first, page, rest, diff);
    var r := Relocate(image, page, es, diff).image;
    if k == 0 {
      FixPatches(image, page, es[0], diff);
      forall a: nat | a < |image| && Covers(page, es[0], a)
        ensures r[a] == first[a]
      {
        NotCoveredByRest(page, es, a);
        RelocateFrame(first, page, rest, diff, a);
      }
      SameBytes(r, first, page, es[0]);
    } else {
      assert AreDisjoint(page, rest);
      RelocatePatches(first, page, rest, diff, k - 1);
      assert Fits(|image|, page, es[k]) && AreApart(page, es[0], es[k]);
      forall a: nat | a < |image| && Covers(page, es[k], a)
        ensures first[a] == image[a]
      {
        Apart(page, es[0], es[k], a);
        FixFrame(image, page, es[0], diff, a);
      }
      SameBytes(first, image, page, es[k]);
    }
  }

  lemma Apart(page: nat, d: Word16, e: Word16, a: nat)
    requires AreApart(page, d, e) && Covers(page, e, a)
    ensures !Covers(page, d, a)
  {
    hide Covers;
  }

  lemma NotCoveredByRest(page: nat, es: seq<Word16>, a: nat)
    requires |es| != 0 && AreDisjoint(page, es) && Covers(page, es[0], a)
    ensures !IsCovered(page, es[1..], a)
  {
    hide Covers, AreApart;
    forall k | 0 <= k < |es[1..]|
      ensures !Covers(page, es[1..][k], a)
    {
      assert AreApart(page, es[0], es[k + 1]);
      NotBoth(page, es[0], es[k + 1], a);
    }
  }

  lemma NotBoth(page: nat, d: Word16, e: Word16, a: nat)
    requires AreApart(page, d, e) && Covers(page, d, a)
    ensures !Covers(page, e, a)
  {
    hide Covers;
  }

  predicate HasHigh(page: nat, es: seq<Word16>) {
    exists k | 0 <= k < |es| :: IsHigh(page, es[k])
  }

  predicate IsHigh(page: nat, e: Word16) {
    WidthOf(page, e) != 0 && KindOf(e) == HIGH
  }

  /** Relocating a block to another base and back. */
  function ThereAndBack(image: seq<Byte>, page: nat, es: seq<Word16>, diff: Word64): seq<Byte> {
    Relocate(Relocate(image, page, es, diff).image, page, es, Opposite(diff)).image
  }

  lemma FixupThereAndBack(image: seq<Byte>, page: nat, es: seq<Word16>, diff: Word64, k: nat)
    requires AllFit(|image|, page, es) && AreDisjoint(page, es) && k < |es| && WidthOf(page, es[k]) != 0
    ensures |ThereAndBack(image, page, es, diff)| == |image| && Fits(|image|, page, es[k])
    ensures Bytes(ThereAndBack(image, page, es, diff), page, es[k]) == Bytes(image, page, es[k]) <==>
            KindOf(es[k]) != HIGH || diff % TWO16 == 0
  {
    hide Fits, AreDisjoint, Patch, Opposite, WidthOf, Relocate;
    assert Fits(|image|, page, es[k]);
    var there := Relocate(image, page, es, diff).image;
    RelocatePatches(image, page, es, diff, k);
    RelocatePatches(there, page, es, Opposite(diff), k);
    PatchRestores(KindOf(es[k]), Bytes(image, page, es[k]), diff);
  }

  /** Applying the opposite distance restores the image, exactly when no fixup is HIGH or the distance is a multiple
      of 64K. */
  lemma RelocationIsInvertible(image: seq<Byte>, page: nat, es: seq<Word16>, diff: Word64)
    requires AllFit(|image|, page, es) && AreDisjoint(page, es)
    ensures Relocate(image, page, es, diff).ok
    ensures ThereAndBack(image, page, es, diff) == image <==> !HasHigh(page, es) || diff % TWO16 == 0
  {
    hide AreDisjoint, Fits, Patch, WidthOf, Relocate, Covers, Opposite;
    OkWhenAllFit(image, page, es, diff);
    var there := Relocate(image, page, es, diff).image;
    OkWhenAllFit(there, page, es, Opposite(diff));
    var back := ThereAndBack(image, page, es, diff);
    if HasHigh(page, es) && diff % TWO16 != 0 {
      var k :| 0 <= k < |es| && IsHigh(page, es[k]);
      FixupThereAndBack(image, page, es, diff, k);
    } else {
      forall a: nat | a < |image|
        ensures back[a] == image[a]
      {
        if IsCovered(page, es, a) {
          var k :| 0 <= k < |es| && Covers(page, es[k], a);
          CoveredIsFixup(page, es[k], a);
          assert !IsHigh(page, es[k]) || diff % TWO16 == 0;
          FixupThereAndBack(image, page, es, diff, k);
          ByteOfFixup(back, image, page, es[k], a);
        } else {
          RelocateFrame(image, page, es, diff, a);
          RelocateFrame(there, page, es, Opposite(diff), a);
        }
      }
    }
  }

  lemma CoveredIsFixup(page: nat, e: Word16, a: nat)
    requires Covers(page, e, a)
    ensures WidthOf(page, e) != 0
  {
    hide WidthOf;
  }

  lemma ByteOfFixup(x: seq<Byte>, y: seq<Byte>, page: nat, e: Word16, a: nat)
    requires |x| == |y| && a < |x| && Fits(|x|, page, e) && Covers(page, e, a) && WidthOf(page, e) != 0
    requires Bytes(x, page, e) == Bytes(y, page, e)
    ensures x[a] == y[a]
  {
    hide WidthOf, TargetOf;
    var t := TargetOf(page, e);
    assert x[a] == Bytes(x, page, e)[a - t] && y[a] == Bytes(y, page, e)[a - t];
  }

  /** Which bytes an entry of a block rewrites: the 12 low bits are an offset in the page, the 4 high ones the type. */
  lemma EntryFields(page: Word32, kind: nat, offset: nat)
    requires kind < 16 && offset < 4096
    ensures var e := kind * 4096 + offset;
            var target := page + offset;
            && TargetOf(page, e) == (if target < TWO32 then target else target - TWO32) && KindOf(e) == kind
            && WidthOf(page, e) == if TargetOf(page, e) == 0 then 0
                                   else if kind == 1 then 2
                                   else if kind == 3 then 4
                                   else if kind == 7 || kind == 10 then 8
                                   else 0
  {
  }

  /** Every pointer of a 64-bit image moves by the distance, once, if the fixups of its block are disjoint and fit. */
  lemma PointersMove(image: seq<Byte>, page: Word32, es: seq<Word16>, diff: Word64, k: nat, offset: nat)
    requires AllFit(|image|, page, es) && AreDisjoint(page, es) && k < |es|
    requires offset < 4096 && es[k] == 10 * 4096 + offset && 0 < page + offset < TWO32
    ensures var r, t := Relocate(image, page, es, diff).image, page + offset;
            && |r| == |image| && t + 8 <= |image|
            && Get64(r[t..t + 8]) == (Get64(image[t..t + 8]) + diff) % TWO64
  {
    assert Fits(|image|, page, es[k]);
    PointerBytes(image, page, es[k], offset);
    hide Patch, Get64, AreDisjoint, Relocate, WidthOf, KindOf, TargetOf, Fits, AllFit, Bytes;
    RelocatePatches(image, page, es, diff, k);
    PointerBytes(Relocate(image, page, es, diff).image, page, es[k], offset);
    var b := Bytes(image, page, es[k]);
    PatchMoves(10, b, diff);
    Moved64Is(Get64(b), diff);
  }

  lemma PointerBytes(image: seq<Byte>, page: Word32, e: Word16, offset: nat)
    requires offset < 4096 && e == 10 * 4096 + offset && 0 < page + offset < TWO32 && Fits(|image|, page, e)
    ensures WidthOf(page, e) == 8 && KindOf(e) == 10 && page + offset + 8 <= |image|
    ensures Bytes(image, page, e) == image[page + offset..page + offset + 8]
  {
    EntryFields(page, 10, offset);
  }

  /** An image at 0x140000000 that is loaded 64K higher. */
  lemma PointerMoves()
    ensures var image := [0, 0, 0, 0] + Put64(0x1_4000_1000);
            Relocate(image, 0, [0xA004], 0x1_0000) == Relocated([0, 0, 0, 0] + Put64(0x1_4001_1000), true)
  {
    var b, image := Put64(0x1_4000_1000), [0, 0, 0, 0] + Put64(0x1_4000_1000);
    GetPut64(0x1_4000_1000);
    EntryFields(0, 10, 4);
    assert Bytes(image, 0, 0xA004) == b;
    PatchMoves(10, b, 0x1_0000);
    PutGet64(Patch(10, b, 0x1_0000));
    hide Patch, Get64, Put64;
    assert Fix(image, 0, 0xA004, 0x1_0000) == [0, 0, 0, 0] + Put64(0x1_4001_1000);
    assert [0xA004 as Word16][1..] == [];
    assert Relocate(Fix(image, 0, 0xA004, 0x1_0000), 0, [], 0x1_0000).ok;
  }
}
