/** Bytes and little-endian words, as the memory of the host holds them. */
module Words {

  type Byte = x: int | 0 <= x < 256

  type Word16 = x: int | 0 <= x < TWO16

  type Word32 = x: int | 0 <= x < TWO32

  type Word64 = x: int | 0 <= x < TWO64

  const TWO16 := 0x1_0000
  const TWO32 := 0x1_0000_0000
  const TWO64 := 0x1_0000_0000_0000_0000
  const TWO31 := 0x8000_0000
  const TWO63 := 0x8000_0000_0000_0000

  function AsInt32(x: Word32): (i: int)
    ensures -TWO31 <= i < TWO31
  {
    if x < TWO31 then x else x - TWO32
  }

  function AsInt64(x: Word64): (i: int)
    ensures -TWO63 <= i < TWO63
  {
    if x < TWO63 then x else x - TWO64
  }

  function Get16(b: seq<Byte>): Word16
    requires |b| == 2
  {
    b[0] as int + 0x100 * b[1] as int
  }

  function Put16(v: Word16): (b: seq<Byte>)
    ensures |b| == 2
  {
    [v % 0x100, v / 0x100]
  }

  function Get32(b: seq<Byte>): Word32
    requires |b| == 4
  {
    Get16(b[..2]) as int + TWO16 * Get16(b[2..]) as int
  }

  function Put32(v: Word32): (b: seq<Byte>)
    ensures |b| == 4
  {
    Put16(v % TWO16) + Put16(v / TWO16)
  }

  function Get64(b: seq<Byte>): Word64
    requires |b| == 8
  {
    Get32(b[..4]) as int + TWO32 * Get32(b[4..]) as int
  }

  function Put64(v: Word64): (b: seq<Byte>)
    ensures |b| == 8
  {
    Put32(v % TWO32) + Put32(v / TWO32)
  }

  lemma GetPut16(v: Word16)
    ensures Get16(Put16(v)) == v
  {
  }

  lemma PutGet16(b: seq<Byte>)
    requires |b| == 2
    ensures Put16(Get16(b)) == b
  {
  }

  lemma GetPut32(v: Word32)
    ensures Get32(Put32(v)) == v
  {
    GetPut16(v % TWO16);
    GetPut16(v / TWO16);
    hide Get16, Put16;
    assert Put32(v)[..2] == Put16(v % TWO16) && Put32(v)[2..] == Put16(v / TWO16);
  }

  lemma PutGet32(b: seq<Byte>)
    requires |b| == 4
    ensures Put32(Get32(b)) == b
  {
    PutGet16(b[..2]);
    PutGet16(b[2..]);
    hide Get16, Put16;
    assert Get32(b) % TWO16 == Get16(b[..2]) && Get32(b) / TWO16 == Get16(b[2..]);
  }

  lemma GetPut64(v: Word64)
    ensures Get64(Put64(v)) == v
  {
    GetPut32(v % TWO32);
    GetPut32(v / TWO32);
    hide Get32, Put32;
    assert Put64(v)[..4] == Put32(v % TWO32) && Put64(v)[4..] == Put32(v / TWO32);
  }

  lemma PutGet64(b: seq<Byte>)
    requires |b| == 8
    ensures Put64(Get64(b)) == b
  {
    PutGet32(b[..4]);
    PutGet32(b[4..]);
    hide Get32, Put32;
    assert Get64(b) % TWO32 == Get32(b[..4]) && Get64(b) / TWO32 == Get32(b[4..]);
  }

  /** The first byte is the lowest. */
  lemma LittleEndian(b: seq<Byte>)
    ensures |b| == 2 ==> Get16(b) as int == b[0] as int + 256 * b[1] as int
    ensures |b| == 4 ==>
              Get32(b) as int == b[0] as int + 256 * b[1] as int + 65536 * b[2] as int + 16777216 * b[3] as int
    ensures |b| == 8 ==>
              Get64(b) as int == b[0] as int + 256 * b[1] as int + 65536 * b[2] as int + 16777216 * b[3] as int
                                 + 4294967296 * (b[4] as int + 256 * b[5] as int + 65536 * b[6] as int + 16777216 * b[7] as int)
  {
  }

  /** A signed number is the one of its range that is congruent. */
  lemma SignedIsCongruent(x: Word32, y: Word64)
    ensures (x as int - AsInt32(x)) % TWO32 == 0 && (y as int - AsInt64(y)) % TWO64 == 0
  {
  }

  method Write(image: array<Byte>, t: nat, b: seq<Byte>)
    requires t + |b| <= image.Length
    modifies image
    ensures image[..] == old(image[..t]) + b + old(image[t + |b|..])
  {
    var k := 0;
    while k < |b|
      invariant 0 <= k <= |b|
      invariant forall j | 0 <= j < k :: image[t + j] == b[j]
      invariant forall j | 0 <= j < image.Length && !(t <= j < t + k) :: image[j] == old(image[j])
    {
      image[t + k] := b[k];
      k := k + 1;
    }
  }
}
