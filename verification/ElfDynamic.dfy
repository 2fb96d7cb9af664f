/** The dynamic array of an ELF file (DianaElf_NormalizeDyn): whatever the class and the byte order of the file, the
    buffer becomes an array of Elf64_Dyn of the host. ELF32 entries are widened in place, from the end. */
module ElfDynamic {
  import opened Words

  datatype Entry = Entry(tag: int, value: nat)

  function Reversed(b: seq<Byte>): (r: seq<Byte>)
    ensures |r| == |b| && forall i | 0 <= i < |b| :: r[i] == b[|b| - 1 - i]
  {
    seq(|b|, i requires 0 <= i < |b| => b[|b| - 1 - i])
  }

  lemma ReversedTwice(b: seq<Byte>)
    ensures Reversed(Reversed(b)) == b
  {
  }

  function Rd32(b: seq<Byte>, isLE: bool): Word32
    requires |b| == 4
  {
    Get32(if isLE then b else Reversed(b))
  }

  function Rd64(b: seq<Byte>, isLE: bool): Word64
    requires |b| == 8
  {
    Get64(if isLE then b else Reversed(b))
  }

  function EntrySize(is64: bool): nat {
    if is64 then 16 else 8
  }

  /** The entry that the bytes encode. */
  function EntryOf(b: seq<Byte>, isLE: bool, is64: bool): Entry
    requires |b| == EntrySize(is64)
  {
    if is64 then Entry(AsInt64(Rd64(b[..8], isLE)), Rd64(b[8..], isLE))
    else Entry(AsInt32(Rd32(b[..4], isLE)), Rd32(b[4..], isLE))
  }

  function BytesAt(b: seq<Byte>, is64: bool, i: nat): (r: seq<Byte>)
    requires EntrySize(is64) * (i + 1) <= |b|
    ensures |r| == EntrySize(is64)
  {
    b[EntrySize(is64) * i..EntrySize(is64) * (i + 1)]
  }

  function EntryAt(b: seq<Byte>, isLE: bool, is64: bool, i: nat): Entry
    requires EntrySize(is64) * (i + 1) <= |b|
  {
    EntryOf(BytesAt(b, is64, i), isLE, is64)
  }

  /** The entries of the first `count` places. */
  function Entries(b: seq<Byte>, isLE: bool, is64: bool, count: nat): (r: seq<Entry>)
    requires EntrySize(is64) * count <= |b|
    ensures |r| == count && forall i | 0 <= i < count :: r[i] == EntryAt(b, isLE, is64, i)
  {
    seq(count, i requires 0 <= i < count => EntryAt(b, isLE, is64, i))
  }

  // ------------------------------------------------------------------ the conversion in place

  /** (DI_INT64)(DI_INT32)x in 64 bits. */
  function SignExtended(x: Word32): (y: Word64)
    ensures AsInt64(y) == AsInt32(x)
  {
    if x < TWO31 then x else x + (TWO64 - TWO32)
  }

  function HostEntry(tag: Word64, value: Word64): (b: seq<Byte>)
    ensures |b| == 16
  {
    Put64(tag) + Put64(value)
  }

  lemma HostEntryIsRead(tag: Word64, value: Word64)
    ensures EntryOf(HostEntry(tag, value), true, true) == Entry(AsInt64(tag), value)
  {
    hide Get64, Put64;
    GetPut64(tag);
    GetPut64(value);
    var b := HostEntry(tag, value);
    assert b[..8] == Put64(tag) && b[8..] == Put64(value);
  }

  /** Writing an entry leaves the others, and the bytes before them. */
  lemma WrittenEntry(was: seq<Byte>, now: seq<Byte>, i: nat, b: seq<Byte>)
    requires |b| == 16 && 16 * (i + 1) <= |was| && now == was[..16 * i] + b + was[16 * (i + 1)..]
    ensures BytesAt(now, true, i) == b
    ensures forall j: nat | j != i && 16 * (j + 1) <= |was| :: BytesAt(now, true, j) == BytesAt(was, true, j)
    ensures forall a | 0 <= a < 16 * i || 16 * (i + 1) <= a < |was| :: now[a] == was[a]
  {
  }

  method WriteEntry(buffer: array<Byte>, i: nat, tag: Word64, value: Word64)
    requires 16 * (i + 1) <= buffer.Length
    modifies buffer
    ensures EntryAt(buffer[..], true, true, i) == Entry(AsInt64(tag), value)
    ensures forall j: nat | j != i && 16 * (j + 1) <= buffer.Length ::
              BytesAt(buffer[..], true, j) == BytesAt(old(buffer[..]), true, j)
    ensures forall a | 0 <= a < 16 * i || 16 * (i + 1) <= a < buffer.Length :: buffer[a] == old(buffer[a])
  {
    hide EntryOf, HostEntry, BytesAt;
    ghost var was := buffer[..];
    Write(buffer, 16 * i, HostEntry(tag, value));
    HostEntryIsRead(tag, value);
    WrittenEntry(was, buffer[..], i, HostEntry(tag, value));
    assert forall a | 0 <= a < buffer.Length :: buffer[..][a] == buffer[a] && was[a] == old(buffer[a]);
  }

  /** DianaElf_NormalizeDyn: ELF32 entries take twice their bytes. */
  method NormalizeDyn(buffer: array<Byte>, readBytes: nat, isLE: bool, is64: bool) returns (size: nat)
    requires 2 * readBytes <= buffer.Length
    modifies buffer
    ensures size == if is64 then readBytes else 2 * (readBytes / 8 * 8)
    ensures size / 16 == readBytes / EntrySize(is64)
    ensures Entries(buffer[..], true, true, size / 16) == Entries(old(buffer[..]), isLE, is64, size / 16)
    ensures forall a | size / 16 * 16 <= a < buffer.Length :: buffer[a] == old(buffer[a])
  {
    if is64 {
      size := readBytes;
      if !isLE {
        SwapEntries(buffer, readBytes / 16);
      }
    } else {
      WidenEntries(buffer, readBytes / 8, isLE);
      size := readBytes / 8 * 16;
    }
  }

  /** Every ELF32 entry becomes an ELF64 entry in the same buffer; the loop runs backward, and no entry is overwritten before
      it is read. */
  method WidenEntries(buffer: array<Byte>, count: nat, isLE: bool)
    requires 16 * count <= buffer.Length
    modifies buffer
    ensures Entries(buffer[..], true, true, count) == Entries(old(buffer[..]), isLE, false, count)
    ensures forall a | 16 * count <= a < buffer.Length :: buffer[a] == old(buffer[a])
  {
    hide EntryOf, BytesAt;
    ghost var was := buffer[..];
    var i := count;
    while i > 0
      invariant 0 <= i <= count
      invariant forall a | 0 <= a < 8 * i :: buffer[a] == was[a]
      invariant forall j | i <= j < count :: EntryAt(buffer[..], true, true, j) == EntryAt(was, isLE, false, j)
      invariant forall a | 16 * count <= a < buffer.Length :: buffer[a] == was[a]
    {
      i := i - 1;
      var tag := Rd32(buffer[8 * i..8 * i + 4], isLE);
      var value := Rd32(buffer[8 * i + 4..8 * i + 8], isLE);
      NarrowEntry(was, buffer[..], isLE, i);
      WriteEntry(buffer, i, SignExtended(tag), value);
    }
  }

  lemma NarrowEntry(was: seq<Byte>, now: seq<Byte>, isLE: bool, i: nat)
    requires |was| == |now| && 8 * (i + 1) <= |was| && forall a | 0 <= a < 8 * (i + 1) :: now[a] == was[a]
    ensures EntryAt(was, isLE, false, i) ==
            Entry(AsInt32(Rd32(now[8 * i..8 * i + 4], isLE)), Rd32(now[8 * i + 4..8 * i + 8], isLE))
  {
    var b := BytesAt(was, false, i);
    assert b[..4] == now[8 * i..8 * i + 4] && b[4..] == now[8 * i + 4..8 * i + 8];
  }

  /** The loop over big-endian ELF64 entries. */
  method SwapEntries(buffer: array<Byte>, count: nat)
    requires 16 * count <= buffer.Length
    modifies buffer
    ensures Entries(buffer[..], true, true, count) == Entries(old(buffer[..]), false, true, count)
    ensures forall a | 16 * count <= a < buffer.Length :: buffer[a] == old(buffer[a])
  {
    hide EntryOf, BytesAt;
    ghost var was := buffer[..];
    var i := 0;
    while i < count
      invariant 0 <= i <= count
      invariant forall a | 16 * i <= a < buffer.Length :: buffer[a] == was[a]
      invariant forall j | 0 <= j < i :: EntryAt(buffer[..], true, true, j) == EntryAt(was, false, true, j)
    {
      var tag := Rd64(buffer[16 * i..16 * i + 8], false);
      var value := Rd64(buffer[16 * i + 8..16 * i + 16], false);
      WideEntry(was, buffer[..], i);
      WriteEntry(buffer, i, tag, value);
      i := i + 1;
    }
  }

  lemma WideEntry(was: seq<Byte>, now: seq<Byte>, i: nat)
    requires |was| == |now| && 16 * (i + 1) <= |was| && forall a | 16 * i <= a < |was| :: now[a] == was[a]
    ensures EntryAt(was, false, true, i) ==
            Entry(AsInt64(Rd64(now[16 * i..16 * i + 8], false)), Rd64(now[16 * i + 8..16 * i + 16], false))
  {
    var b := BytesAt(was, true, i);
    assert b[..8] == now[16 * i..16 * i + 8] && b[8..] == now[16 * i + 8..16 * i + 16];
  }

  // ------------------------------------------------------------------ every file format encodes the same entries

  predicate IsEncodable(e: Entry, is64: bool) {
    if is64 then -TWO63 <= e.tag < TWO63 && e.value < TWO64 else -TWO31 <= e.tag < TWO31 && e.value < TWO32
  }

  function Ordered(b: seq<Byte>, isLE: bool): (r: seq<Byte>)
    ensures |r| == |b|
  {
    if isLE then b else Reversed(b)
  }

  /** How a linker writes an entry. */
  function Encoded(e: Entry, isLE: bool, is64: bool): (b: seq<Byte>)
    requires IsEncodable(e, is64)
    ensures |b| == if is64 then 16 else 8
  {
    if is64 then
      Ordered(Put64(if e.tag < 0 then e.tag + TWO64 else e.tag), isLE) + Ordered(Put64(e.value), isLE)
    else
      Ordered(Put32(if e.tag < 0 then e.tag + TWO32 else e.tag), isLE) + Ordered(Put32(e.value), isLE)
  }

  /** What a linker writes is what is read. */
  lemma EncodedIsRead(e: Entry, isLE: bool, is64: bool)
    requires IsEncodable(e, is64)
    ensures EntryOf(Encoded(e, isLE, is64), isLE, is64) == e
  {
    hide Get32, Put32, Get64, Put64, Reversed;
    var b := Encoded(e, isLE, is64);
    if is64 {
      var tag := if e.tag < 0 then e.tag + TWO64 else e.tag;
      assert b[..8] == Ordered(Put64(tag), isLE) && b[8..] == Ordered(Put64(e.value), isLE);
      GetPut64(tag);
      GetPut64(e.value);
      ReversedTwice(Put64(tag));
      ReversedTwice(Put64(e.value));
    } else {
      var tag := if e.tag < 0 then e.tag + TWO32 else e.tag;
      assert b[..4] == Ordered(Put32(tag), isLE) && b[4..] == Ordered(Put32(e.value), isLE);
      GetPut32(tag);
      GetPut32(e.value);
      ReversedTwice(Put32(tag));
      ReversedTwice(Put32(e.value));
    }
  }

  predicate AreEncodable(es: seq<Entry>, is64: bool) {
    forall i | 0 <= i < |es| :: IsEncodable(es[i], is64)
  }

  function EncodedAll(es: seq<Entry>, isLE: bool, is64: bool): (b: seq<Byte>)
    requires AreEncodable(es, is64)
    ensures |b| == if is64 then 16 * |es| else 8 * |es|
    decreases |es|
  {
    if |es| == 0 then [] else EncodedAll(es[..|es| - 1], isLE, is64) + Encoded(es[|es| - 1], isLE, is64)
  }

  lemma LastBytes(init: seq<Byte>, last: seq<Byte>, room: seq<Byte>, is64: bool, n: nat)
    requires |init| == EntrySize(is64) * n && |last| == EntrySize(is64)
    ensures EntrySize(is64) * (n + 1) <= |(init + last) + room|
    ensures BytesAt((init + last) + room, is64, n) == last
  {
  }

  lemma LongerEntries(all: seq<Byte>, isLE: bool, is64: bool, es: seq<Entry>, last: Entry)
    requires EntrySize(is64) * (|es| + 1) <= |all| && EntrySize(is64) * |es| <= |all|
    requires Entries(all, isLE, is64, |es|) == es && EntryAt(all, isLE, is64, |es|) == last
    ensures Entries(all, isLE, is64, |es| + 1) == es + [last]
  {
    hide EntryAt, EntrySize;
    forall i | 0 <= i < |es|
      ensures EntryAt(all, isLE, is64, i) == es[i]
    {
      assert Entries(all, isLE, is64, |es|)[i] == EntryAt(all, isLE, is64, i);
    }
    assert Entries(all, isLE, is64, |es| + 1) == es + [last];
  }

  /** The entries of a file of either class and byte order survive: with NormalizeDyn, the array of the host holds the
      entries that were encoded. */
  lemma {:induction false} EncodedEntriesAreRead(es: seq<Entry>, isLE: bool, is64: bool, room: seq<Byte>)
    requires AreEncodable(es, is64)
    ensures Entries(EncodedAll(es, isLE, is64) + room, isLE, is64, |es|) == es
    decreases |es|
  {
    hide EntryOf, Encoded, IsEncodable, BytesAt;
    if |es| != 0 {
      var init, last := es[..|es| - 1], es[|es| - 1];
      assert AreEncodable(init, is64);
      var bytes := Encoded(last, isLE, is64);
      EncodedEntriesAreRead(init, isLE, is64, bytes + room);
      EncodedIsRead(last, isLE, is64);
      var all := EncodedAll(es, isLE, is64) + room;
      assert all == EncodedAll(init, isLE, is64) + (bytes + room);
      LastBytes(EncodedAll(init, isLE, is64), bytes, room, is64, |init|);
      LongerEntries(all, isLE, is64, init, last);
      assert es == init + [last];
    }
  }
}
