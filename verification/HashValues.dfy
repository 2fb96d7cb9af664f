/** What the hash functions of ELF are: the polynomial of DT_GNU_HASH and the folded shift of DT_HASH, with their values at
    known names, and which word, bit and bucket a hash selects. */
module HashValues {
  import opened Words
  import opened GnuHash
  import SysVHash

  // ------------------------------------------------------------------ DT_GNU_HASH

  function Power(b: nat, n: nat): nat {
    if n == 0 then 1 else b * Power(b, n - 1)
  }

  /** The bytes of the name from `i` on, each times 33 to the number of bytes after it. */
  function Weighted(name: Name, i: nat): nat
    requires i <= |name|
    decreases |name| - i
  {
    if i == |name| then 0 else name[i] as int * Power(33, |name| - 1 - i) + Weighted(name, i + 1)
  }

  lemma {:induction false} HashFromIsPolynomial(h: Word32, name: Name, i: nat)
    requires i <= |name|
    ensures HashFrom(h, name[i..]) == (h * Power(33, |name| - i) + Weighted(name, i)) % TWO32
    decreases |name| - i
  {
    if i == |name| {
      assert Power(33, 0) == 1;
    } else {
      var c, p, w := name[i] as int, Power(33, |name| - i - 1), Weighted(name, i + 1);
      assert name[i..][0] == name[i] && name[i..][1..] == name[i + 1..];
      var m := Mix(h, name[i]);
      HashFromIsPolynomial(m, name, i + 1);
      assert Power(33, |name| - i) == 33 * p && Weighted(name, i) == c * p + w;
      StepsReduce(h * 33 + c, p, w);
      Distribute(h, c, p, w);
    }
  }

  lemma Distribute(h: nat, c: nat, p: nat, w: nat)
    ensures (h * 33 + c) * p + w == h * (33 * p) + (c * p + w)
  {
  }

  /** Reducing modulo 2^32 at each step is reducing at the end. */
  lemma StepsReduce(x: nat, p: nat, w: nat)
    ensures (x % TWO32 * p + w) % TWO32 == (x * p + w) % TWO32
  {
    var q, r := x / TWO32, x % TWO32;
    assert x == TWO32 * q + r;
    assert x * p + w == TWO32 * (q * p) + (r * p + w) by {
      Times(q, r, p);
    }
    Multiples(q * p, r * p + w);
  }

  lemma Times(q: nat, r: nat, p: nat)
    ensures (TWO32 * q + r) * p == TWO32 * (q * p) + r * p
  {
  }

  lemma Multiples(q: nat, x: nat)
    ensures (TWO32 * q + x) % TWO32 == x % TWO32
  {
  }

  /** The hash is the polynomial of the bytes at 33, from 5381 on, modulo 2^32. */
  lemma HashIsPolynomial(name: Name)
    ensures Hash(name) == (5381 * Power(33, |name|) + Weighted(name, 0)) % TWO32
  {
    assert name[0..] == name;
    HashFromIsPolynomial(5381, name, 0);
  }

  /** "printf" */
  const PRINTF: Name := [0x70, 0x72, 0x69, 0x6E, 0x74, 0x66]

  lemma GnuStep(h: Word32, name: Name, next: Word32)
    requires name != [] && (h * 33 + name[0] as int) % 0x1_0000_0000 == next
    ensures HashFrom(h, name) == HashFrom(next, name[1..])
  {
  }

  /** The value that the linkers store for printf. */
  lemma GnuHashOfPrintf()
    ensures Hash(PRINTF) == 0x156B2BB8 && Hash([]) == 5381
  {
    assert HashFrom(0x156B2BB8, []) == 0x156B2BB8;
    hide HashFrom;
    GnuStep(5381, PRINTF, 0x2B615);
    assert PRINTF[1..] == [0x72, 0x69, 0x6E, 0x74, 0x66];
    GnuStep(0x2B615, [0x72, 0x69, 0x6E, 0x74, 0x66], 0x597927);
    assert [0x72 as bv8, 0x69, 0x6E, 0x74, 0x66][1..] == [0x69, 0x6E, 0x74, 0x66];
    GnuStep(0x597927, [0x69, 0x6E, 0x74, 0x66], 0xB889E70);
    assert [0x69 as bv8, 0x6E, 0x74, 0x66][1..] == [0x6E, 0x74, 0x66];
    GnuStep(0xB889E70, [0x6E, 0x74, 0x66], 0x7C9C6CDE);
    assert [0x6E as bv8, 0x74, 0x66][1..] == [0x74, 0x66];
    GnuStep(0x7C9C6CDE, [0x74, 0x66], 0x102A0912);
    assert [0x74 as bv8, 0x66][1..] == [0x66];
    GnuStep(0x102A0912, [0x66], 0x156B2BB8);
  }

  lemma BucketExactly(t: Table, name: Name)
    requires |t.buckets| > 0
    ensures BucketOf(t, name) == (5381 * Power(33, |name|) + Weighted(name, 0)) % TWO32 % |t.buckets|
  {
    HashIsPolynomial(name);
    hide Hash, Weighted;
  }

  /** Bit h % 64 of word h / 64 decides, in 64-bit words; there are 64 different bits. */
  lemma BloomExactly(t: Table, h: Word32)
    requires |t.bloom| > 0
    ensures BloomHas(t, h) <==> t.bloom[h / 64 % |t.bloom|] & ((1 as bv64) << (h % 64)) != 0
    ensures BloomBit(0) == 1 && BloomBit(1) == 2 && BloomBit(31) == 0x8000_0000 && BloomBit(32) == 0x1_0000_0000
    ensures BloomBit(63) == 0x8000_0000_0000_0000 && BloomBit(64) == 1
  {
  }

  /** The lowest bit of a chain entry ends the chain; the others are those of the hash. */
  lemma LowBitEnds(v: nat)
    ensures IsChainEnd(2 * v + 1) && !IsChainEnd(2 * v)
  {
  }

  /** Which symbols a library exports: defined, global or weak, a function, an object or an indirect function, and of the
      default version. */
  lemma VisibleExactly(s: Symbol)
    ensures IsVisible(s) <==>
            s.section != 0 && s.value != 0 && s.bind in {1, 2} && s.kind in {1, 2, 10} && !s.hidden
  {
  }

  /** The table a linker writes for a library with one function, "a": its hash is 177670, which is bit 6 of the word. */
  function OneTable(): (Table, seq<Symbol>) {
    (Table(1, [0x40], [1], [177671]), [Symbol([], 0, 0, 0, 0, false), Symbol([0x61], 1, 2, 1, 0x1000, false)])
  }

  lemma OneIsFound()
    ensures var (t, symbols) := OneTable();
            && Hash([0x61]) == 177670 && Find(t, symbols, [0x61]) == Found(1) && Find(t, symbols, [0x62]) == NotFound
  {
    var (t, symbols) := OneTable();
    GnuStep(5381, [0x61], 177670);
    GnuStep(5381, [0x62], 177671);
    assert 177670 % 64 == 6 && 177671 % 64 == 7 && 177670 / 64 % 1 == 0;
    assert BloomBit(177670) == 0x40 && BloomBit(177671) == 0x80;
    assert IsHit(symbols[1], [0x61]);
  }

  /** "qsort" is 272418814: bit 62 of word 4256543, which is the second of two, and bucket 1 of 3. */
  const QSORT: Name := [0x71, 0x73, 0x6F, 0x72, 0x74]

  lemma GnuHashOfQsort()
    ensures Hash(QSORT) == 272418814
  {
    assert HashFrom(272418814, []) == 272418814;
    hide HashFrom;
    GnuStep(5381, QSORT, 0x2B616);
    assert QSORT[1..] == [0x73, 0x6F, 0x72, 0x74];
    GnuStep(0x2B616, [0x73, 0x6F, 0x72, 0x74], 0x597949);
    assert [0x73 as bv8, 0x6F, 0x72, 0x74][1..] == [0x6F, 0x72, 0x74];
    GnuStep(0x597949, [0x6F, 0x72, 0x74], 0xB88A2D8);
    assert [0x6F as bv8, 0x72, 0x74][1..] == [0x72, 0x74];
    GnuStep(0xB88A2D8, [0x72, 0x74], 0x7C9CFE4A);
    assert [0x72 as bv8, 0x74][1..] == [0x74];
    GnuStep(0x7C9CFE4A, [0x74], 272418814);
  }

  /** Two Bloom words and three buckets: the bit of qsort alone lets it through, and its bucket leads to it. */
  lemma QsortIsFound(symbols: seq<Symbol>)
    requires |symbols| == 2 && symbols[1] == Symbol(QSORT, 2, 1, 7, 0x2000, false)
    ensures Find(Table(1, [0, 0x4000_0000_0000_0000], [0, 1, 0], [1]), symbols, QSORT) == Found(1)
    ensures Find(Table(1, [0xFFFF_FFFF_FFFF_FFFF, 0xBFFF_FFFF_FFFF_FFFF], [1, 1, 1], [1]), symbols, QSORT) == NotFound
  {
    GnuHashOfQsort();
    hide Hash;
    assert 272418814 % 64 == 62 && 272418814 / 64 == 4256543;
    assert BloomBit(272418814) == 0x4000_0000_0000_0000;
    assert IsHit(symbols[1], QSORT);
  }

  /** What the header alone decides: a table of no buckets, or of more than 2^20 buckets, Bloom words or symbols that are not
      hashed, is invalid, and one that does not fit cannot be read. */
  lemma HeaderDecides(image: seq<Byte>, at: nat, isLE: bool, is64: bool)
    requires at + 16 <= |image|
    ensures var c := CountOf(image, at, isLE, is64);
            var buckets, first, bloom := WordAt(image, at, isLE), WordAt(image, at + 4, isLE), WordAt(image, at + 8, isLE);
            var limit := 1048576;
            if buckets == 0 || limit < buckets || limit < first || limit < bloom then c == InvalidInput
            else |image| < at + 16 + bloom * (if is64 then 8 else 4) + 4 * buckets ==> c == ReadFailed
  {
    hide WordAt, HighestOf, ChainEndOf;
  }

  // ------------------------------------------------------------------ DT_HASH

  /** `r` is `x` without its top four bits, which are added without carry to bits 4 to 7. */
  predicate IsFold(r: bv32, x: bv32) {
    r & 0xF000_0000 == 0 && r & 0x0FFF_FF0F == x & 0x0FFF_FF0F && r & 0xF0 == (x & 0xF0) ^ ((x >> 24) & 0xF0)
  }

  lemma NothingFolded(x: bv32)
    ensures x & !0 == (x ^ (0 >> 24)) & !0
  {
  }

  lemma FoldIs(x: bv32, g: bv32)
    ensures SysVHash.Fold(x, g) == (x ^ (g >> 24)) & !g
  {
    if g == 0 {
      NothingFolded(x);
    }
  }

  lemma LowBits(x: bv32, g: bv32)
    requires g == x & 0xF000_0000
    ensures ((x ^ (g >> 24)) & !g) & 0x0FFF_FF0F == x & 0x0FFF_FF0F
  {
  }

  lemma TopBits(x: bv32, g: bv32)
    requires g == x & 0xF000_0000
    ensures ((x ^ (g >> 24)) & !g) & 0xF000_0000 == 0
  {
  }

  lemma FoldedBits(x: bv32, g: bv32)
    requires g == x & 0xF000_0000
    ensures ((x ^ (g >> 24)) & !g) & 0xF0 == (x & 0xF0) ^ ((x >> 24) & 0xF0)
  {
  }

  lemma FoldsTo(x: bv32, g: bv32, r: bv32)
    requires g == x & 0xF000_0000 && r == (x ^ (g >> 24)) & !g
    ensures IsFold(r, x)
  {
    LowBits(x, g);
    TopBits(x, g);
    FoldedBits(x, g);
  }

  lemma MixIs(h: bv32, c: bv8, x: bv32, g: bv32)
    requires x == (h << 4) + c as bv32 && g == x & 0xF000_0000
    ensures SysVHash.Mix(h, c) == (x ^ (g >> 24)) & !g
  {
    FoldIs(x, g);
    hide SysVHash.Fold;
  }

  /** A step shifts by four bits, adds the byte, and folds what is shifted out. */
  lemma SysVFolds(h: bv32, c: bv8)
    ensures IsFold(SysVHash.Mix(h, c), (h << 4) + c as bv32)
  {
    var x := (h << 4) + c as bv32;
    var g := x & 0xF000_0000;
    MixIs(h, c, x, g);
    hide SysVHash.Mix, IsFold;
    FoldsTo(x, g, SysVHash.Mix(h, c));
  }

  lemma SysVStep(h: bv32, name: Name, next: bv32)
    requires name != [] && SysVHash.Mix(h, name[0]) == next
    ensures SysVHash.HashFrom(h, name) == SysVHash.HashFrom(next, name[1..])
  {
  }

  lemma SysVHashOfPrintf()
    ensures SysVHash.HashFrom(0, PRINTF) == 0x077905A6
  {
    assert SysVHash.HashFrom(0x77905A6, []) == 0x77905A6;
    hide SysVHash.HashFrom;
    SysVStep(0, PRINTF, 0x70);
    assert PRINTF[1..] == [0x72, 0x69, 0x6E, 0x74, 0x66];
    SysVStep(0x70, [0x72, 0x69, 0x6E, 0x74, 0x66], 0x772);
    assert [0x72 as bv8, 0x69, 0x6E, 0x74, 0x66][1..] == [0x69, 0x6E, 0x74, 0x66];
    SysVStep(0x772, [0x69, 0x6E, 0x74, 0x66], 0x7789);
    assert [0x69 as bv8, 0x6E, 0x74, 0x66][1..] == [0x6E, 0x74, 0x66];
    SysVStep(0x7789, [0x6E, 0x74, 0x66], 0x778FE);
    assert [0x6E as bv8, 0x74, 0x66][1..] == [0x74, 0x66];
    SysVStep(0x778FE, [0x74, 0x66], 0x779054);
    assert [0x74 as bv8, 0x66][1..] == [0x66];
    SysVStep(0x779054, [0x66], 0x77905A6);
  }

  /** "snprintf" is long enough to be folded, twice. */
  lemma SysVHashOfSnprintf()
    ensures SysVHash.HashFrom(0, [0x73, 0x6E, 0x70, 0x72, 0x69, 0x6E, 0x74, 0x66]) == 0x5790206
  {
    assert SysVHash.HashFrom(0x5790206, []) == 0x5790206;
    hide SysVHash.HashFrom;
    SysVStep(0, [0x73, 0x6E, 0x70, 0x72, 0x69, 0x6E, 0x74, 0x66], 0x73);
    assert [0x73 as bv8, 0x6E, 0x70, 0x72, 0x69, 0x6E, 0x74, 0x66][1..] == [0x6E, 0x70, 0x72, 0x69, 0x6E, 0x74, 0x66];
    SysVStep(0x73, [0x6E, 0x70, 0x72, 0x69, 0x6E, 0x74, 0x66], 0x79E);
    assert [0x6E as bv8, 0x70, 0x72, 0x69, 0x6E, 0x74, 0x66][1..] == [0x70, 0x72, 0x69, 0x6E, 0x74, 0x66];
    SysVStep(0x79E, [0x70, 0x72, 0x69, 0x6E, 0x74, 0x66], 0x7A50);
    assert [0x70 as bv8, 0x72, 0x69, 0x6E, 0x74, 0x66][1..] == [0x72, 0x69, 0x6E, 0x74, 0x66];
    SysVStep(0x7A50, [0x72, 0x69, 0x6E, 0x74, 0x66], 0x7A572);
    assert [0x72 as bv8, 0x69, 0x6E, 0x74, 0x66][1..] == [0x69, 0x6E, 0x74, 0x66];
    SysVStep(0x7A572, [0x69, 0x6E, 0x74, 0x66], 0x7A5789);
    assert [0x69 as bv8, 0x6E, 0x74, 0x66][1..] == [0x6E, 0x74, 0x66];
    SysVStep(0x7A5789, [0x6E, 0x74, 0x66], 0x7A578FE);
    assert [0x6E as bv8, 0x74, 0x66][1..] == [0x74, 0x66];
    SysVStep(0x7A578FE, [0x74, 0x66], 0xA579024);
    assert [0x74 as bv8, 0x66][1..] == [0x66];
    SysVStep(0xA579024, [0x66], 0x5790206);
  }

  /** A table of DT_HASH with two buckets for printf, which is even, and its chain of two. */
  lemma SysVIsFound(symbols: seq<Symbol>)
    requires |symbols| == 3 && IsHit(symbols[1], PRINTF) && !IsHit(symbols[2], PRINTF)
    ensures var c := SysVHash.Chains([2, 0], [0, 0, 1]);
            SysVHash.Ends(c, symbols, PRINTF) && SysVHash.FindSysV(c, symbols, PRINTF) == Found(1)
  {
    SysVHashOfPrintf();
    var c := SysVHash.Chains([2, 0], [0, 0, 1]);
    assert SysVHash.FirstOf(c, PRINTF) == 2;
    assert SysVHash.Settles(c, symbols, PRINTF, 1, 2);
    hide SysVHash.HashFrom, IsHit;
  }
}
