/** The symbol lookup over DT_GNU_HASH (in DianaElfFile_GetSymbolAddress_Memory) and the size of .dynsym
    (DianaElf_CountDynSymbols): the hash table is an index of .dynsym, both answer as a scan of it would. */
module GnuHash {
  import opened Words
  import ElfDynamic

  type Name = seq<bv8>

  datatype Symbol = Symbol(name: Name, bind: nat, kind: nat, section: nat, value: nat, hidden: bool)

  /** `chain` has an entry for each symbol from `symOffset` on. */
  datatype Table = Table(symOffset: nat, bloom: seq<bv64>, buckets: seq<nat>, chain: seq<nat>)

  /** `Exhausted`: the chain of the name ended without it. */
  datatype Lookup = Found(index: nat) | NotFound | Exhausted | Failed

  datatype Count = Count(n: nat) | InvalidInput | ReadFailed

  const GLOBAL := 1
  const WEAK := 2
  const OBJECT := 1
  const FUNC := 2
  const IFUNC := 10
  const MAX_DYN_SYMBOLS := 0x10_0000

  /** What is compared of a name: the name buffer has 256 bytes, the last is 0. */
  const COMPARED := 255

  // ------------------------------------------------------------------ hashing

  /** One step of the hash, in 32 bits. */
  function Mix(h: Word32, c: bv8): Word32 {
    (h * 33 + c as int) % TWO32
  }

  function HashFrom(h: Word32, name: Name): Word32
    decreases |name|
  {
    if |name| == 0 then h else HashFrom(Mix(h, name[0]), name[1..])
  }

  /** The hash of a name, as the linker computes it. */
  function Hash(name: Name): Word32 {
    HashFrom(5381, name)
  }

  method ComputeHash(name: Name) returns (h: Word32)
    ensures h == Hash(name)
  {
    hide Mix;
    h := 5381;
    var i := 0;
    while i < |name|
      invariant 0 <= i <= |name|
      invariant HashFrom(h, name[i..]) == Hash(name)
    {
      assert name[i..][1..] == name[i + 1..];
      h := Mix(h, name[i]);
      i := i + 1;
    }
  }

  function BucketOf(t: Table, name: Name): (b: nat)
    requires |t.buckets| > 0
    ensures b < |t.buckets|
  {
    Hash(name) % |t.buckets|
  }

  function BloomBit(h: Word32): bv64 {
    (1 as bv64) << (h % 64)
  }

  predicate BloomHas(t: Table, h: Word32)
    requires |t.bloom| > 0
  {
    t.bloom[h / 64 % |t.bloom|] & BloomBit(h) != 0
  }

  predicate IsChainEnd(value: nat) {
    value % 2 == 1
  }

  // ------------------------------------------------------------------ the symbols

  predicate IsExportedDefinition(s: Symbol) {
    && s.section != 0 && s.value != 0
    && (s.bind == GLOBAL || s.bind == WEAK) && (s.kind == FUNC || s.kind == OBJECT || s.kind == IFUNC)
  }

  /** What dlsym finds: a definition of the default version. */
  predicate IsVisible(s: Symbol) {
    IsExportedDefinition(s) && !s.hidden
  }

  function Truncated(name: Name): Name {
    if |name| <= COMPARED then name else name[..COMPARED]
  }

  predicate IsHit(s: Symbol, name: Name) {
    Truncated(s.name) == name && IsVisible(s)
  }

  /** The reference: the first visible symbol of the name in .dynsym. */
  function Scan(symbols: seq<Symbol>, name: Name, i: nat): (r: Lookup)
    requires i <= |symbols|
    ensures r.Found? || r.NotFound?
    ensures r.Found? ==> i <= r.index < |symbols| && symbols[r.index].name == name && IsVisible(symbols[r.index])
    ensures forall k | i <= k < |symbols| && (r.Found? ==> k < r.index) ::
              !(symbols[k].name == name && IsVisible(symbols[k]))
    decreases |symbols| - i
  {
    if i == |symbols| then NotFound
    else if symbols[i].name == name && IsVisible(symbols[i]) then Found(i)
    else Scan(symbols, name, i + 1)
  }

  // ------------------------------------------------------------------ the lookup

  function WalkChain(t: Table, symbols: seq<Symbol>, name: Name, idx: nat): Lookup
    requires t.symOffset <= idx
    decreases |symbols| - idx
  {
    if idx - t.symOffset >= |t.chain| || idx >= |symbols| then Failed
    else if IsHit(symbols[idx], name) then Found(idx)
    else if IsChainEnd(t.chain[idx - t.symOffset]) then Exhausted
    else WalkChain(t, symbols, name, idx + 1)
  }

  /** The part of the lookup that goes over DT_GNU_HASH. */
  function Find(t: Table, symbols: seq<Symbol>, name: Name): Lookup
    requires |t.bloom| > 0 && |t.buckets| > 0
  {
    var idx := t.buckets[BucketOf(t, name)];
    if !BloomHas(t, Hash(name)) || idx < t.symOffset then NotFound else WalkChain(t, symbols, name, idx)
  }

  /** The part of DianaElfFile_GetSymbolAddress_Memory that goes over DT_GNU_HASH. */
  method LookupGnu(t: Table, symbols: seq<Symbol>, name: Name) returns (r: Lookup)
    requires |t.bloom| > 0 && |t.buckets| > 0
    ensures r == Find(t, symbols, name)
  {
    hide BloomHas, BucketOf, IsExportedDefinition, Truncated, IsChainEnd;
    var h := ComputeHash(name);
    if !BloomHas(t, h) {
      return NotFound;
    }
    var idx := t.buckets[BucketOf(t, name)];
    if idx < t.symOffset {
      return NotFound;
    }
    while true
      invariant t.symOffset <= idx
      invariant WalkChain(t, symbols, name, idx) == Find(t, symbols, name)
      decreases |symbols| - idx
    {
      if idx - t.symOffset >= |t.chain| || idx >= |symbols| {
        return Failed;
      }
      var value, symbol := t.chain[idx - t.symOffset], symbols[idx];
      if Truncated(symbol.name) == name && IsExportedDefinition(symbol) && !symbol.hidden {
        return Found(idx);
      }
      if IsChainEnd(value) {
        return Exhausted;
      }
      idx := idx + 1;
    }
  }

  // ------------------------------------------------------------------ well-formed tables

  predicate IsLastOfBucket(t: Table, symbols: seq<Symbol>, i: nat)
    requires |t.buckets| > 0 && i < |symbols|
  {
    i + 1 < |symbols| ==> BucketOf(t, symbols[i].name) != BucketOf(t, symbols[i + 1].name)
  }

  /** The buckets are in order; a bucket says where its first symbol is, the chain where its last is. */
  ghost predicate IsChained(t: Table, symbols: seq<Symbol>) {
    && |t.buckets| > 0 && t.symOffset <= |symbols| && |t.chain| == |symbols| - t.symOffset
    && (forall i, j | t.symOffset <= i <= j < |symbols| ::
          BucketOf(t, symbols[i].name) <= BucketOf(t, symbols[j].name))
    && (forall b | 0 <= b < |t.buckets| && t.buckets[b] >= t.symOffset ::
          t.buckets[b] < |symbols| && BucketOf(t, symbols[t.buckets[b]].name) == b)
    && (forall i | t.symOffset <= i < |symbols| :: t.symOffset <= t.buckets[BucketOf(t, symbols[i].name)] <= i)
    && (forall i | t.symOffset <= i < |symbols| ::
          IsLastOfBucket(t, symbols, i) <==> IsChainEnd(t.chain[i - t.symOffset]))
  }

  ghost predicate IsBloomed(t: Table, symbols: seq<Symbol>) {
    && |t.bloom| > 0
    && (forall i | t.symOffset <= i < |symbols| :: BloomHas(t, Hash(symbols[i].name)))
  }

  /** What dlsym finds is in the hash table. */
  ghost predicate IsCovered(t: Table, symbols: seq<Symbol>) {
    forall i | 0 <= i < |symbols| && i < t.symOffset :: !IsVisible(symbols[i])
  }

  ghost predicate WellFormed(t: Table, symbols: seq<Symbol>) {
    IsChained(t, symbols) && IsBloomed(t, symbols) && IsCovered(t, symbols)
  }

  // ------------------------------------------------------------------ the lookup agrees with the scan

  lemma ShortNamesAreCompared(a: Name, b: Name)
    requires |b| < COMPARED
    ensures Truncated(a) == b <==> a == b
  {
  }

  /** From a symbol of the bucket of the name, the chain finds what a scan finds. */
  lemma {:induction false} WalkFindsTheScan(t: Table, symbols: seq<Symbol>, name: Name, idx: nat)
    requires IsChained(t, symbols) && |name| < COMPARED
    requires t.symOffset <= idx < |symbols| && BucketOf(t, symbols[idx].name) == BucketOf(t, name)
    ensures var r := Scan(symbols, name, idx);
            WalkChain(t, symbols, name, idx) == if r.Found? then r else Exhausted
    decreases |symbols| - idx
  {
    hide BucketOf, IsVisible;
    ShortNamesAreCompared(symbols[idx].name, name);
    assert IsLastOfBucket(t, symbols, idx) <==> IsChainEnd(t.chain[idx - t.symOffset]);
    if !IsHit(symbols[idx], name) {
      if IsChainEnd(t.chain[idx - t.symOffset]) {
        NothingAfterBucket(t, symbols, name, idx);
      } else {
        WalkFindsTheScan(t, symbols, name, idx + 1);
      }
    }
  }

  lemma NothingAfterBucket(t: Table, symbols: seq<Symbol>, name: Name, idx: nat)
    requires IsChained(t, symbols) && t.symOffset <= idx < |symbols| && IsChainEnd(t.chain[idx - t.symOffset])
    requires BucketOf(t, symbols[idx].name) == BucketOf(t, name)
    ensures Scan(symbols, name, idx + 1) == NotFound
  {
    hide BucketOf, IsVisible;
    forall k | idx < k < |symbols|
      ensures symbols[k].name != name
    {
      OtherBucket(t, symbols, idx, k);
    }
    ScanSkips(symbols, name, idx + 1, |symbols|);
  }

  lemma OtherBucket(t: Table, symbols: seq<Symbol>, i: nat, j: nat)
    requires IsChained(t, symbols) && t.symOffset <= i < j < |symbols| && IsChainEnd(t.chain[i - t.symOffset])
    ensures BucketOf(t, symbols[i].name) != BucketOf(t, symbols[j].name)
  {
    hide BucketOf;
    assert IsLastOfBucket(t, symbols, i);
    assert BucketOf(t, symbols[i].name) <= BucketOf(t, symbols[i + 1].name) <= BucketOf(t, symbols[j].name);
  }

  /** A scan may skip the symbols that are not hits. */
  lemma {:induction false} ScanSkips(symbols: seq<Symbol>, name: Name, i: nat, j: nat)
    requires i <= j <= |symbols|
    requires forall k | i <= k < j :: !(symbols[k].name == name && IsVisible(symbols[k]))
    ensures Scan(symbols, name, i) == Scan(symbols, name, j)
    decreases j - i
  {
    if i < j {
      ScanSkips(symbols, name, i + 1, j);
    }
  }

  /** The hash table is an index: for every well-formed table and every name of less than 255 bytes, the lookup
      finds the symbol that a scan of .dynsym finds, and none exactly when there is none. */
  lemma LookupAgreesWithScan(t: Table, symbols: seq<Symbol>, name: Name)
    requires WellFormed(t, symbols) && |name| < COMPARED
    ensures var r := Scan(symbols, name, 0);
            if r.Found? then Find(t, symbols, name) == r else !Find(t, symbols, name).Found?
  {
    var r := Scan(symbols, name, 0);
    if r.Found? {
      IsIndexed(t, symbols, name, r.index);
    }
    var idx := t.buckets[BucketOf(t, name)];
    if BloomHas(t, Hash(name)) && t.symOffset <= idx {
      WalkFindsTheScan(t, symbols, name, idx);
      forall k | 0 <= k < idx
        ensures !(symbols[k].name == name && IsVisible(symbols[k]))
      {
        NotBeforeBucket(t, symbols, name, k);
      }
      ScanSkips(symbols, name, 0, idx);
    }
  }

  lemma IsIndexed(t: Table, symbols: seq<Symbol>, name: Name, i: nat)
    requires WellFormed(t, symbols) && i < |symbols| && symbols[i].name == name && IsVisible(symbols[i])
    ensures t.symOffset <= i && BloomHas(t, Hash(name)) && t.symOffset <= t.buckets[BucketOf(t, name)] <= i
  {
    hide BloomHas, Hash;
  }

  lemma NotBeforeBucket(t: Table, symbols: seq<Symbol>, name: Name, k: nat)
    requires WellFormed(t, symbols) && k < |symbols| && k < t.buckets[BucketOf(t, name)]
    ensures !(symbols[k].name == name && IsVisible(symbols[k]))
  {
    hide BloomHas, BucketOf, IsVisible;
  }

  /** Agreement for a name, whatever the library. */
  ghost predicate AlwaysAgrees(name: Name) {
    forall t: Table, symbols: seq<Symbol> | WellFormed(t, symbols) ::
      var r := Scan(symbols, name, 0);
      if r.Found? then Find(t, symbols, name) == r else !Find(t, symbols, name).Found?
  }

  /** A library with one exported function. */
  function Single(name: Name): (Table, seq<Symbol>) {
    (Table(1, [0xFFFF_FFFF_FFFF_FFFF], [1], [1]),
     [Symbol([], 0, 0, 0, 0, false), Symbol(name, GLOBAL, FUNC, 1, 1, false)])
  }

  lemma SingleHas(name: Name, n: Name)
    ensures BloomHas(Single(name).0, Hash(n)) && BucketOf(Single(name).0, n) == 0
  {
    hide Hash;
    var t, h := Single(name).0, Hash(n);
    assert h / 64 % 1 == 0;
    assert BloomBit(h) != 0;
    assert 0xFFFF_FFFF_FFFF_FFFF & BloomBit(h) == BloomBit(h);
  }

  lemma SingleIsWellFormed(name: Name)
    ensures WellFormed(Single(name).0, Single(name).1)
  {
    hide BucketOf, BloomHas;
    var (t, symbols) := Single(name);
    SingleHas(name, name);
    assert IsLastOfBucket(t, symbols, 1);
    assert IsChained(t, symbols);
  }

  /** A name of 255 bytes or more is compared with the first 255 bytes of the name of the symbol: 256 bytes are
      never found, and 255 bytes find a longer name. */
  lemma LongNamesFail(name: Name)
    requires |name| >= COMPARED
    ensures !AlwaysAgrees(name)
  {
    hide BucketOf, BloomHas;
    var n := if |name| == COMPARED then name + [1] else name;
    var (t, symbols) := Single(n);
    SingleIsWellFormed(n);
    SingleHas(n, name);
    if |name| == COMPARED {
      assert Truncated(n) == name;
    }
    assert Scan(symbols, name, 0).Found? <==> n == name;
  }

  /** The lookup is a scan for exactly the names of less than 255 bytes. */
  lemma LookupIsExact(name: Name)
    ensures AlwaysAgrees(name) <==> |name| < 255
  {
    if |name| < COMPARED {
      forall t: Table, symbols: seq<Symbol> | WellFormed(t, symbols)
        ensures var r := Scan(symbols, name, 0);
                if r.Found? then Find(t, symbols, name) == r else !Find(t, symbols, name).Found?
      {
        LookupAgreesWithScan(t, symbols, name);
      }
    } else {
      LongNamesFail(name);
    }
  }

  // ------------------------------------------------------------------ the number of symbols

  ghost predicate InLastBucket(t: Table, symbols: seq<Symbol>, i: nat)
    requires |t.buckets| > 0
  {
    i < |symbols| && BucketOf(t, symbols[i].name) == BucketOf(t, symbols[|symbols| - 1].name)
  }

  lemma HashedHasBucket(t: Table, symbols: seq<Symbol>)
    requires IsChained(t, symbols)
    ensures t.symOffset < |symbols| ==> exists b | 0 <= b < |t.buckets| :: t.symOffset <= t.buckets[b]
  {
    hide Hash;
    if t.symOffset < |symbols| {
      assert t.symOffset <= t.buckets[BucketOf(t, symbols[t.symOffset].name)];
    }
  }

  lemma HighestBucket(t: Table, symbols: seq<Symbol>, b: nat)
    requires IsChained(t, symbols) && b < |t.buckets| && t.symOffset <= t.buckets[b]
    requires forall c | 0 <= c < |t.buckets| :: t.buckets[c] <= t.buckets[b]
    ensures InLastBucket(t, symbols, t.buckets[b])
  {
    hide Hash;
    var last := |symbols| - 1;
    var c := BucketOf(t, symbols[last].name);
    assert t.symOffset <= t.buckets[c] <= t.buckets[b];
    assert BucketOf(t, symbols[t.buckets[c]].name) <= BucketOf(t, symbols[t.buckets[b]].name);
  }

  /** The last bucket ends with the last symbol. */
  lemma LastBucketEnds(t: Table, symbols: seq<Symbol>, i: nat)
    requires IsChained(t, symbols) && t.symOffset <= i && InLastBucket(t, symbols, i)
    ensures IsChainEnd(t.chain[i - t.symOffset]) <==> i + 1 == |symbols|
    ensures i + 1 < |symbols| ==> InLastBucket(t, symbols, i + 1)
  {
    hide BucketOf;
    if i + 1 < |symbols| {
      assert BucketOf(t, symbols[i].name) <= BucketOf(t, symbols[i + 1].name)
          <= BucketOf(t, symbols[|symbols| - 1].name);
    }
    assert IsLastOfBucket(t, symbols, i) <==> i + 1 == |symbols|;
  }

  /** A word of the file. */
  function WordAt(image: seq<Byte>, at: nat, isLE: bool): Word32
    requires at + 4 <= |image|
  {
    ElfDynamic.Rd32(image[at..at + 4], isLE)
  }

  /** The words of the Bloom filter have the size of the class. */
  function BucketsAt(at: nat, bloomSize: nat, is64: bool): nat {
    at + 16 + bloomSize * (if is64 then 8 else 4)
  }

  function HighestOf(image: seq<Byte>, at: nat, n: nat, isLE: bool): nat
    requires at + 4 * n <= |image|
  {
    if n == 0 then 0
    else
      var highest, idx := HighestOf(image, at, n - 1, isLE), WordAt(image, at + 4 * (n - 1), isLE);
      if idx > highest then idx else highest
  }

  /** The walk to the end of a chain. */
  function ChainEndOf(image: seq<Byte>, at: nat, symOffset: nat, idx: nat, isLE: bool): Count
    requires symOffset <= idx
    decreases MAX_DYN_SYMBOLS - idx
  {
    var place := at + 4 * (idx - symOffset);
    if idx >= MAX_DYN_SYMBOLS then InvalidInput
    else if place + 4 > |image| then ReadFailed
    else if IsChainEnd(WordAt(image, place, isLE)) then Count(idx + 1)
    else ChainEndOf(image, at, symOffset, idx + 1, isLE)
  }

  /** The count that the bytes at the address of DT_GNU_HASH give, whatever they are. */
  function CountOf(image: seq<Byte>, at: nat, isLE: bool, is64: bool): Count {
    if at + 16 > |image| then ReadFailed
    else
      var nbuckets, symOffset, bloomSize := WordAt(image, at, isLE), WordAt(image, at + 4, isLE), WordAt(image, at + 8, isLE);
      var buckets := BucketsAt(at, bloomSize, is64);
      if nbuckets == 0 || nbuckets > MAX_DYN_SYMBOLS || bloomSize > MAX_DYN_SYMBOLS || symOffset > MAX_DYN_SYMBOLS
      then InvalidInput
      else if buckets + 4 * nbuckets > |image| then ReadFailed
      else
        var highest := HighestOf(image, buckets, nbuckets, isLE);
        if highest < symOffset then Count(symOffset)
        else ChainEndOf(image, buckets + 4 * nbuckets, symOffset, highest, isLE)
  }

  /** DianaElf_CountDynSymbols for DT_GNU_HASH. */
  method CountDynSymbols(image: seq<Byte>, at: nat, isLE: bool, is64: bool) returns (c: Count)
    ensures c == CountOf(image, at, isLE, is64)
  {
    hide WordAt, HighestOf, ChainEndOf;
    if at + 16 > |image| {
      return ReadFailed;
    }
    var nbuckets, symOffset, bloomSize := WordAt(image, at, isLE), WordAt(image, at + 4, isLE), WordAt(image, at + 8, isLE);
    if !(nbuckets != 0 && nbuckets <= MAX_DYN_SYMBOLS && bloomSize <= MAX_DYN_SYMBOLS && symOffset <= MAX_DYN_SYMBOLS) {
      return InvalidInput;
    }
    var buckets := BucketsAt(at, bloomSize, is64);
    if buckets + 4 * nbuckets > |image| {
      return ReadFailed;
    }
    var maxIdx := HighestBucketOf(image, buckets, nbuckets, isLE);
    if maxIdx < symOffset {
      return Count(symOffset);
    }
    c := WalkToEnd(image, buckets + 4 * nbuckets, symOffset, maxIdx, isLE);
  }

  /** The loop over the buckets. */
  method HighestBucketOf(image: seq<Byte>, buckets: nat, nbuckets: nat, isLE: bool) returns (maxIdx: nat)
    requires buckets + 4 * nbuckets <= |image|
    ensures maxIdx == HighestOf(image, buckets, nbuckets, isLE)
  {
    hide WordAt;
    maxIdx := 0;
    var i: nat := 0;
    while i < nbuckets
      invariant i <= nbuckets && maxIdx == HighestOf(image, buckets, i, isLE)
    {
      var idx := WordAt(image, buckets + 4 * i, isLE);
      if idx > maxIdx {
        maxIdx := idx;
      }
      i := i + 1;
    }
  }

  /** The loop over the last chain. */
  method WalkToEnd(image: seq<Byte>, chains: nat, symOffset: nat, highest: nat, isLE: bool) returns (c: Count)
    requires symOffset <= highest
    ensures c == ChainEndOf(image, chains, symOffset, highest, isLE)
  {
    hide WordAt, IsChainEnd;
    var maxIdx := highest;
    while true
      invariant symOffset <= maxIdx
      invariant ChainEndOf(image, chains, symOffset, maxIdx, isLE) == ChainEndOf(image, chains, symOffset, highest, isLE)
      decreases MAX_DYN_SYMBOLS - maxIdx
    {
      if maxIdx >= MAX_DYN_SYMBOLS {
        return InvalidInput;
      }
      var place := chains + 4 * (maxIdx - symOffset);
      if place + 4 > |image| {
        return ReadFailed;
      }
      if IsChainEnd(WordAt(image, place, isLE)) {
        return Count(maxIdx + 1);
      }
      maxIdx := maxIdx + 1;
    }
  }

  /** The table as a linker writes it for the class and the byte order: four words, the Bloom words of the size of the
      class, a word for each bucket, and a word for each symbol that is hashed. */
  ghost predicate IsStored(image: seq<Byte>, at: nat, isLE: bool, is64: bool, t: Table) {
    var buckets := at + 16 + (if is64 then 8 * |t.bloom| else 4 * |t.bloom|);
    var chains := buckets + 4 * |t.buckets|;
    && chains + 4 * |t.chain| <= |image|
    && WordAt(image, at, isLE) == |t.buckets| && WordAt(image, at + 4, isLE) == t.symOffset
    && WordAt(image, at + 8, isLE) == |t.bloom|
    && (forall b | 0 <= b < |t.buckets| :: t.buckets[b] == WordAt(image, buckets + 4 * b, isLE))
    && (forall k | 0 <= k < |t.chain| :: t.chain[k] == WordAt(image, chains + 4 * k, isLE))
  }

  lemma {:induction false} HighestIs(image: seq<Byte>, at: nat, isLE: bool, buckets: seq<nat>, n: nat) returns (b: nat)
    requires at + 4 * |buckets| <= |image| && n <= |buckets|
    requires forall k | 0 <= k < |buckets| :: buckets[k] == WordAt(image, at + 4 * k, isLE)
    ensures forall k | 0 <= k < n :: buckets[k] <= HighestOf(image, at, n, isLE)
    ensures n != 0 ==> b < n && buckets[b] == HighestOf(image, at, n, isLE)
  {
    hide WordAt;
    b := 0;
    if n != 0 {
      b := HighestIs(image, at, isLE, buckets, n - 1);
      if n == 1 || buckets[n - 1] > HighestOf(image, at, n - 1, isLE) {
        b := n - 1;
      }
    }
  }

  lemma {:induction false} LastChainEnds(image: seq<Byte>, at: nat, isLE: bool, t: Table, symbols: seq<Symbol>, idx: nat)
    requires IsChained(t, symbols) && t.symOffset <= idx && InLastBucket(t, symbols, idx)
    requires at + 4 * |t.chain| <= |image|
    requires forall k | 0 <= k < |t.chain| :: t.chain[k] == WordAt(image, at + 4 * k, isLE)
    ensures ChainEndOf(image, at, t.symOffset, idx, isLE) ==
            if |symbols| <= MAX_DYN_SYMBOLS then Count(|symbols|) else InvalidInput
    decreases |symbols| - idx
  {
    hide WordAt, IsChainEnd, BucketOf;
    LastBucketEnds(t, symbols, idx);
    assert t.chain[idx - t.symOffset] == WordAt(image, at + 4 * (idx - t.symOffset), isLE);
    if idx + 1 < |symbols| {
      LastChainEnds(image, at, isLE, t, symbols, idx + 1);
    }
  }

  /** A table that is an index of .dynsym tells how long .dynsym is, up to the limit, in either class and byte order. */
  lemma CountIsSize(image: seq<Byte>, at: nat, isLE: bool, is64: bool, t: Table, symbols: seq<Symbol>)
    requires IsChained(t, symbols) && IsStored(image, at, isLE, is64, t)
    ensures CountOf(image, at, isLE, is64) ==
            if |t.buckets| <= 0x10_0000 && |t.bloom| <= 0x10_0000 && |symbols| <= 0x10_0000
            then Count(|symbols|) else InvalidInput
  {
    hide WordAt, BucketOf, InLastBucket, IsChainEnd, ChainEndOf, HighestOf;
    var buckets := BucketsAt(at, |t.bloom|, is64);
    if |t.buckets| <= MAX_DYN_SYMBOLS && |t.bloom| <= MAX_DYN_SYMBOLS && t.symOffset <= MAX_DYN_SYMBOLS {
      var b := HighestIs(image, buckets, isLE, t.buckets, |t.buckets|);
      HashedHasBucket(t, symbols);
      if t.symOffset <= t.buckets[b] {
        HighestBucket(t, symbols, b);
        LastChainEnds(image, buckets + 4 * |t.buckets|, isLE, t, symbols, t.buckets[b]);
      }
    }
  }
}
