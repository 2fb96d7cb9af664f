/** The symbol lookup over both hash tables (DianaElfFile_GetSymbolAddress_Memory): DT_GNU_HASH first, and DT_HASH where
    there is no such table or its chain ended without the name. */
module SysVHash {
  import opened GnuHash
  import opened Wrappers

  /** `chains[i]` is the index of the symbol after symbol i on its chain; 0 ends it. */
  datatype Chains = Chains(buckets: seq<nat>, chains: seq<nat>)

  // ------------------------------------------------------------------ hashing

  /** The top four bits go to bits 4 to 7. */
  function Fold(x: bv32, g: bv32): bv32 {
    if g != 0 then (x ^ (g >> 24)) & !g else x & !g
  }

  function Mix(h: bv32, c: bv8): bv32 {
    var x := (h << 4) + c as bv32;
    Fold(x, x & 0xF000_0000)
  }

  function HashFrom(h: bv32, name: Name): bv32
    decreases |name|
  {
    if |name| == 0 then h else HashFrom(Mix(h, name[0]), name[1..])
  }

  method ComputeHash(name: Name) returns (h: bv32)
    ensures h == HashFrom(0, name)
  {
    h := 0;
    var i := 0;
    while i < |name|
      invariant 0 <= i <= |name|
      invariant HashFrom(h, name[i..]) == HashFrom(0, name)
    {
      assert name[i..][1..] == name[i + 1..];
      h := Mix(h, name[i]);
      i := i + 1;
    }
  }

  function FirstOf(c: Chains, name: Name): nat
    requires |c.buckets| > 0
  {
    c.buckets[HashFrom(0, name) as nat % |c.buckets|]
  }

  // ------------------------------------------------------------------ the walk of a chain

  predicate IsEnd(c: Chains, idx: nat) {
    idx == 0 || |c.chains| <= idx
  }

  /** The walk stops at `idx`: the chain is over, the symbol cannot be read, or it is the one. */
  predicate Stops(c: Chains, symbols: seq<Symbol>, name: Name, idx: nat) {
    IsEnd(c, idx) || |symbols| <= idx || IsHit(symbols[idx], name)
  }

  /** The walk from `idx` stops after `n` steps at the latest. */
  predicate Settles(c: Chains, symbols: seq<Symbol>, name: Name, idx: nat, n: nat)
    decreases n
  {
    Stops(c, symbols, name, idx) || (n != 0 && Settles(c, symbols, name, c.chains[idx], n - 1))
  }

  /** The loop over the chain. */
  function Walk(c: Chains, symbols: seq<Symbol>, name: Name, idx: nat, n: nat): Lookup
    requires Settles(c, symbols, name, idx, n)
    decreases n
  {
    if IsEnd(c, idx) then Exhausted
    else if |symbols| <= idx then Failed
    else if IsHit(symbols[idx], name) then Found(idx)
    else Walk(c, symbols, name, c.chains[idx], n - 1)
  }

  // ------------------------------------------------------------------ when the walk ends

  /** A walk that needs `n` steps goes over `n` symbols, none twice. */
  lemma {:induction false} Visited(c: Chains, symbols: seq<Symbol>, name: Name, idx: nat, n: nat) returns (all: set<nat>)
    requires Settles(c, symbols, name, idx, n) && (n != 0 ==> !Settles(c, symbols, name, idx, n - 1))
    ensures |all| == n && forall i | i in all :: 0 < i < |c.chains| && Settles(c, symbols, name, i, n)
    decreases n
  {
    hide IsHit;
    all := {};
    if n != 0 {
      var later := Visited(c, symbols, name, c.chains[idx], n - 1);
      forall i | i in later ensures Settles(c, symbols, name, i, n) {
        SettlesLater(c, symbols, name, i, n - 1, n);
      }
      assert idx !in later;
      all := later + {idx};
    }
  }

  lemma {:induction false} SettlesLater(c: Chains, symbols: seq<Symbol>, name: Name, idx: nat, m: nat, n: nat)
    requires Settles(c, symbols, name, idx, m) && m <= n
    ensures Settles(c, symbols, name, idx, n)
    decreases m
  {
    hide IsHit;
    if !Stops(c, symbols, name, idx) {
      SettlesLater(c, symbols, name, c.chains[idx], m - 1, n - 1);
    }
  }

  lemma {:induction false} BelowIsSmall(all: set<nat>, n: nat)
    requires forall i | i in all :: i < n
    ensures |all| <= n
    decreases n
  {
    if n != 0 {
      var fewer := all - {n - 1};
      BelowIsSmall(fewer, n - 1);
      assert all <= fewer + {n - 1};
      assert |all| <= |fewer + {n - 1}|;
    } else {
      assert all == {};
    }
  }

  /** A walk that is longer than the table never ends: it goes around in a circle. */
  lemma {:induction false} EndsWithinTable(c: Chains, symbols: seq<Symbol>, name: Name, idx: nat, n: nat)
    requires Settles(c, symbols, name, idx, n)
    ensures Settles(c, symbols, name, idx, |c.chains|)
    decreases n
  {
    hide IsHit;
    if n <= |c.chains| {
      SettlesLater(c, symbols, name, idx, n, |c.chains|);
    } else if Settles(c, symbols, name, idx, n - 1) {
      EndsWithinTable(c, symbols, name, idx, n - 1);
    } else {
      var all := Visited(c, symbols, name, idx, n);
      BelowIsSmall(all, |c.chains|);
    }
  }

  /** A chain of one symbol that is its own successor: the lookup of any other name never returns. */
  lemma {:induction false} CircleNeverEnds(symbols: seq<Symbol>, name: Name, n: nat)
    requires |symbols| == 2 && !IsHit(symbols[1], name)
    ensures !Settles(Chains([1], [0, 1]), symbols, name, 1, n)
  {
    hide IsHit;
    if n != 0 {
      CircleNeverEnds(symbols, name, n - 1);
    }
  }

  /** The walk of DT_HASH from the bucket of the name comes to an end. */
  predicate Ends(c: Chains, symbols: seq<Symbol>, name: Name) {
    |c.buckets| > 0 && Settles(c, symbols, name, FirstOf(c, name), |c.chains|)
  }

  /** The part of the lookup that goes over DT_HASH. */
  function FindSysV(c: Chains, symbols: seq<Symbol>, name: Name): Lookup
    requires Ends(c, symbols, name)
  {
    Walk(c, symbols, name, FirstOf(c, name), |c.chains|)
  }

  method LookupSysV(c: Chains, symbols: seq<Symbol>, name: Name) returns (r: Lookup)
    requires Ends(c, symbols, name)
    ensures r == FindSysV(c, symbols, name)
  {
    hide IsExportedDefinition, Truncated;
    var h := ComputeHash(name);
    var idx: nat := c.buckets[h as nat % |c.buckets|];
    ghost var n: nat := |c.chains|;
    while idx != 0 && idx < |c.chains|
      invariant Settles(c, symbols, name, idx, n) && Walk(c, symbols, name, idx, n) == FindSysV(c, symbols, name)
      decreases n
    {
      if idx >= |symbols| {
        return Failed;
      }
      var symbol := symbols[idx];
      if Truncated(symbol.name) == name && IsExportedDefinition(symbol) && !symbol.hidden {
        return Found(idx);
      }
      idx := c.chains[idx];
      n := n - 1;
    }
    return Exhausted;
  }

  // ------------------------------------------------------------------ well-formed tables

  predicate Reaches(c: Chains, idx: nat, i: nat, n: nat)
    decreases n
  {
    idx == i || (n != 0 && !IsEnd(c, idx) && Reaches(c, c.chains[idx], i, n - 1))
  }

  predicate EndsBy(c: Chains, idx: nat, n: nat)
    decreases n
  {
    IsEnd(c, idx) || (n != 0 && EndsBy(c, c.chains[idx], n - 1))
  }

  /** There is an entry for each symbol, every chain ends, and what dlsym finds is on the chain of its name. */
  ghost predicate IsHashed(c: Chains, symbols: seq<Symbol>) {
    && |c.buckets| > 0 && |c.chains| == |symbols|
    && (forall name: Name :: EndsBy(c, FirstOf(c, name), |c.chains|))
    && (forall i | 0 <= i < |symbols| && IsVisible(symbols[i]) ::
          i != 0 && Reaches(c, FirstOf(c, symbols[i].name), i, |c.chains|))
  }

  lemma {:induction false} EndedSettles(c: Chains, symbols: seq<Symbol>, name: Name, idx: nat, n: nat)
    requires EndsBy(c, idx, n)
    ensures Settles(c, symbols, name, idx, n)
    decreases n
  {
    hide IsHit;
    if !IsEnd(c, idx) && n != 0 {
      EndedSettles(c, symbols, name, c.chains[idx], n - 1);
    }
  }

  /** A walk finds a hit, or passes none. */
  lemma {:induction false} WalkPassesNone(c: Chains, symbols: seq<Symbol>, name: Name, idx: nat, n: nat, i: nat, m: nat)
    requires Settles(c, symbols, name, idx, n) && |c.chains| == |symbols|
    requires Reaches(c, idx, i, m) && 0 < i < |symbols| && IsHit(symbols[i], name)
    ensures Walk(c, symbols, name, idx, n).Found?
    decreases n
  {
    hide IsHit;
    if !Stops(c, symbols, name, idx) {
      WalkPassesNone(c, symbols, name, c.chains[idx], n - 1, i, m - 1);
    }
  }

  lemma {:induction false} WalkHits(c: Chains, symbols: seq<Symbol>, name: Name, idx: nat, n: nat)
    requires Settles(c, symbols, name, idx, n) && |c.chains| == |symbols|
    ensures var r := Walk(c, symbols, name, idx, n);
            r.Exhausted? || (r.Found? && r.index < |symbols| && IsHit(symbols[r.index], name))
    decreases n
  {
    hide IsHit;
    if !Stops(c, symbols, name, idx) {
      WalkHits(c, symbols, name, c.chains[idx], n - 1);
    }
  }

  /** The lookup over DT_HASH ends, and finds a visible symbol of the name exactly when a scan of .dynsym does. */
  lemma SysVAgreesWithScan(c: Chains, symbols: seq<Symbol>, name: Name)
    requires IsHashed(c, symbols) && |name| < COMPARED
    ensures Ends(c, symbols, name)
    ensures var r := FindSysV(c, symbols, name);
            if Scan(symbols, name, 0).Found? then r.Found? && r.index < |symbols| && IsHit(symbols[r.index], name)
            else r.Exhausted?
  {
    hide IsVisible;
    var idx, n := FirstOf(c, name), |c.chains|;
    EndedSettles(c, symbols, name, idx, n);
    WalkHits(c, symbols, name, idx, n);
    var r, s := FindSysV(c, symbols, name), Scan(symbols, name, 0);
    if s.Found? {
      ShortNamesAreCompared(symbols[s.index].name, name);
      WalkPassesNone(c, symbols, name, idx, n, s.index, n);
    } else if r.Found? {
      ShortNamesAreCompared(symbols[r.index].name, name);
      assert false;
    }
  }

  // ------------------------------------------------------------------ both tables

  /** DT_HASH is gone on with when there is no DT_GNU_HASH or its chain ended. When neither has the name the function
      returns the status it starts with, DI_ERROR. */
  function FindSymbol(gnu: Option<Table>, sysv: Option<Chains>, symbols: seq<Symbol>, name: Name): Lookup
    requires gnu.Some? ==> |gnu.value.bloom| > 0 && |gnu.value.buckets| > 0
    requires sysv.Some? ==> Ends(sysv.value, symbols, name)
  {
    var first := if gnu.Some? then Find(gnu.value, symbols, name) else Exhausted;
    var r := if first.Exhausted? && sysv.Some? then FindSysV(sysv.value, symbols, name) else first;
    if r.Exhausted? then Failed else r
  }

  /** DianaElfFile_GetSymbolAddress_Memory */
  method GetSymbolAddress(gnu: Option<Table>, sysv: Option<Chains>, symbols: seq<Symbol>, name: Name) returns (r: Lookup)
    requires gnu.Some? ==> |gnu.value.bloom| > 0 && |gnu.value.buckets| > 0
    requires sysv.Some? ==> Ends(sysv.value, symbols, name)
    ensures r == FindSymbol(gnu, sysv, symbols, name)
  {
    r := Exhausted;
    if gnu.Some? {
      r := LookupGnu(gnu.value, symbols, name);
    }
    if r.Exhausted? && sysv.Some? {
      r := LookupSysV(sysv.value, symbols, name);
    }
    if r.Exhausted? {
      r := Failed;
    }
  }

  ghost predicate IsIndex(gnu: Option<Table>, sysv: Option<Chains>, symbols: seq<Symbol>) {
    && (gnu.Some? || sysv.Some?)
    && (gnu.Some? ==> WellFormed(gnu.value, symbols)) && (sysv.Some? ==> IsHashed(sysv.value, symbols))
  }

  /** Whichever tables a library has, a name is found exactly when .dynsym has a visible symbol of it, and the symbol that
      is found is one; with DT_GNU_HASH it is the first. */
  lemma EitherTableAgreesWithScan(gnu: Option<Table>, sysv: Option<Chains>, symbols: seq<Symbol>, name: Name)
    requires IsIndex(gnu, sysv, symbols) && |name| < COMPARED
    ensures sysv.Some? ==> Ends(sysv.value, symbols, name)
    ensures var r, s := FindSymbol(gnu, sysv, symbols, name), Scan(symbols, name, 0);
            && (r.Found? <==> s.Found?)
            && (r.Found? ==> r.index < |symbols| && IsHit(symbols[r.index], name) && (gnu.Some? ==> r == s))
  {
    hide WellFormed, IsHashed, Ends, FindSysV, Find, Scan;
    if sysv.Some? {
      SysVAgreesWithScan(sysv.value, symbols, name);
    }
    if gnu.Some? {
      WellFormedHasTables(gnu.value, symbols);
      LookupAgreesWithScan(gnu.value, symbols, name);
      var s := Scan(symbols, name, 0);
      if s.Found? {
        ShortNamesAreCompared(symbols[s.index].name, name);
      }
    }
  }

  /** The Bloom filter or the bucket shows that the name is absent. */
  predicate IsMissed(t: Table, name: Name)
    requires |t.bloom| > 0 && |t.buckets| > 0
  {
    !BloomHas(t, Hash(name)) || t.buckets[BucketOf(t, name)] < t.symOffset
  }

  /** An absent name gives DI_NOT_FOUND exactly where the Bloom filter or the bucket of DT_GNU_HASH shows that it is absent;
      where only a chain does, DI_ERROR. */
  lemma AbsentNames(gnu: Option<Table>, sysv: Option<Chains>, symbols: seq<Symbol>, name: Name)
    requires IsIndex(gnu, sysv, symbols) && |name| < COMPARED && Scan(symbols, name, 0).NotFound?
    ensures sysv.Some? ==> Ends(sysv.value, symbols, name)
    ensures gnu.Some? ==> |gnu.value.bloom| > 0 && |gnu.value.buckets| > 0
    ensures FindSymbol(gnu, sysv, symbols, name)
            == if gnu.Some? && IsMissed(gnu.value, name) then NotFound else Failed
  {
    hide WellFormed, IsHashed, Ends, FindSysV, Scan, BloomHas, BucketOf, WalkChain;
    if sysv.Some? {
      SysVAgreesWithScan(sysv.value, symbols, name);
    }
    if gnu.Some? {
      WellFormedHasTables(gnu.value, symbols);
      if !IsMissed(gnu.value, name) {
        AbsentIsExhausted(gnu.value, symbols, name);
      }
    }
  }

  lemma AbsentIsExhausted(t: Table, symbols: seq<Symbol>, name: Name)
    requires WellFormed(t, symbols) && |name| < COMPARED && Scan(symbols, name, 0).NotFound? && !IsMissed(t, name)
    ensures WalkChain(t, symbols, name, t.buckets[BucketOf(t, name)]) == Exhausted
  {
    hide BloomHas, BucketOf, Hash;
    var idx := t.buckets[BucketOf(t, name)];
    WalkFindsTheScan(t, symbols, name, idx);
    ScanSkips(symbols, name, 0, idx);
  }

  /** A library with one function and a full Bloom filter: every other name gives DI_ERROR. */
  lemma AbsentNameFails(only: Name, name: Name)
    requires name != only && |name| < COMPARED
    ensures var (t, symbols) := Single(only);
            WellFormed(t, symbols) && Scan(symbols, name, 0) == NotFound && FindSymbol(Some(t), None, symbols, name) == Failed
  {
    hide BloomHas, BucketOf;
    var (t, symbols) := Single(only);
    SingleIsWellFormed(only);
    SingleHas(only, name);
    assert Scan(symbols, name, 2) == NotFound;
    assert Scan(symbols, name, 1) == NotFound;
    AbsentNames(Some(t), None, symbols, name);
  }

  lemma WellFormedHasTables(t: Table, symbols: seq<Symbol>)
    requires WellFormed(t, symbols)
    ensures |t.bloom| > 0 && |t.buckets| > 0
  {
  }
}
