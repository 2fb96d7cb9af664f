/** What the bytes before an opcode mean to the parser: which are prefixes, which encodings they select, and which of them
    is tried first as a part of the opcode. */
module X86Prefixes {
  import opened Wrappers
  import opened X86Model
  import opened X86Tiling
  import opened X86Offset

  // ------------------------------------------------------------------ the prefixes of an instruction

  /** LOCK, the repeats, the segments, 66 and 67. */
  const LEGACY: set<byte> := {0x26, 0x2E, 0x36, 0x3E, 0x64, 0x65, 0x66, 0x67, 0xF0, 0xF2, 0xF3}

  /** Byte `k` is before the opcode: a legacy prefix, or a REX prefix that has no effect as a legacy one follows. */
  predicate IsLead(amd64: bool, bytes: seq<byte>, k: nat)
    requires k < |bytes|
  {
    bytes[k] in LEGACY || (amd64 && bytes[k] / 16 == 4 && k + 1 < |bytes| && bytes[k + 1] in LEGACY)
  }

  /** The first `n` bytes are before the opcode, and the next one is not. */
  predicate Leads(amd64: bool, bytes: seq<byte>, n: nat) {
    n < |bytes| && (forall k | 0 <= k < n :: IsLead(amd64, bytes, k)) && !IsLead(amd64, bytes, n)
  }

  /** `prefixes` has each legacy prefix of `bytes` once, in the order in which they come last. */
  ghost predicate IsOrderOf(prefixes: seq<byte>, bytes: seq<byte>) {
    && (forall b: byte :: b in prefixes <==> b in LEGACY && b in bytes)
    && (forall i, j | 0 <= i < j < |prefixes| :: prefixes[i] != prefixes[j] && ComesBefore(prefixes[i], prefixes[j], bytes))
  }

  /** The last `b` is before the last `c`. */
  ghost predicate ComesBefore(b: byte, c: byte, bytes: seq<byte>) {
    exists k | 0 <= k < |bytes| :: bytes[k] == c && b !in bytes[k..]
  }

  lemma LeadExactly(amd64: bool, data: byte)
    ensures IsLegacyPrefix(data) <==> data in LEGACY
    ensures IsRex(amd64, data) <==> amd64 && data / 16 == 4
  {
  }

  ghost predicate AreInOrder(prefixes: seq<byte>, b: byte, c: byte) {
    exists m, n :: 0 <= m < n < |prefixes| && prefixes[m] == b && prefixes[n] == c
  }

  lemma {:induction false} WithoutExactly(prefixes: seq<byte>, b: byte)
    requires forall i, j | 0 <= i < j < |prefixes| :: prefixes[i] != prefixes[j]
    ensures var r := Without(prefixes, b);
            && (forall c: byte :: c in r <==> c in prefixes && c != b)
            && (forall i, j | 0 <= i < j < |r| :: r[i] != r[j])
            && (forall i, j | 0 <= i < j < |r| :: AreInOrder(prefixes, r[i], r[j]))
  {
    if |prefixes| != 0 {
      var rest := prefixes[1..];
      WithoutExactly(rest, b);
      var r := Without(prefixes, b);
      if prefixes[0] == b {
        assert r == rest;
        forall i, j | 0 <= i < j < |r|
          ensures AreInOrder(prefixes, r[i], r[j])
        {
          assert prefixes[i + 1] == r[i] && prefixes[j + 1] == r[j];
        }
      } else {
        var q := Without(rest, b);
        assert r == [prefixes[0]] + q;
        forall i, j | 0 <= i < j < |r|
          ensures AreInOrder(prefixes, r[i], r[j])
        {
          if i == 0 {
            assert q[j - 1] in rest;
            var n :| 0 <= n < |rest| && rest[n] == q[j - 1];
            assert prefixes[0] == r[0] && prefixes[n + 1] == r[j];
          } else {
            assert AreInOrder(rest, q[i - 1], q[j - 1]);
            var m, n :| 0 <= m < n < |rest| && rest[m] == q[i - 1] && rest[n] == q[j - 1];
            assert prefixes[m + 1] == r[i] && prefixes[n + 1] == r[j];
          }
        }
      }
    }
  }

  lemma ComesBeforeMore(b: byte, c: byte, bytes: seq<byte>, data: byte)
    requires ComesBefore(b, c, bytes) && data != b
    ensures ComesBefore(b, c, bytes + [data])
  {
    var k :| 0 <= k < |bytes| && bytes[k] == c && b !in bytes[k..];
    assert (bytes + [data])[k..] == bytes[k..] + [data];
  }

  lemma ComesLast(b: byte, bytes: seq<byte>, data: byte)
    requires data != b
    ensures ComesBefore(b, data, bytes + [data])
  {
    assert (bytes + [data])[|bytes|] == data && (bytes + [data])[|bytes|..] == [data];
  }

  /** A prefix that comes again moves to the end. */
  lemma OrderGrows(prefixes: seq<byte>, bytes: seq<byte>, data: byte)
    requires IsOrderOf(prefixes, bytes)
    ensures data in LEGACY ==> IsOrderOf(Without(prefixes, data) + [data], bytes + [data])
    ensures data !in LEGACY ==> IsOrderOf(prefixes, bytes + [data])
  {
    if data in LEGACY {
      WithoutExactly(prefixes, data);
      var q := Without(prefixes, data);
      var r := q + [data];
      forall i, j | 0 <= i < j < |r|
        ensures r[i] != r[j] && ComesBefore(r[i], r[j], bytes + [data])
      {
        assert r[i] == q[i] && q[i] in q;
        if j == |q| {
          ComesLast(r[i], bytes, data);
        } else {
          assert AreInOrder(prefixes, q[i], q[j]);
          var m, n :| 0 <= m < n < |prefixes| && prefixes[m] == q[i] && prefixes[n] == q[j];
          ComesBeforeMore(r[i], r[j], bytes, data);
        }
      }
    } else {
      forall i, j | 0 <= i < j < |prefixes|
        ensures prefixes[i] != prefixes[j] && ComesBefore(prefixes[i], prefixes[j], bytes + [data])
      {
        assert prefixes[i] in prefixes;
        ComesBeforeMore(prefixes[i], prefixes[j], bytes, data);
      }
    }
  }

  // ------------------------------------------------------------------ reading them

  /** All are 66 or 67. */
  ghost predicate AreSizes(bytes: seq<byte>) {
    forall b | b in bytes :: b == 0x66 || b == 0x67
  }

  lemma SizesGrow(bytes: seq<byte>, data: byte)
    ensures AreSizes(bytes + [data]) <==> AreSizes(bytes) && (data == 0x66 || data == 0x67)
  {
    assert data in bytes + [data] && forall b | b in bytes :: b in bytes + [data];
  }

  /** What one byte does on a memory stream. */
  lemma TakesLead(amd64: bool, s: State, data: byte)
    requires IsReady(s) && IsMemory(s) && |s.prefixes| < MAX_PREFIXES
    ensures var t := TakePrefixOf(amd64, s, data);
            && t.status == Success && IsMemory(t.state) && Rest(t.state) == Rest(s)
            && t.again == IsLead(amd64, [data] + Rest(s), 0)
            && t.state.prefixes == if data in LEGACY then Without(s.prefixes, data) + [data] else s.prefixes
  {
    TakePrefixKeepsRest(amd64, s, data);
    ReadCacheOfMemory(s);
    LeadExactly(amd64, data);
    if Rest(s) != [] {
      LeadExactly(amd64, Rest(s)[0]);
    }
    hide ReadCacheOf, IsLegacyPrefix, IsRex, Rest, Without;
  }

  ghost predicate AreRead(amd64: bool, s: State, past: seq<byte>, n: nat, r: Prefixed)
    requires n < |Rest(s)|
  {
    var rest := Rest(s);
    && r.status == Success && r.data == rest[n] && Rest(r.state) == rest[n + 1..] && IsReady(r.state) && IsMemory(r.state)
    && (r.nop <==> rest[n] == 0x90 && AreSizes(past + rest[..n]))
    && IsOrderOf(r.state.prefixes, past + rest[..n])
  }

  lemma {:induction false} PrefixesRead(amd64: bool, s: State, past: seq<byte>, nopFlags: bool, n: nat)
    requires IsReady(s) && IsMemory(s) && IsOrderOf(s.prefixes, past) && |s.prefixes| <= |past|
    requires Leads(amd64, Rest(s), n) && |past| + n <= 14 && nopFlags == !AreSizes(past)
    ensures AreRead(amd64, s, past, n, PrefixesOf(amd64, s, |past|, nopFlags))
    decreases n
  {
    hide ReadCacheOf, TakePrefixOf, PrefixesOf, Eaten, Rest, IsOrderOf, AreSizes, Without;
    PrefixesStep(amd64, s, |past|, nopFlags);
    ReadCacheOfMemory(s);
    ReadCacheKeepsRest(s, false);
    var c := ReadCacheOf(s, false).1;
    var rest := Rest(s);
    var data, next := rest[0], Eaten(c);
    EatenReads(c);
    FirstOf(rest);
    if n == 0 {
      assert rest[..0] == [] && past + [] == past;
      EmptyAreSizes(past);
      if |s.prefixes| < MAX_PREFIXES {
        TakesLead(amd64, next, data);
      } else {
        StopsAt(amd64, next, data);
      }
    } else {
      assert IsLead(amd64, rest, 0);
      TakesLead(amd64, next, data);
      OrderGrows(s.prefixes, past, data);
      SizesGrow(past, data);
      var t := TakePrefixOf(amd64, next, data).state;
      LeadsOn(amd64, rest, n);
      assert past + rest[..n] == (past + [data]) + rest[1..][..n - 1];
      assert rest[1..][n - 1] == rest[n] && rest[1..][n..] == rest[n + 1..];
      PrefixesRead(amd64, t, past + [data], nopFlags || data !in {0x66, 0x67}, n - 1);
    }
  }

  lemma EmptyAreSizes(past: seq<byte>)
    ensures past == [] ==> AreSizes(past)
  {
  }

  lemma EatenReads(s: State)
    requires IsReady(s) && s.window != []
    ensures IsReady(Eaten(s)) && Rest(Eaten(s)) == Rest(s)[1..] && Eaten(s).prefixes == s.prefixes
    ensures IsMemory(s) ==> IsMemory(Eaten(s))
    ensures s.window[0] == Rest(s)[0]
  {
    EatenIsTail(s);
    EatenIsReady(s);
  }

  lemma FirstOf(rest: seq<byte>)
    requires rest != []
    ensures rest == [rest[0]] + rest[1..]
  {
  }

  /** The table of prefixes is full only for a byte that is none. */
  lemma StopsAt(amd64: bool, s: State, data: byte)
    requires IsReady(s) && IsMemory(s) && !IsLead(amd64, [data] + Rest(s), 0)
    ensures var t := TakePrefixOf(amd64, s, data);
            t.status == Success && !t.again && IsMemory(t.state) && Rest(t.state) == Rest(s) && t.state.prefixes == s.prefixes
  {
    TakePrefixKeepsRest(amd64, s, data);
    ReadCacheOfMemory(s);
    LeadExactly(amd64, data);
    if Rest(s) != [] {
      LeadExactly(amd64, Rest(s)[0]);
    }
    hide ReadCacheOf, IsLegacyPrefix, IsRex, Rest;
  }

  lemma LeadsOn(amd64: bool, rest: seq<byte>, n: nat)
    requires Leads(amd64, rest, n) && 0 < n
    ensures Leads(amd64, rest[1..], n - 1)
  {
    forall k | 0 <= k < n
      ensures k < |rest[1..]| && IsLead(amd64, rest, k + 1) == IsLead(amd64, rest[1..], k)
    {
    }
  }

  /** More than 14 bytes before the opcode are no instruction. */
  lemma {:induction false} TooManyAreRead(amd64: bool, s: State, past: seq<byte>, nopFlags: bool, n: nat)
    requires IsReady(s) && IsMemory(s) && IsOrderOf(s.prefixes, past) && |s.prefixes| <= |past| <= 15
    requires 14 < |past| + n && n < |Rest(s)| && (forall k | 0 <= k < n :: IsLead(amd64, Rest(s), k))
    requires nopFlags == !AreSizes(past)
    ensures PrefixesOf(amd64, s, |past|, nopFlags).status == Error
    decreases n
  {
    hide ReadCacheOf, TakePrefixOf, PrefixesOf, Eaten, Rest, IsOrderOf, AreSizes, Without;
    if MAX_PREFIXES < |past| {
      TooManyPrefixes(amd64, s, |past|, nopFlags);
    } else {
      PrefixesStep(amd64, s, |past|, nopFlags);
      ReadCacheOfMemory(s);
      ReadCacheKeepsRest(s, false);
      var c := ReadCacheOf(s, false).1;
      var rest := Rest(s);
      var data, next := rest[0], Eaten(c);
      EatenReads(c);
      FirstOf(rest);
      assert IsLead(amd64, rest, 0) && IsLead(amd64, [data] + rest[1..], 0);
      hide IsLead;
      if |s.prefixes| < MAX_PREFIXES {
        TakesLead(amd64, next, data);
        OrderGrows(s.prefixes, past, data);
        SizesGrow(past, data);
        var t := TakePrefixOf(amd64, next, data).state;
        LeadsOfRest(amd64, rest, n);
        TooManyAreRead(amd64, t, past + [data], nopFlags || data !in {0x66, 0x67}, n - 1);
      } else {
        FewPrefixes(s.prefixes, past);
      }
    }
  }

  lemma LeadsOfRest(amd64: bool, rest: seq<byte>, n: nat)
    requires 0 < n < |rest| && forall k | 0 <= k < n :: IsLead(amd64, rest, k)
    ensures n - 1 < |rest[1..]| && forall k | 0 <= k < n - 1 :: IsLead(amd64, rest[1..], k)
  {
    forall k | 0 <= k < n - 1
      ensures IsLead(amd64, rest[1..], k)
    {
      assert IsLead(amd64, rest, k + 1);
    }
  }

  /** There are only 11 legacy prefixes. */
  lemma FewPrefixes(prefixes: seq<byte>, bytes: seq<byte>)
    requires IsOrderOf(prefixes, bytes)
    ensures |prefixes| <= 11
  {
    var all := set k | 0 <= k < |prefixes| :: prefixes[k];
    DistinctSize(prefixes);
    assert all <= LEGACY;
    SubsetSize(all, LEGACY);
    assert |LEGACY| == 11;
  }

  lemma {:induction false} DistinctSize(s: seq<byte>)
    requires forall i, j | 0 <= i < j < |s| :: s[i] != s[j]
    ensures |set k | 0 <= k < |s| :: s[k]| == |s|
  {
    if |s| != 0 {
      var last := |s| - 1;
      DistinctSize(s[..last]);
      var before := set k | 0 <= k < last :: s[..last][k];
      assert (set k | 0 <= k < |s| :: s[k]) == before + {s[last]};
    }
  }

  lemma SubsetSize(a: set<byte>, b: set<byte>)
    requires a <= b
    ensures |a| <= |b|
  {
    assert b == a + (b - a);
  }

  // ------------------------------------------------------------------ an instruction of a memory stream

  /** What PreparedOf has read before it looks at the opcode. */
  ghost predicate IsBefore(amd64: bool, s: State, n: nat) {
    IsReady(s) && IsMemory(s) && Leads(amd64, Rest(s), n) && n <= 14
  }

  lemma PrefixesAreRead(amd64: bool, s: State, n: nat)
    requires IsBefore(amd64, s, n)
    ensures AreRead(amd64, s, [], n, PrefixesOf(amd64, s.(prefixes := []), 0, false))
  {
    var t := s.(prefixes := []);
    PrefixesKeepRest(s, []);
    assert IsOrderOf([], []) && AreSizes([]);
    PrefixesRead(amd64, t, [], false, n);
    hide PrefixesOf;
  }

  lemma {:induction false} WithoutAbsent(prefixes: seq<byte>, b: byte)
    requires b !in prefixes
    ensures Without(prefixes, b) == prefixes
  {
    if |prefixes| != 0 {
      WithoutAbsent(prefixes[1..], b);
    }
  }

  /** A REX prefix joins the others, if something follows it. */
  lemma RexReads(amd64: bool, s: State, data: byte)
    requires IsReady(s) && IsMemory(s) && |s.prefixes| < MAX_PREFIXES && forall b | b in s.prefixes :: b in LEGACY
    ensures var r := RexOf(amd64, s, data);
            var isRex := amd64 && data / 16 == 4;
            && r.status == (if isRex && Rest(s) == [] then End else Success)
            && r.first == (if isRex then None else Some(data)) && r.rex == (if isRex then data else 0)
            && r.state.prefixes == (if isRex then s.prefixes + [data] else s.prefixes) && Rest(r.state) == Rest(s)
            && r.state.at == RESERVED && Fits(r.state) && IsMemory(r.state)
            && (Rest(s) != [] ==> r.state.window != [] && r.state.window[0] == Rest(s)[0])
  {
    LeadExactly(amd64, data);
    RexKeepsRest(amd64, s, data);
    if IsRex(amd64, data) {
      assert data !in LEGACY;
      WithoutAbsent(s.prefixes, data);
      PrefixesKeepRest(s, s.prefixes + [data]);
      RefillOfMemory(s.(prefixes := s.prefixes + [data]));
    } else {
      RefillOfMemory(s);
    }
    hide ReadCacheOf, IsRex, Rest, Without;
  }

  /** How an instruction is prepared once its prefixes are read. */
  lemma PreparedAfter(d: Decoder, amd64: bool, s: State, n: nat)
    requires IsBefore(amd64, s, n)
    ensures var t := PrefixesOf(amd64, s.(prefixes := []), 0, false);
            var r := RexOf(amd64, t.state, Rest(s)[n]);
            && AreRead(amd64, s, [], n, t) && |t.state.prefixes| <= 11 && IsOrderOf(t.state.prefixes, Rest(s)[..n])
            && (r.status == Success && LastIndex(t.state.prefixes).Some? ==> LastIndex(t.state.prefixes).value < |r.state.prefixes|)
            && PreparedOf(d, amd64, s) ==
               if t.nop then Finished(Outcome(Success, false, [], t.state))
               else if r.status != Success then Finished(Outcome(r.status, false, [], r.state))
               else OpcodeOf(d, amd64, r.state, r.first, r.rex, LastIndex(t.state.prefixes))
  {
    PrefixesAreRead(amd64, s, n);
    var t := PrefixesOf(amd64, s.(prefixes := []), 0, false);
    assert [] + Rest(s)[..n] == Rest(s)[..n];
    FewPrefixes(t.state.prefixes, Rest(s)[..n]);
    LastIndexStays(amd64, t.state, t.data);
    hide PrefixesOf, RexOf, OpcodeOf, Rest, IsOrderOf, Leads;
  }

  // ------------------------------------------------------------------ what is special

  /** 90 is nop whatever is before it, but not with F3: that is pause. */
  lemma NopIsRead(d: Decoder, amd64: bool, s: State, n: nat)
    requires IsBefore(amd64, s, n) && Rest(s)[n] == 0x90 && 0xF3 !in Rest(s)[..n]
    ensures var p := PreparedOf(d, amd64, s);
            p.Finished? && p.outcome.status == Success && !p.outcome.broken && Rest(p.outcome.state) == Rest(s)[n + 1..]
  {
    PreparedAfter(d, amd64, s, n);
    var t := PrefixesOf(amd64, s.(prefixes := []), 0, false);
    LegacyOnly(t.state.prefixes, Rest(s)[..n]);
    RexReads(amd64, t.state, 0x90);
    var r := RexOf(amd64, t.state, 0x90);
    OpcodeNop(d, amd64, r.state, LastIndex(t.state.prefixes));
    hide PrefixesOf, RexOf, PreparedOf, Leads, Rest, IsOrderOf, AreSizes, OpcodeOf, IsLead;
  }

  lemma OpcodeNop(d: Decoder, amd64: bool, s: State, last: Option<nat>)
    requires Fits(s) && s.at == RESERVED && 0xF3 !in s.prefixes && (last.Some? ==> last.value < |s.prefixes|)
    ensures OpcodeOf(d, amd64, s, Some(0x90), 0, last) == Finished(Outcome(Success, false, [], s))
  {
    hide EvexOf, VexOf, ParseVirtualOf, Tries;
  }

  lemma LegacyOnly(prefixes: seq<byte>, bytes: seq<byte>)
    requires IsOrderOf(prefixes, bytes)
    ensures forall b | b in prefixes :: b in LEGACY && b in bytes
    ensures forall b | b in LEGACY && b in bytes :: b in prefixes
  {
  }

  /** After REX, 90 is nop if REX.B is clear and there is no F3, and xchg otherwise: the tables are tried. */
  lemma RexNop(d: Decoder, s: State, n: nat)
    requires IsBefore(true, s, n) && Rest(s)[n] / 16 == 4 && n + 1 < |Rest(s)| && Rest(s)[n + 1] == 0x90
    ensures var p := PreparedOf(d, true, s);
            if Rest(s)[n] % 2 == 0 && 0xF3 !in Rest(s)[..n] then
              p.Finished? && p.outcome.status == Success && !p.outcome.broken && Rest(p.outcome.state) == Rest(s)[n + 2..]
            else p.Trying? && p.first == None && Rest(p.state) == Rest(s)[n + 1..]
  {
    PreparedAfter(d, true, s, n);
    var t := PrefixesOf(true, s.(prefixes := []), 0, false);
    LegacyOnly(t.state.prefixes, Rest(s)[..n]);
    RexReads(true, t.state, Rest(s)[n]);
    var r := RexOf(true, t.state, Rest(s)[n]);
    OpcodeRexNop(d, r.state, Rest(s)[n], LastIndex(t.state.prefixes));
    hide PrefixesOf, RexOf, PreparedOf, Leads, Rest, IsOrderOf, AreSizes, OpcodeOf, IsLead;
  }

  lemma OpcodeRexNop(d: Decoder, s: State, rex: byte, last: Option<nat>)
    requires Fits(s) && s.at == RESERVED && s.window != [] && s.window[0] == 0x90 && (last.Some? ==> last.value < |s.prefixes|)
    ensures var p := OpcodeOf(d, true, s, None, rex, last);
            if rex % 2 == 0 && 0xF3 !in s.prefixes then
              p == Finished(Outcome(Success, false, [], Eaten(s))) && Rest(Eaten(s)) == Rest(s)[1..]
            else p.Trying? && p.first == None && p.state == s
  {
    EatenIsTail(s);
    RexBit(rex);
    hide EvexOf, VexOf, ParseVirtualOf, Tries, Bit, Eaten, Rest;
  }

  lemma RexBit(b: byte)
    ensures Bit(b, 0) == b % 2
  {
  }

  /** REX right before VEX or EVEX is no instruction. */
  lemma RexBeforeWide(d: Decoder, s: State, n: nat)
    requires IsBefore(true, s, n) && Rest(s)[n] / 16 == 4 && n + 1 < |Rest(s)| && Rest(s)[n + 1] in {0x62, 0xC4, 0xC5}
    ensures ParseExOf(d, true, s).status == Error
  {
    PreparedAfter(d, true, s, n);
    var t := PrefixesOf(true, s.(prefixes := []), 0, false);
    LegacyOnly(t.state.prefixes, Rest(s)[..n]);
    RexReads(true, t.state, Rest(s)[n]);
    hide PrefixesOf, RexOf, PreparedOf, Leads, Rest, IsOrderOf, AreSizes, EvexOf, VexOf, ParseVirtualOf, Tries;
  }

  /** In 64-bit mode 66, F2, F3 and LOCK are no prefixes of VEX and EVEX. */
  lemma PrefixBeforeWide(d: Decoder, s: State, n: nat)
    requires IsBefore(true, s, n) && Rest(s)[n] in {0x62, 0xC4, 0xC5}
    requires 0x66 in Rest(s)[..n] || 0xF0 in Rest(s)[..n] || 0xF2 in Rest(s)[..n] || 0xF3 in Rest(s)[..n]
    ensures ParseExOf(d, true, s).status != Success
  {
    PreparedAfter(d, true, s, n);
    var t := PrefixesOf(true, s.(prefixes := []), 0, false);
    LegacyOnly(t.state.prefixes, Rest(s)[..n]);
    RexReads(true, t.state, Rest(s)[n]);
    var r := RexOf(true, t.state, Rest(s)[n]);
    OpcodeWide(d, r.state, Rest(s)[n], LastIndex(t.state.prefixes));
    hide PrefixesOf, RexOf, PreparedOf, Leads, Rest, IsOrderOf, AreSizes, OpcodeOf, IsLead;
  }

  lemma OpcodeWide(d: Decoder, s: State, data: byte, last: Option<nat>)
    requires Fits(s) && s.at == RESERVED && data in {0x62, 0xC4, 0xC5} && (last.Some? ==> last.value < |s.prefixes|)
    requires 0x66 in s.prefixes || 0xF0 in s.prefixes || 0xF2 in s.prefixes || 0xF3 in s.prefixes
    ensures var p := OpcodeOf(d, true, s, Some(data), 0, last); p.Finished? && p.outcome.status != Success
  {
    WideIsFound(s, data);
    hide EvexOf, VexOf, AttemptOf, Tries;
  }

  /** In 64-bit mode C4, C5 and 62 are nothing but VEX and EVEX. */
  lemma WideIsFound(s: State, data: byte)
    requires Fits(s) && s.at == RESERVED && data in {0x62, 0xC4, 0xC5}
    ensures var w := if data == 0x62 then EvexOf(true, s) else VexOf(true, s, data);
            (w.status == Success ==> w.found) && w.state.prefixes == s.prefixes
  {
    hide FillOf, VirtualOf, Rest;
  }

  /** An instruction has at most 15 bytes: that is the one reason for which a match that is whole is none. */
  lemma LimitExactly(d: Decoder, amd64: bool, s: State)
    requires IsReady(s)
    ensures var o, p := ParseExOf(d, amd64, s), ParseOf(d, amd64, s);
            o.status == Success && !o.broken ==> (p.status == Success <==> |Rest(s)| <= |Rest(o.state)| + 15)
  {
    ParseExLeavesOff(d, amd64, s);
    hide ParseExOf;
  }

  // ------------------------------------------------------------------ which prefix is tried first

  /** Any other opcode is tried with the tables, behind everything that is before it. */
  lemma OpcodeIsTried(d: Decoder, amd64: bool, s: State, n: nat)
    requires IsBefore(amd64, s, n) && Rest(s)[n] !in {0x62, 0x90, 0xC4, 0xC5} && !(amd64 && Rest(s)[n] / 16 == 4)
    ensures var p := PreparedOf(d, amd64, s);
            && p.Trying? && p.first == Some(Rest(s)[n]) && Rest(p.state) == Rest(s)[n + 1..]
            && IsOrderOf(p.state.prefixes, Rest(s)[..n]) && p.tries == Tries(p.state.prefixes, LastIndex(p.state.prefixes))
  {
    PreparedAfter(d, amd64, s, n);
    var t := PrefixesOf(amd64, s.(prefixes := []), 0, false);
    LegacyOnly(t.state.prefixes, Rest(s)[..n]);
    RexReads(amd64, t.state, Rest(s)[n]);
    hide PrefixesOf, RexOf, PreparedOf, Leads, Rest, IsOrderOf, AreSizes, EvexOf, VexOf, ParseVirtualOf, Tries;
  }

  /** F2 or F3, whichever comes last, is tried before 66, 66 before the last prefix, and no prefix after all of them. */
  lemma TriesInOrder(prefixes: seq<byte>, last: Option<nat>)
    requires last.Some? ==> last.value < |prefixes|
    requires forall i, j | 0 <= i < j < |prefixes| :: prefixes[i] != prefixes[j]
    ensures var tries := Tries(prefixes, last);
            var hasRep, hasSize := 0xF2 in prefixes || 0xF3 in prefixes, 0x66 in prefixes;
            && 1 <= |tries| <= 4 && tries[|tries| - 1] == None
            && (hasRep ==> tries[0] in {Some(0xF2), Some(0xF3)})
            && (hasRep && 0xF2 in prefixes && 0xF3 in prefixes && tries[0] == Some(0xF3) ==>
                  exists i, j :: 0 <= i < j < |prefixes| && prefixes[i] == 0xF2 && prefixes[j] == 0xF3)
            && (hasRep && 0xF2 in prefixes && 0xF3 in prefixes && tries[0] == Some(0xF2) ==>
                  exists i, j :: 0 <= i < j < |prefixes| && prefixes[i] == 0xF3 && prefixes[j] == 0xF2)
            && (hasSize ==> var k := if hasRep then 1 else 0; k < |tries| && tries[k] == Some(0x66))
            && (last.Some? ==> Some(prefixes[last.value]) in tries)
            && (forall k | 0 <= k < |tries| - 1 :: tries[k].Some? && tries[k].value in prefixes
                  && (tries[k].value in {0x66, 0xF2, 0xF3} || (last.Some? && tries[k].value == prefixes[last.value])))
  {
    var rep, op := LastOf(prefixes, {0xF2, 0xF3}), LastOf(prefixes, {0x66});
    hide LastOf;
  }

  /** Where a repeat prefix makes an encoding, that is the one: it is shown before the opcode, and nothing else is tried. */
  lemma RepeatWins(d: Decoder, prefixes: seq<byte>, last: Option<nat>, first: Option<byte>, window: seq<byte>, source: Source,
                   k: nat)
    requires last.Some? ==> last.value < |prefixes|
    requires k < |prefixes| && prefixes[k] in {0xF2, 0xF3} && forall j | k < j < |prefixes| :: prefixes[j] !in {0xF2, 0xF3}
    requires AttemptOf(d, prefixes, [prefixes[k]] + (if first.Some? then [first.value] else []) + window, source).ok
    ensures var r := TryAllOf(d, prefixes, first, Tries(prefixes, last), window, source);
            r.ok && r.lost == [] && r.shown == [prefixes[k]] + (if first.Some? then [first.value] else []) + window
  {
    var tries := Tries(prefixes, last);
    assert LastOf(prefixes, {0xF2, 0xF3}) == Some(k);
    assert tries[0] == Some(prefixes[k]);
    hide AttemptOf, LastOf, Tries;
  }

  /** Without one, 66 is. */
  lemma OperandSizeWins(d: Decoder, prefixes: seq<byte>, last: Option<nat>, first: Option<byte>, window: seq<byte>, source: Source)
    requires last.Some? ==> last.value < |prefixes|
    requires 0x66 in prefixes && 0xF2 !in prefixes && 0xF3 !in prefixes
    requires AttemptOf(d, prefixes, [0x66] + (if first.Some? then [first.value] else []) + window, source).ok
    ensures var r := TryAllOf(d, prefixes, first, Tries(prefixes, last), window, source);
            r.ok && r.lost == [] && r.shown == [0x66] + (if first.Some? then [first.value] else []) + window
  {
    var tries := Tries(prefixes, last);
    assert LastOf(prefixes, {0xF2, 0xF3}).None?;
    assert tries[0] == Some(0x66);
    hide AttemptOf, LastOf, Tries;
  }

  // ------------------------------------------------------------------ VEX on a memory stream

  lemma {:induction false} FillOfMemory(s: State, need: nat)
    requires Fits(s) && s.at + need <= CACHE_SIZE && IsMemory(s)
    ensures var f := FillOf(s, need);
            && f.status == Success && (f.dry <==> |Rest(s)| < need)
            && |f.state.window| == (if need <= |s.window| then |s.window| else Least(need, |Rest(s)|))
    decreases need - |s.window|
  {
    if |s.window| < need {
      var r := ReadOf(s.source, need - |s.window|);
      var next := s.(window := s.window + r.got, source := r.source);
      if r.got != [] {
        FillOfMemory(next, need);
      }
    }
  }

  /** Exactly when C4 and C5 are a VEX prefix, and what they are otherwise: les and lds, or no instruction. */
  lemma VexExactly(amd64: bool, s: State, data: byte)
    requires Fits(s) && s.at == RESERVED && IsMemory(s) && data in {0xC4, 0xC5}
    ensures var w, rest := VexOf(amd64, s, data), Rest(s);
            var n := if data == 0xC5 then 1 else 2;
            && (w.found <==> n <= |rest| && (amd64 || 0xC0 <= rest[0]) && (n == 2 ==> rest[0] % 32 in {1, 2, 3}))
            && (!w.found ==> w.status == if !amd64 && n <= |rest| && rest[0] < 0xC0 then Success
                                         else if !amd64 && |rest| < n == 2 then Success
                                         else Error)
  {
    var n := if data == 0xC5 then 1 else 2;
    FillOfMemory(s, n);
    FillShows(s, n);
    hide FillOf, VirtualOf, VexSelector, IsVexFound;
  }

  /** Exactly when 62 is an EVEX prefix: outside 64-bit mode it can be bound. */
  lemma EvexExactly(amd64: bool, s: State)
    requires Fits(s) && s.at == RESERVED && IsMemory(s)
    ensures var w, rest := EvexOf(amd64, s), Rest(s);
            && (w.found <==> 4 <= |rest| && CanBeEvex(amd64, rest[0], rest[1], rest[2]))
            && (!w.found ==> w.status == if !amd64 && (rest == [] || rest[0] < 0xC0) then Success else Error)
            && (w.found ==> (IsRounding(s) <==> 5 <= |rest| && rest[2] / 16 % 2 == 1 && 0xC0 <= rest[4]))
  {
    FillOfMemory(s, 5);
    FillShows(s, 5);
    RoundingExactly(s);
    var w := FillOf(s, 5).state.window;
    if 4 <= |w| {
      CanBeEvexExactly(amd64, w[0], w[1], w[2]);
    }
    hide FillOf, VirtualOf, EvexSelector, IsEvexFound, CanBeEvex, IsRounding, Bit;
  }
}
