/** The condition under which the window of the x86 parser cannot lag is exact: where it does not hold, some stream that
    delivers the same up to the attempts makes it lag. The stream is built backwards from where it has to go on. */
module X86Exact {
  import opened Wrappers
  import opened X86Model
  import opened X86Tiling
  import opened X86Lag
  import opened X86Runs

  // ------------------------------------------------------------------ streams that go on elsewhere

  /** A stream that delivers the same and then goes on as `x`. */
  lemma ReadReplays(s: Source, n: nat, x: Source) returns (y: Source)
    ensures var r := ReadOf(s, n); ReadOf(y, n) == r.(source := x)
  {
    var r := ReadOf(s, n);
    if r.status == Success {
      y := Source(r.got + x.unread, [Gives(|r.got|)] + x.plan);
      assert y.unread[..|r.got|] == r.got && y.unread[|r.got|..] == x.unread && y.plan[1..] == x.plan;
    } else {
      y := Source(x.unread, [Fails(r.status == End)] + x.plan);
      assert y.plan[1..] == x.plan;
    }
  }

  lemma ReadCacheReplays(s: State, optimize: bool, x: Source) returns (y: Source)
    requires Fits(s) && (optimize ==> |s.window| <= CACHE_SIZE - RESERVED)
    ensures var r := ReadCacheOf(s, optimize); ReadCacheOf(s.(source := y), optimize) == (r.0, r.1.(source := x))
  {
    var at := ArrangedAt(s.at, optimize);
    y := x;
    if at + |s.window| < CACHE_SIZE {
      y := ReadReplays(s.source, CACHE_SIZE - |s.window| - at, x);
    }
    hide ReadOf;
  }

  lemma TakePrefixReplays(amd64: bool, s: State, data: byte, x: Source) returns (y: Source)
    requires IsReady(s)
    ensures var t := TakePrefixOf(amd64, s, data);
            TakePrefixOf(amd64, s.(source := y), data) == t.(state := t.state.(source := x))
  {
    hide ReadCacheOf, InsertPrefix, IsLegacyPrefix, IsRex;
    y := x;
    if !IsLegacyPrefix(data) && IsRex(amd64, data) {
      y := ReadCacheReplays(s, false, x);
    }
  }

  lemma {:induction false} PrefixesReplay(amd64: bool, s: State, counter: nat, nopFlags: bool, x: Source)
    returns (y: Source)
    requires IsReady(s)
    ensures var t := PrefixesOf(amd64, s, counter, nopFlags);
            PrefixesOf(amd64, s.(source := y), counter, nopFlags) == t.(state := t.state.(source := x))
    decreases MAX_PREFIXES + 1 - counter
  {
    hide ReadCacheOf, TakePrefixOf, PrefixesOf;
    y := x;
    if counter <= MAX_PREFIXES {
      var read := ReadCacheOf(s, false);
      if read.0 == Success && !((counter == 0 || !nopFlags) && read.1.window[0] == 0x90) {
        var data, next := read.1.window[0], Eaten(read.1);
        var t := TakePrefixOf(amd64, next, data);
        if t.status == Success && t.again {
          y := PrefixesReplay(amd64, t.state, counter + 1, nopFlags || data !in {0x66, 0x67}, y);
        }
        y := TakePrefixReplays(amd64, next, data, y);
      }
      y := ReadCacheReplays(s, false, y);
      PrefixesStep(amd64, s, counter, nopFlags);
      PrefixesStep(amd64, s.(source := y), counter, nopFlags);
    } else {
      TooManyPrefixes(amd64, s, counter, nopFlags);
      TooManyPrefixes(amd64, s.(source := y), counter, nopFlags);
    }
  }

  lemma RexReplays(amd64: bool, s: State, data: byte, x: Source) returns (y: Source)
    requires IsReady(s)
    ensures var r := RexOf(amd64, s, data);
            RexOf(amd64, s.(source := y), data) == r.(state := r.state.(source := x))
  {
    hide ReadCacheOf, InsertPrefix, IsRex;
    var inserted := if IsRex(amd64, data) then InsertPrefix(s.prefixes, data) else Some(s.prefixes);
    y := x;
    if inserted.Some? {
      y := ReadCacheReplays(s.(prefixes := inserted.value), true, x);
    }
  }

  lemma {:induction false} FillReplays(s: State, need: nat, x: Source) returns (y: Source)
    requires Fits(s) && s.at + need <= CACHE_SIZE
    ensures var f := FillOf(s, need); FillOf(s.(source := y), need) == f.(state := f.state.(source := x))
    decreases need - |s.window|
  {
    hide ReadOf, Rest;
    y := x;
    if |s.window| < need {
      var r := ReadOf(s.source, need - |s.window|);
      var next := s.(window := s.window + r.got, source := r.source);
      if r.status == Success && r.got != [] {
        y := FillReplays(next, need, y);
      }
      y := ReadReplays(s.source, need - |s.window|, y);
    }
  }

  /** No VEX or EVEX. */
  lemma NarrowReplays(amd64: bool, s: State, data: byte, x: Source) returns (y: Source)
    requires Fits(s) && s.at == RESERVED && (IsVex(data) || data == 0x62)
    requires var w := if data == 0x62 then EvexOf(amd64, s) else VexOf(amd64, s, data); w.status == Success && !w.found
    ensures var w, v := if data == 0x62 then EvexOf(amd64, s) else VexOf(amd64, s, data),
                        if data == 0x62 then EvexOf(amd64, s.(source := y)) else VexOf(amd64, s.(source := y), data);
            v == w.(state := w.state.(source := x))
  {
    hide FillOf, VirtualOf, Rest, Bit;
    y := FillReplays(s, if data == 0x62 then 5 else VexLength(data), x);
  }

  lemma OpcodeReplays(d: Decoder, amd64: bool, s: State, first: Option<byte>, rex: byte, last: Option<nat>, x: Source)
    returns (y: Source)
    requires Fits(s) && s.at == RESERVED && (last.Some? ==> last.value < |s.prefixes|)
    requires OpcodeOf(d, amd64, s, first, rex, last).Trying?
    ensures var p := OpcodeOf(d, amd64, s, first, rex, last);
            OpcodeOf(d, amd64, s.(source := y), first, rex, last) == p.(state := p.state.(source := x))
  {
    hide EvexOf, VexOf, ParseVirtualOf, Tries;
    y := x;
    if first.Some? && (first.value == 0x62 || IsVex(first.value)) {
      y := NarrowReplays(amd64, s, first.value, x);
    }
  }

  lemma PreparedReplays(d: Decoder, amd64: bool, s: State, x: Source) returns (y: Source)
    requires IsReady(s) && PreparedOf(d, amd64, s).Trying?
    ensures var p := PreparedOf(d, amd64, s);
            PreparedOf(d, amd64, s.(source := y)) == p.(state := p.state.(source := x))
  {
    hide PrefixesOf, RexOf, OpcodeOf;
    var t := PrefixesOf(amd64, s.(prefixes := []), 0, false);
    LastIndexStays(amd64, t.state, t.data);
    var r := RexOf(amd64, t.state, t.data);
    y := OpcodeReplays(d, amd64, r.state, r.first, r.rex, LastIndex(t.state.prefixes), x);
    y := RexReplays(amd64, t.state, t.data, y);
    y := PrefixesReplay(amd64, s.(prefixes := []), 0, false, y);
    assert s.(source := y).(prefixes := []) == s.(prefixes := []).(source := y);
  }

  // ------------------------------------------------------------------ the exact condition

  /** The instruction leaves the window in front of a gap. */
  predicate Behind(o: Outcome) {
    o.status == Success && !o.broken && Missing(o) != []
  }

  /** Two streams that deliver the same up to the attempts. */
  predicate Alike(a: Prepared, b: Prepared) {
    match a
    case Finished(_) => b.Finished?
    case Trying(first, tries, t) => b.Trying? && b == a.(state := t.(source := b.state.source))
  }

  lemma BehindIsLag(d: Decoder, amd64: bool, s: State)
    requires IsReady(s)
    ensures Behind(ParseExOf(d, amd64, s)) <==>
              var p := PreparedOf(d, amd64, s);
              p.Trying? && Lags(TryAllOf(d, p.state.prefixes, p.first, p.tries, p.state.window, p.state.source), p.state.window)
  {
    PreparedLeavesOff(d, amd64, s);
    hide PreparedOf, TryAllOf, LeavesOff, IsTail, Rest;
  }

  /** At any place of any stream: the condition holds if and only if no stream that delivers the same up to the attempts
      leaves the window behind the instruction. */
  lemma ClearExactly(d: Decoder, amd64: bool, s: State)
    requires IsReady(s)
    ensures ClearAt(d, amd64, s) <==>
              forall y | Alike(PreparedOf(d, amd64, s), PreparedOf(d, amd64, s.(source := y))) ::
                !Behind(ParseExOf(d, amd64, s.(source := y)))
  {
    var p := PreparedOf(d, amd64, s);
    hide PreparedOf, ParseExOf, Behind;
    forall y | Alike(p, PreparedOf(d, amd64, s.(source := y))) && ClearAt(d, amd64, s)
      ensures !Behind(ParseExOf(d, amd64, s.(source := y)))
    {
      var q := PreparedOf(d, amd64, s.(source := y));
      BehindIsLag(d, amd64, s.(source := y));
      if q.Trying? {
        LagsExactly(d, q.state.prefixes, q.first, q.tries, q.state.window);
      }
    }
    if !ClearAt(d, amd64, s) {
      var t := p.state;
      var x := LaggingStream(d, t.prefixes, p.first, p.tries, t.window);
      var y := PreparedReplays(d, amd64, s, x);
      BehindIsLag(d, amd64, s.(source := y));
    }
  }

  /** A decoder with which the window never lags. */
  ghost predicate KeepsPlace(d: Decoder, amd64: bool) {
    forall s | IsReady(s) :: ClearAt(d, amd64, s)
  }

  /** For a decoder: the condition holds everywhere if and only if no instruction leaves the window behind it. */
  lemma KeepsPlaceExactly(d: Decoder, amd64: bool)
    ensures KeepsPlace(d, amd64) <==> forall s | IsReady(s) :: !Behind(ParseExOf(d, amd64, s))
  {
    hide ParseExOf, Behind, PreparedOf, ClearAt;
    forall s | IsReady(s)
      ensures ClearAt(d, amd64, s) ==> !Behind(ParseExOf(d, amd64, s))
      ensures (forall s | IsReady(s) :: !Behind(ParseExOf(d, amd64, s))) ==> ClearAt(d, amd64, s)
    {
      ClearExactly(d, amd64, s);
      assert s.(source := s.source) == s;
    }
  }

  lemma {:induction false} KeepsPlaceAhead(d: Decoder, amd64: bool, s: State, count: nat)
    requires IsReady(s) && KeepsPlace(d, amd64)
    ensures ClearAhead(d, amd64, s, count)
    decreases count
  {
    hide ParseOf, ClearAt;
    if count != 0 {
      var p := ParseOf(d, amd64, s);
      if p.status == Success && IsReady(p.state) {
        KeepsPlaceAhead(d, amd64, p.state, count - 1);
      }
    }
  }

  /** With such a decoder, every run of successful parses tiles its stream. */
  lemma KeepsPlaceTiles(d: Decoder, amd64: bool, s: State, count: nat)
    requires IsReady(s) && KeepsPlace(d, amd64)
    ensures var r := ParseAllOf(d, amd64, s, count); r.status == Success ==> Tiles(Rest(s), r)
  {
    hide *;
    KeepsPlaceAhead(d, amd64, s, count);
    ClearRunTiles(d, amd64, s, count);
  }

  lemma {:induction false} NoneLate(d: Decoder, prefixes: seq<byte>, first: Option<byte>, tries: seq<Option<byte>>,
                                    window: seq<byte>)
    requires forall shown :: !CanFailLate(d, prefixes, shown)
    ensures !CanLag(d, prefixes, first, tries, window)
    decreases |tries|
  {
    hide CanFailLate;
    if |tries| != 0 {
      NoneLate(d, prefixes, first, tries[1..], window);
    }
  }

  /** Operands that accept whatever they ask for, a byte at a time, never make the window lag. */
  lemma NoneLateKeepsPlace(d: Decoder, amd64: bool)
    requires forall prefixes, shown :: !CanFailLate(d, prefixes, shown)
    ensures KeepsPlace(d, amd64)
  {
    hide PreparedOf, CanFailLate, CanLag;
    forall s | IsReady(s) ensures ClearAt(d, amd64, s) {
      var p := PreparedOf(d, amd64, s);
      if p.Trying? {
        NoneLate(d, p.state.prefixes, p.first, p.tries, p.state.window);
      }
    }
  }

  /** Without legacy prefixes there is one attempt: the next instruction begins right behind this one. */
  lemma NoPrefixIsClear(d: Decoder, amd64: bool, s: State)
    requires IsReady(s) && PrefixesOf(amd64, s.(prefixes := []), 0, false).state.prefixes == []
    ensures ClearAt(d, amd64, s)
  {
    hide PrefixesOf, ReadCacheOf, CanLag, Tries, IsPrefixedNop, EvexOf, VexOf, ParseVirtualOf;
    var p := PreparedOf(d, amd64, s);
    if p.Trying? {
      OneTry(p.state.prefixes);
      OneTryNeverLags(d, p.state.prefixes, p.first, p.tries, p.state.window);
    }
  }

  lemma OneTry(prefixes: seq<byte>)
    requires forall b | b in prefixes :: b !in {0xF2, 0xF3, 0x66}
    ensures |Tries(prefixes, None)| == 1
  {
    assert forall k | 0 <= k < |prefixes| :: prefixes[k] in prefixes;
  }
}
