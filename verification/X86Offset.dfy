/** Over a memory stream a parse of x86 is a function of what is still to be parsed: neither the window nor where it is
    in the cache matters. So where no window can lag, an instruction is a function of its offset. */
module X86Offset {
  import opened Wrappers
  import opened X86Model
  import opened X86Tiling
  import opened X86Lag
  import opened X86Runs
  import opened X86Exact

  /** The stream delivers all it can. */
  predicate IsMemory(s: State) {
    s.source.plan == []
  }

  /** The same is still to be parsed, wherever the windows are. */
  predicate Same(a: State, b: State) {
    && IsReady(a) && IsReady(b) && IsMemory(a) && IsMemory(b) && a.prefixes == b.prefixes && Rest(a) == Rest(b)
  }

  // ------------------------------------------------------------------ up to the opcode

  lemma ReadCacheOfMemory(s: State)
    requires IsReady(s) && IsMemory(s)
    ensures var r := ReadCacheOf(s, false);
            && IsMemory(r.1) && r.0 == (if Rest(s) == [] then End else Success)
            && (r.0 == Success ==> r.1.window[0] == Rest(s)[0])
  {
    ReadCacheKeepsRest(s, false);
  }

  lemma ReadCacheSame(a: State, b: State)
    requires Same(a, b)
    ensures var r, q := ReadCacheOf(a, false), ReadCacheOf(b, false);
            && r.0 == q.0 && Same(r.1, q.1) && (r.0 == Success ==> r.1.window[0] == q.1.window[0])
  {
    hide ReadCacheOf, Rest;
    ReadCacheOfMemory(a);
    ReadCacheOfMemory(b);
    ReadCacheKeepsRest(a, false);
    ReadCacheKeepsRest(b, false);
  }

  lemma EatenSame(a: State, b: State)
    requires Same(a, b) && a.window != [] && b.window != []
    ensures Same(Eaten(a), Eaten(b))
  {
    EatenIsTail(a);
    EatenIsTail(b);
    assert Rest(Eaten(a)) == Rest(a)[1..] == Rest(Eaten(b));
  }

  lemma TakePrefixSame(amd64: bool, a: State, b: State, data: byte)
    requires Same(a, b)
    ensures var t, u := TakePrefixOf(amd64, a, data), TakePrefixOf(amd64, b, data);
            t.status == u.status && t.again == u.again && Same(t.state, u.state)
  {
    hide ReadCacheOf, InsertPrefix, IsLegacyPrefix, IsRex;
    ReadCacheSame(a, b);
  }

  lemma {:induction false} PrefixesSame(amd64: bool, a: State, b: State, counter: nat, nopFlags: bool)
    requires Same(a, b)
    ensures var t, u := PrefixesOf(amd64, a, counter, nopFlags), PrefixesOf(amd64, b, counter, nopFlags);
            t.status == u.status && t.data == u.data && t.nop == u.nop && Same(t.state, u.state)
    decreases MAX_PREFIXES + 1 - counter
  {
    hide ReadCacheOf, TakePrefixOf, PrefixesOf, Eaten, Rest;
    if MAX_PREFIXES < counter {
      TooManyPrefixes(amd64, a, counter, nopFlags);
      TooManyPrefixes(amd64, b, counter, nopFlags);
    } else {
      PrefixesStep(amd64, a, counter, nopFlags);
      PrefixesStep(amd64, b, counter, nopFlags);
      ReadCacheSame(a, b);
      var r, q := ReadCacheOf(a, false), ReadCacheOf(b, false);
      if r.0 == Success {
        EatenSame(r.1, q.1);
        var data := r.1.window[0];
        TakePrefixSame(amd64, Eaten(r.1), Eaten(q.1), data);
        var t, u := TakePrefixOf(amd64, Eaten(r.1), data), TakePrefixOf(amd64, Eaten(q.1), data);
        if t.status == Success && t.again {
          PrefixesSame(amd64, t.state, u.state, counter + 1, nopFlags || data !in {0x66, 0x67});
        }
      }
    }
  }

  /** The window is filled from its reserved place on: nothing is left of where it was. */
  lemma RefillOfMemory(s: State)
    requires IsReady(s) && IsMemory(s)
    ensures var rest := Rest(s);
            var c := Least(CACHE_SIZE - RESERVED, |rest|);
            ReadCacheOf(s, true) == (if rest == [] then End else Success,
                                     State(RESERVED, rest[..c], s.prefixes, Source(rest[c..], [])))
  {
    var c := Least(CACHE_SIZE - RESERVED - |s.window|, |s.source.unread|);
    assert Rest(s)[..|s.window| + c] == s.window + s.source.unread[..c];
    assert Rest(s)[|s.window| + c..] == s.source.unread[c..];
    if |s.window| == CACHE_SIZE - RESERVED {
      assert s.window + [] == s.window;
    }
  }

  /** After REX both are in the same state. */
  lemma RexSame(amd64: bool, a: State, b: State, data: byte)
    requires Same(a, b)
    ensures var r, q := RexOf(amd64, a, data), RexOf(amd64, b, data); r.status == q.status && (r.status == Success ==> r == q)
    ensures IsMemory(RexOf(amd64, a, data).state)
  {
    hide ReadCacheOf, InsertPrefix, IsRex, Rest;
    var inserted := if IsRex(amd64, data) then InsertPrefix(a.prefixes, data) else Some(a.prefixes);
    if inserted.Some? {
      PrefixesKeepRest(a, inserted.value);
      PrefixesKeepRest(b, inserted.value);
      RefillOfMemory(a.(prefixes := inserted.value));
      RefillOfMemory(b.(prefixes := inserted.value));
    }
  }

  lemma PrefixesKeepRest(s: State, prefixes: seq<byte>)
    ensures Rest(s.(prefixes := prefixes)) == Rest(s)
  {
  }

  /** Either both are done before the opcode, with nothing but the place of the window different, or from there on they are
      the same. */
  lemma PreparedSame(d: Decoder, amd64: bool, a: State, b: State)
    requires Same(a, b)
    ensures var p, q := PreparedOf(d, amd64, a), PreparedOf(d, amd64, b);
            || p == q
            || (&& p.Finished? && q.Finished? && p.outcome.status == q.outcome.status && !p.outcome.broken && !q.outcome.broken
                && p.outcome.lost == [] && q.outcome.lost == []
                && (p.outcome.status == Success ==> Same(p.outcome.state, q.outcome.state)))
  {
    hide PrefixesOf, RexOf, OpcodeOf, Rest;
    var s, t := a.(prefixes := []), b.(prefixes := []);
    PrefixesKeepRest(a, []);
    PrefixesKeepRest(b, []);
    PrefixesSame(amd64, s, t, 0, false);
    var r, q := PrefixesOf(amd64, s, 0, false), PrefixesOf(amd64, t, 0, false);
    if r.status == Success && !r.nop {
      RexSame(amd64, r.state, q.state, r.data);
    }
  }

  // ------------------------------------------------------------------ memory stays memory

  lemma {:induction false} LinkStays(d: Decoder, prefixes: seq<byte>, shown: seq<byte>, place: nat, seen: seq<byte>,
                                     left: nat, source: Source)
    requires left <= |shown| && source.plan == []
    ensures LinkOf(d, prefixes, shown, place, seen, left, source).source.plan == []
    decreases left + |source.unread|
  {
    match d.link(prefixes, shown, place, seen)
    case Done(_) =>
    case Want(n) =>
      var tail := shown[|shown| - left..];
      if n <= left {
        LinkStays(d, prefixes, shown, place, seen + tail[..n], left - n, source);
      } else {
        var r := ReadOf(source, n - left);
        if |r.got| == n - left {
          LinkStays(d, prefixes, shown, place, seen + tail + r.got, 0, r.source);
        }
      }
  }

  lemma AttemptStays(d: Decoder, prefixes: seq<byte>, shown: seq<byte>, source: Source)
    requires source.plan == []
    ensures AttemptOf(d, prefixes, shown, source).source.plan == []
  {
    hide LinkOf, MatchOf;
    var m := MatchOf(d, prefixes, shown);
    if m.Some? {
      LinkStays(d, prefixes, shown, m.value, [], |shown| - m.value, source);
    }
  }

  lemma {:induction false} TryAllStays(d: Decoder, prefixes: seq<byte>, first: Option<byte>, tries: seq<Option<byte>>,
                                       window: seq<byte>, source: Source)
    requires source.plan == []
    ensures TryAllOf(d, prefixes, first, tries, window, source).source.plan == []
    decreases |tries|
  {
    hide AttemptOf, Shown;
    if |tries| != 0 {
      var shown := Shown(tries[0], first, window);
      AttemptStays(d, prefixes, shown, source);
      TryAllStays(d, prefixes, first, tries[1..], window, AttemptOf(d, prefixes, shown, source).source);
    }
  }

  lemma {:induction false} FillStays(s: State, need: nat)
    requires Fits(s) && s.at + need <= CACHE_SIZE && IsMemory(s)
    ensures IsMemory(FillOf(s, need).state)
    decreases need - |s.window|
  {
    hide Rest;
    if |s.window| < need {
      var r := ReadOf(s.source, need - |s.window|);
      if r.got != [] {
        FillStays(s.(window := s.window + r.got, source := r.source), need);
      }
    }
  }

  lemma WideStays(amd64: bool, s: State, data: byte)
    requires Fits(s) && s.at == RESERVED && (IsVex(data) || data == 0x62) && IsMemory(s)
    ensures IsMemory((if data == 0x62 then EvexOf(amd64, s) else VexOf(amd64, s, data)).state)
  {
    hide FillOf, Rest, Bit;
    FillStays(s, if data == 0x62 then 5 else VexLength(data));
  }

  lemma OpcodeStays(d: Decoder, amd64: bool, s: State, first: Option<byte>, rex: byte, last: Option<nat>)
    requires Fits(s) && s.at == RESERVED && (last.Some? ==> last.value < |s.prefixes|) && IsMemory(s)
    ensures match OpcodeOf(d, amd64, s, first, rex, last)
            case Finished(o) => IsMemory(o.state)
            case Trying(_, _, t) => IsMemory(t)
  {
    hide EvexOf, VexOf, AttemptOf, Tries, IsPrefixedNop;
    if first.Some? && (first.value == 0x62 || IsVex(first.value)) {
      WideStays(amd64, s, first.value);
      var w := if first.value == 0x62 then EvexOf(amd64, s) else VexOf(amd64, s, first.value);
      AttemptStays(d, w.state.prefixes, w.state.window, w.state.source);
    }
  }

  lemma ParseStays(d: Decoder, amd64: bool, s: State)
    requires IsReady(s) && IsMemory(s)
    ensures var p := ParseOf(d, amd64, s); p.status == Success ==> IsMemory(p.state)
  {
    hide PrefixesOf, RexOf, OpcodeOf, TryAllOf, Rest;
    var start := s.(prefixes := []);
    PrefixesSame(amd64, start, start, 0, false);
    var t := PrefixesOf(amd64, start, 0, false);
    if t.status == Success && !t.nop {
      RexSame(amd64, t.state, t.state, t.data);
      LastIndexStays(amd64, t.state, t.data);
      var r := RexOf(amd64, t.state, t.data);
      if r.status == Success {
        OpcodeStays(d, amd64, r.state, r.first, r.rex, LastIndex(t.state.prefixes));
        var p := OpcodeOf(d, amd64, r.state, r.first, r.rex, LastIndex(t.state.prefixes));
        if p.Trying? {
          TryAllStays(d, p.state.prefixes, p.first, p.tries, p.state.window, p.state.source);
        }
      }
    }
  }

  // ------------------------------------------------------------------ an instruction is a function of its offset

  /** Two parses with the same bytes before them, over memory, come to the same instruction, and have the same before them
      afterwards. */
  lemma ParseIsOfRest(d: Decoder, amd64: bool, a: State, b: State)
    requires IsReady(a) && IsReady(b) && IsMemory(a) && IsMemory(b) && Rest(a) == Rest(b)
    ensures var p, q := ParseOf(d, amd64, a), ParseOf(d, amd64, b);
            && p.status == q.status && p.bytes == q.bytes && p.lag == q.lag
            && (p.status == Success ==> Rest(p.state) == Rest(q.state))
  {
    hide PreparedOf, TryAllOf, TriedOutcome, Rest;
    var s, t := a.(prefixes := []), b.(prefixes := []);
    PrefixesKeepRest(a, []);
    PrefixesKeepRest(b, []);
    PrefixesDoNotMatter(d, amd64, a);
    PrefixesDoNotMatter(d, amd64, b);
    PreparedSame(d, amd64, s, t);
  }

  /** The prefixes of the instruction before are dropped. */
  lemma PrefixesDoNotMatter(d: Decoder, amd64: bool, s: State)
    requires IsReady(s)
    ensures PreparedOf(d, amd64, s) == PreparedOf(d, amd64, s.(prefixes := []))
  {
    hide PrefixesOf, RexOf, OpcodeOf;
    assert s.(prefixes := []).(prefixes := []) == s.(prefixes := []);
  }

  /** The parser as it is when the stream was moved and the cache cleared. */
  function Fresh(rest: seq<byte>): State {
    State(RESERVED, [], [], Source(rest, []))
  }

  lemma FreshIsReady(rest: seq<byte>)
    ensures IsReady(Fresh(rest)) && IsMemory(Fresh(rest)) && Rest(Fresh(rest)) == rest
  {
    assert [] + rest == rest;
  }

  /** The instruction at an offset, whatever was parsed before it. */
  function DecodeAt(d: Decoder, amd64: bool, image: seq<byte>, offset: nat): Parsed
    requires offset <= |image|
  {
    ParseOf(d, amd64, Fresh(image[offset..]))
  }

  /** The parser is at an offset of the image. */
  predicate IsAt(s: State, image: seq<byte>, offset: nat) {
    IsReady(s) && IsMemory(s) && offset <= |image| && Rest(s) == image[offset..]
  }

  lemma ParseIsOfOffset(d: Decoder, amd64: bool, image: seq<byte>, offset: nat, s: State)
    requires IsAt(s, image, offset) && ClearAt(d, amd64, s)
    ensures var p, q := ParseOf(d, amd64, s), DecodeAt(d, amd64, image, offset);
            && p.status == q.status && p.bytes == q.bytes
            && (p.status == Success ==> IsAt(p.state, image, offset + |p.bytes|))
  {
    hide ParseOf, ClearAt, Rest, Fresh, GoesOn, IsReady;
    var t := Fresh(image[offset..]);
    FreshIsReady(image[offset..]);
    ParseIsOfRest(d, amd64, s, t);
    ClearNeverLags(d, amd64, s);
    ParseStays(d, amd64, s);
    ParseGoesOn(d, amd64, s);
    NoLagTiles(d, amd64, s);
    var p := ParseOf(d, amd64, s);
    if p.status == Success {
      Behind(image, offset, p.bytes, Rest(p.state));
    }
  }

  lemma Behind(image: seq<byte>, offset: nat, bytes: seq<byte>, rest: seq<byte>)
    requires offset <= |image| && image[offset..] == bytes + rest
    ensures offset + |bytes| <= |image| && image[offset + |bytes|..] == rest
  {
    assert image[offset + |bytes|..] == image[offset..][|bytes|..];
  }

  /** Where the instructions of a run begin. */
  function OffsetOf(instructions: seq<seq<byte>>, offset: nat, k: nat): nat
    requires k <= |instructions|
  {
    if k == 0 then offset else OffsetOf(instructions[1..], offset + |instructions[0]|, k - 1)
  }

  /** Along a run of parses each instruction is the one that a fresh parse at its offset gives: where no window can lag, the
      decoder is a function of the offset. */
  lemma {:induction false} RunIsOfOffsets(d: Decoder, amd64: bool, image: seq<byte>, offset: nat, s: State, count: nat, k: nat)
    requires IsAt(s, image, offset) && ClearAhead(d, amd64, s, count)
    requires k < |ParseAllOf(d, amd64, s, count).instructions|
    ensures var instructions := ParseAllOf(d, amd64, s, count).instructions;
            var o := OffsetOf(instructions, offset, k);
            && o <= |image| && DecodeAt(d, amd64, image, o).status == Success
            && DecodeAt(d, amd64, image, o).bytes == instructions[k]
    decreases count
  {
    hide ParseOf, ClearAt, DecodeAt, IsAt, ParseAllOf, ClearAhead;
    IsAtIsReady(s, image, offset);
    FirstOfRun(d, amd64, s, count);
    ParseIsOfOffset(d, amd64, image, offset, s);
    var p := ParseOf(d, amd64, s);
    IsAtIsReady(p.state, image, offset + |p.bytes|);
    var later := ParseAllOf(d, amd64, p.state, count - 1).instructions;
    assert ([p.bytes] + later)[1..] == later;
    if k != 0 {
      RunIsOfOffsets(d, amd64, image, offset + |p.bytes|, p.state, count - 1, k - 1);
    }
  }

  lemma FirstOfRun(d: Decoder, amd64: bool, s: State, count: nat)
    requires IsReady(s) && ClearAhead(d, amd64, s, count) && ParseAllOf(d, amd64, s, count).instructions != []
    ensures var p := ParseOf(d, amd64, s);
            && 0 < count && p.status == Success && IsReady(p.state) && ClearAt(d, amd64, s)
            && ClearAhead(d, amd64, p.state, count - 1)
            && ParseAllOf(d, amd64, s, count).instructions
               == [p.bytes] + ParseAllOf(d, amd64, p.state, count - 1).instructions
  {
    hide ParseOf, ClearAt;
  }

  lemma IsAtIsReady(s: State, image: seq<byte>, offset: nat)
    requires IsAt(s, image, offset)
    ensures IsReady(s) && offset <= |image|
  {
  }
}
