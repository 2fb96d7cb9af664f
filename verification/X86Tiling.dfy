/** What an instruction takes from the stream: its bytes are the next ones, and the window goes on right behind them,
    unless a failed attempt drew bytes that its failure does not give back. */
module X86Tiling {
  import opened Wrappers
  import opened X86Model

  // ------------------------------------------------------------------ ends of the stream

  /** `rest` is the end of `total`. */
  ghost predicate IsTail(total: seq<byte>, rest: seq<byte>) {
    |rest| <= |total| && total[|total| - |rest|..] == rest
  }

  lemma TailOfTail(total: seq<byte>, first: seq<byte>, rest: seq<byte>)
    requires IsTail(total, first + rest)
    ensures IsTail(total, rest)
  {
    assert (first + rest)[|first|..] == rest;
  }

  lemma TailTransitive(a: seq<byte>, b: seq<byte>, c: seq<byte>)
    requires IsTail(a, b) && IsTail(b, c)
    ensures IsTail(a, c)
  {
    assert a[|a| - |b|..][|b| - |c|..] == a[|a| - |c|..];
  }

  lemma TailFrom(total: seq<byte>, skip: nat)
    requires skip <= |total|
    ensures IsTail(total, total[skip..])
  {
  }

  lemma TailOfItself(total: seq<byte>)
    ensures IsTail(total, total)
  {
  }

  // ------------------------------------------------------------------ before the attempts

  lemma ReadCacheKeepsRest(s: State, optimize: bool)
    requires Fits(s) && (optimize ==> |s.window| <= CACHE_SIZE - RESERVED)
    ensures Rest(ReadCacheOf(s, optimize).1) == Rest(s)
  {
    var at := ArrangedAt(s.at, optimize);
    if at + |s.window| < CACHE_SIZE {
      var r := ReadOf(s.source, CACHE_SIZE - |s.window| - at);
      Assoc(s.window, r.got, r.source.unread);
    }
  }

  lemma EatenIsTail(s: State)
    requires s.window != []
    ensures [s.window[0]] + Rest(Eaten(s)) == Rest(s) && IsTail(Rest(s), Rest(Eaten(s)))
  {
    assert Rest(s) == [s.window[0]] + (s.window[1..] + s.source.unread);
    TailOfTail(Rest(s), [s.window[0]], Rest(Eaten(s)));
  }

  lemma TakePrefixKeepsRest(amd64: bool, s: State, data: byte)
    requires IsReady(s)
    ensures Rest(TakePrefixOf(amd64, s, data).state) == Rest(s)
  {
    hide IsLegacyPrefix, IsRex, InsertPrefix;
    ReadCacheKeepsRest(s, false);
    hide ReadCacheOf;
  }

  /** The prefixes and the byte after them: at least one byte. */
  lemma {:induction false} PrefixesAreTail(amd64: bool, s: State, counter: nat, nopFlags: bool)
    requires IsReady(s)
    ensures var t := PrefixesOf(amd64, s, counter, nopFlags);
            IsTail(Rest(s), Rest(t.state)) && (t.status == Success ==> |Rest(t.state)| < |Rest(s)|)
    decreases MAX_PREFIXES + 1 - counter
  {
    hide ReadCacheOf, TakePrefixOf, Rest, IsTail, Eaten;
    TailOfItself(Rest(s));
    if counter <= MAX_PREFIXES {
      ReadCacheKeepsRest(s, false);
      var read := ReadCacheOf(s, false);
      if read.0 == Success {
        EatenIsTail(read.1);
        var data, next := read.1.window[0], Eaten(read.1);
        EatenIsReady(read.1);
        TakePrefixKeepsRest(amd64, next, data);
        var t := TakePrefixOf(amd64, next, data);
        if (counter != 0 && nopFlags) || data != 0x90 {
          if t.status == Success && t.again {
            PrefixesAreTail(amd64, t.state, counter + 1, nopFlags || data !in {0x66, 0x67});
            TailTransitive(Rest(s), Rest(t.state), Rest(PrefixesOf(amd64, s, counter, nopFlags).state));
          }
        }
      }
    }
  }

  lemma EatenIsReady(s: State)
    requires IsReady(s) && s.window != []
    ensures IsReady(Eaten(s)) && |Rest(Eaten(s))| < |Rest(s)|
  {
  }

  lemma RexKeepsRest(amd64: bool, s: State, data: byte)
    requires IsReady(s)
    ensures Rest(RexOf(amd64, s, data).state) == Rest(s)
  {
    var inserted := if IsRex(amd64, data) then InsertPrefix(s.prefixes, data) else Some(s.prefixes);
    if inserted.Some? {
      ReadCacheKeepsRest(s.(prefixes := inserted.value), true);
    }
    hide IsRex, InsertPrefix, ReadCacheOf;
  }

  // ------------------------------------------------------------------ one attempt

  /** Operands that leave bytes of the window drew nothing; what was drawn is the beginning of the stream. */
  lemma {:induction false} LinkIsTail(d: Decoder, prefixes: seq<byte>, shown: seq<byte>, place: nat, seen: seq<byte>,
                                      left: nat, source: Source)
    requires left <= |shown|
    ensures IsTail(source.unread, LinkOf(d, prefixes, shown, place, seen, left, source).source.unread)
    decreases left + |source.unread|
  {
    hide IsTail, ReadOf;
    TailOfItself(source.unread);
    match d.link(prefixes, shown, place, seen)
    case Done(yes) =>
    case Want(n) =>
      var tail := shown[|shown| - left..];
      if n <= left {
        LinkIsTail(d, prefixes, shown, place, seen + tail[..n], left - n, source);
      } else {
        var r := ReadOf(source, n - left);
        TailOfTail(source.unread, r.got, r.source.unread);
        if r.status == Success && |r.got| == n - left {
          LinkIsTail(d, prefixes, shown, place, seen + tail + r.got, 0, r.source);
          TailTransitive(source.unread, r.source.unread,
                         LinkOf(d, prefixes, shown, place, seen, left, source).source.unread);
        }
      }
  }

  lemma AttemptIsTail(d: Decoder, prefixes: seq<byte>, shown: seq<byte>, source: Source)
    ensures IsTail(source.unread, AttemptOf(d, prefixes, shown, source).source.unread)
  {
    hide IsTail, LinkOf, MatchOf;
    TailOfItself(source.unread);
    var m := MatchOf(d, prefixes, shown);
    if m.Some? {
      LinkIsTail(d, prefixes, shown, m.value, [], |shown| - m.value, source);
    }
  }

  lemma DrawnIs(a: Source, b: Source)
    requires IsTail(a.unread, b.unread)
    ensures a.unread == Drawn(a, b) + b.unread
  {
  }

  /** What the operands leave of a window, and of the stream when they leave nothing of the window. */
  lemma LeavesTail(window: seq<byte>, lost: seq<byte>, drawn: seq<byte>, unread: seq<byte>, left: nat)
    requires left <= |window| && (0 < left ==> drawn == [])
    ensures IsTail(window + (lost + (drawn + unread)),
                   window[|window| - left..] + ((if left == 0 then [] else lost) + unread))
  {
    if left == 0 {
      assert window + (lost + (drawn + unread)) == (window + lost + drawn) + unread;
      assert window[|window|..] + ([] + unread) == unread;
    } else {
      assert lost + (drawn + unread) == lost + unread;
      assert (window + (lost + unread))[|window| - left..] == window[|window| - left..] + (lost + unread);
    }
  }

  lemma Suffix(shown: seq<byte>, scratch: seq<byte>, window: seq<byte>, left: nat)
    requires shown == scratch + window && left <= |window|
    ensures shown[|shown| - left..] == window[|window| - left..]
  {
  }

  /** A parse behind virtual bytes. */
  lemma VirtualIsTail(d: Decoder, s: State)
    requires Fits(s) && s.at == 0 && RESERVED <= |s.window|
    ensures var o := ParseVirtualOf(d, s);
            o.status == Success && !o.broken ==>
              IsReady(o.state) && o.lost == [] && IsTail(s.window[RESERVED..] + s.source.unread, Rest(o.state))
  {
    hide AttemptOf, IsTail, Drawn;
    var a := AttemptOf(d, s.prefixes, s.window, s.source);
    AttemptIsTail(d, s.prefixes, s.window, s.source);
    DrawnIs(s.source, a.source);
    KeepsMeansNothingDrawn(d, s.prefixes, s.window, s.source);
    if a.ok && a.left <= |s.window| - RESERVED {
      var window := s.window[RESERVED..];
      Halves(s.window, RESERVED);
      Suffix(s.window, s.window[..RESERVED], window, a.left);
      LeavesWhole(window, Drawn(s.source, a.source), a.source.unread, a.left);
    }
  }

  lemma Halves(s: seq<byte>, k: nat)
    requires k <= |s|
    ensures s == s[..k] + s[k..]
  {
  }

  lemma KeepsMeansNothingDrawn(d: Decoder, prefixes: seq<byte>, shown: seq<byte>, source: Source)
    ensures var a := AttemptOf(d, prefixes, shown, source); a.ok && 0 < a.left ==> Drawn(source, a.source) == []
  {
    hide MatchOf, LinkOf;
  }

  lemma LeavesWhole(window: seq<byte>, drawn: seq<byte>, unread: seq<byte>, left: nat)
    requires left <= |window| && (0 < left ==> drawn == [])
    ensures IsTail(window + (drawn + unread), window[|window| - left..] + unread)
  {
    LeavesTail(window, [], drawn, unread, left);
    assert [] + (drawn + unread) == drawn + unread && [] + unread == unread;
  }

  // ------------------------------------------------------------------ the attempts

  /** What the failed attempts drew comes before what the successful one drew. */
  ghost predicate Draws(r: Tried, source: Source, drawn: seq<byte>) {
    source.unread == r.lost + (drawn + r.source.unread) && (r.ok && 0 < r.left ==> drawn == [])
  }

  lemma {:induction false} TryAllDraws(d: Decoder, prefixes: seq<byte>, first: Option<byte>, tries: seq<Option<byte>>,
                                       window: seq<byte>, source: Source) returns (drawn: seq<byte>)
    ensures Draws(TryAllOf(d, prefixes, first, tries, window, source), source, drawn)
    decreases |tries|
  {
    drawn := [];
    if |tries| != 0 {
      var shown := Shown(tries[0], first, window);
      var a := AttemptOf(d, prefixes, shown, source);
      AttemptIsTail(d, prefixes, shown, source);
      DrawnIs(source, a.source);
      hide AttemptOf, Shown, IsTail;
      if a.ok {
        drawn := Drawn(source, a.source);
      } else {
        drawn := TryAllDraws(d, prefixes, first, tries[1..], window, a.source);
        var r := TryAllOf(d, prefixes, first, tries[1..], window, a.source);
        Assoc(Drawn(source, a.source), r.lost, drawn + r.source.unread);
      }
    }
  }

  /** The attempt that succeeded was shown the window behind the scratch bytes. */
  lemma {:induction false} TryAllShows(d: Decoder, prefixes: seq<byte>, first: Option<byte>, tries: seq<Option<byte>>,
                                       window: seq<byte>, source: Source) returns (scratch: seq<byte>)
    ensures var r := TryAllOf(d, prefixes, first, tries, window, source);
            r.ok ==> r.shown == scratch + window && |scratch| <= RESERVED
    decreases |tries|
  {
    scratch := [];
    if |tries| != 0 {
      var shown := Shown(tries[0], first, window);
      var a := AttemptOf(d, prefixes, shown, source);
      if a.ok {
        scratch := shown[..|shown| - |window|];
      } else {
        scratch := TryAllShows(d, prefixes, first, tries[1..], window, a.source);
      }
    }
  }

  // ------------------------------------------------------------------ one instruction

  /** What failed attempts drew is missing between the window and the stream, if the window kept bytes. */
  function Missing(o: Outcome): seq<byte> {
    if o.state.window == [] then [] else o.lost
  }

  /** The next instruction begins in the window: its bytes, what is missing and the stream are the end of `total`. */
  ghost predicate LeavesOff(total: seq<byte>, o: Outcome) {
    IsReady(o.state) && IsTail(total, o.state.window + (Missing(o) + o.state.source.unread))
  }

  lemma NoneMissing(total: seq<byte>, o: Outcome)
    requires IsReady(o.state) && IsTail(total, Rest(o.state)) && o.lost == []
    ensures LeavesOff(total, o)
  {
    assert [] + o.state.source.unread == o.state.source.unread;
  }

  lemma TriedLeavesOff(d: Decoder, p: Prepared)
    requires p.Trying? && Fits(p.state) && p.state.at == RESERVED
    ensures var o := TriedOutcome(p, TryAllOf(d, p.state.prefixes, p.first, p.tries, p.state.window, p.state.source));
            o.status == Success && !o.broken ==> LeavesOff(Rest(p.state), o)
  {
    hide TryAllOf, IsTail;
    var t := p.state;
    var r := TryAllOf(d, t.prefixes, p.first, p.tries, t.window, t.source);
    var drawn := TryAllDraws(d, t.prefixes, p.first, p.tries, t.window, t.source);
    var scratch := TryAllShows(d, t.prefixes, p.first, p.tries, t.window, t.source);
    if r.ok && r.left <= |t.window| {
      Suffix(r.shown, scratch, t.window, r.left);
      LeavesTail(t.window, r.lost, drawn, r.source.unread, r.left);
    }
  }

  /** The instruction after its prefixes. */
  lemma OpcodeLeavesOff(d: Decoder, amd64: bool, s: State, first: Option<byte>, rex: byte, last: Option<nat>)
    requires Fits(s) && s.at == RESERVED && (last.Some? ==> last.value < |s.prefixes|)
    ensures match OpcodeOf(d, amd64, s, first, rex, last)
            case Finished(o) => o.status == Success && !o.broken ==> LeavesOff(Rest(s), o) && o.lost == []
            case Trying(_, _, t) => Rest(t) == Rest(s)
  {
    hide LeavesOff, IsTail, EvexOf, VexOf, ParseVirtualOf, Rest, Eaten;
    TailOfItself(Rest(s));
    if first.None? && s.window != [] {
      EatenIsTail(s);
      EatenIsReady(s);
      NoneMissing(Rest(s), Outcome(Success, false, [], Eaten(s)));
    }
    NoneMissing(Rest(s), Outcome(Success, false, [], s));
    if first.Some? && (first.value == 0x62 || IsVex(first.value)) {
      var w := if first.value == 0x62 then EvexOf(amd64, s) else VexOf(amd64, s, first.value);
      if w.status == Success && w.found {
        var skip := if first.value == 0x62 then 3 else VexLength(first.value);
        WideLeavesOff(d, s, w, skip);
      }
    }
  }

  /** Behind a VEX or EVEX prefix. */
  lemma WideLeavesOff(d: Decoder, s: State, w: Wide, skip: nat)
    requires Fits(w.state) && w.state.at == 0 && RESERVED <= |w.state.window| && skip <= |Rest(s)|
    requires w.state.window[RESERVED..] + w.state.source.unread == Rest(s)[skip..]
    ensures var o := ParseVirtualOf(d, w.state);
            o.status == Success && !o.broken ==> LeavesOff(Rest(s), o) && o.lost == []
  {
    var o := ParseVirtualOf(d, w.state);
    VirtualIsTail(d, w.state);
    TailFrom(Rest(s), skip);
    hide ParseVirtualOf;
    if o.status == Success && !o.broken {
      TailTransitive(Rest(s), Rest(s)[skip..], Rest(o.state));
      NoneMissing(Rest(s), o);
    }
  }

  lemma PreparedLeavesOff(d: Decoder, amd64: bool, s: State)
    requires IsReady(s)
    ensures match PreparedOf(d, amd64, s)
            case Finished(o) =>
              o.status == Success && !o.broken ==> LeavesOff(Rest(s), o) && |Rest(o.state)| < |Rest(s)| && o.lost == []
            case Trying(_, _, t) => IsTail(Rest(s), Rest(t)) && |Rest(t)| < |Rest(s)|
  {
    var start := s.(prefixes := []);
    PrefixesAreTail(amd64, start, 0, false);
    var t := PrefixesOf(amd64, start, 0, false);
    hide PrefixesOf;
    assert Rest(start) == Rest(s);
    if t.status == Success && t.nop {
      NoneMissing(Rest(s), Outcome(t.status, false, [], t.state));
    } else if t.status == Success {
      LastIndexStays(amd64, t.state, t.data);
      RexKeepsRest(amd64, t.state, t.data);
      var r := RexOf(amd64, t.state, t.data);
      if r.status == Success {
        OpcodeLeavesOff(d, amd64, r.state, r.first, r.rex, LastIndex(t.state.prefixes));
        var p := OpcodeOf(d, amd64, r.state, r.first, r.rex, LastIndex(t.state.prefixes));
        hide OpcodeOf, RexOf;
        if p.Finished? && p.outcome.status == Success && !p.outcome.broken {
          LeavesOffBehind(Rest(s), Rest(r.state), p.outcome);
        }
      }
    }
  }

  lemma LeavesOffBehind(a: seq<byte>, b: seq<byte>, o: Outcome)
    requires IsTail(a, b) && LeavesOff(b, o)
    ensures LeavesOff(a, o)
    ensures |o.state.window| + |Missing(o)| + |o.state.source.unread| <= |b|
  {
    TailTransitive(a, b, o.state.window + (Missing(o) + o.state.source.unread));
  }

  lemma ParseExLeavesOff(d: Decoder, amd64: bool, s: State)
    requires IsReady(s)
    ensures var o := ParseExOf(d, amd64, s);
            o.status == Success && !o.broken ==> LeavesOff(Rest(s), o) && |Rest(o.state)| + |Missing(o)| < |Rest(s)|
  {
    PreparedLeavesOff(d, amd64, s);
    var p := PreparedOf(d, amd64, s);
    hide PreparedOf;
    if p.Trying? {
      TriedLeavesOff(d, p);
      var o := TriedOutcome(p, TryAllOf(d, p.state.prefixes, p.first, p.tries, p.state.window, p.state.source));
      hide TryAllOf, TriedOutcome;
      if o.status == Success && !o.broken {
        LeavesOffBehind(Rest(s), Rest(p.state), o);
      }
    }
  }

  /** The bytes of the instruction are the next ones. The window begins `lag` bytes before their end, again; the stream
      goes on a window's length behind them. */
  ghost predicate GoesOn(rest: seq<byte>, p: Parsed) {
    var size, window := |p.bytes|, p.state.window;
    && size + |window| <= |rest| && p.lag < size && (window == [] ==> p.lag == 0)
    && p.bytes == rest[..size]
    && window == rest[size - p.lag..size - p.lag + |window|] && p.state.source.unread == rest[size + |window|..]
  }

  /** Every instruction has at least one byte and no more than 15, whatever the stream delivers. */
  lemma ParseGoesOn(d: Decoder, amd64: bool, s: State)
    requires IsReady(s)
    ensures var p := ParseOf(d, amd64, s);
            p.status == Success ==> IsReady(p.state) && 0 < |p.bytes| <= 15 && GoesOn(Rest(s), p)
  {
    hide ParseExOf, LeavesOff, Rest;
    ParseExLeavesOff(d, amd64, s);
    var o := ParseExOf(d, amd64, s);
    if o.status == Success && !o.broken {
      OutcomeGoesOn(Rest(s), o);
    }
    hide GoesOn;
  }

  lemma OutcomeGoesOn(rest: seq<byte>, o: Outcome)
    requires LeavesOff(rest, o) && |Rest(o.state)| + |Missing(o)| < |rest|
    ensures IsReady(o.state)
    ensures GoesOn(rest, Parsed(Success, rest[..|rest| - |Rest(o.state)|], |Missing(o)|, o.state))
  {
    Cut(rest, o.state.window, Missing(o), o.state.source.unread);
  }

  /** Where the parts of a tail are. */
  lemma Cut(rest: seq<byte>, window: seq<byte>, missing: seq<byte>, unread: seq<byte>)
    requires IsTail(rest, window + (missing + unread))
    ensures var size := |rest| - |window| - |unread|;
            && |missing| <= size && size + |window| <= |rest|
            && window == rest[size - |missing|..size - |missing| + |window|] && unread == rest[size + |window|..]
  {
    var tail := rest[|rest| - |window + (missing + unread)|..];
    assert window == tail[..|window|] && unread == tail[|window| + |missing|..];
  }
}
