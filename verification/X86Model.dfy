/** The x86 parser as a function of its byte window and of what the stream delivers (Diana_ParseCmd, Diana_ParseCmdEx,
    TryMatch, Di_ProcessVexPrefix, Di_ProcessEvexPrefix, Diana_ReadCache).

    The tables and the operand handlers are a `Decoder`: what matches the bytes that are shown to it, and what the
    operands still want to read after the bytes they have seen. A stream is its bytes and a plan of what each read
    does: any chunking, and failures. */
module X86Model {
  import opened Wrappers

  const CACHE_SIZE: nat := 7
  const RESERVED: nat := 2
  const MAX_INSTRUCTION_SIZE: nat := 15
  const MAX_PREFIXES: nat := 14

  type byte = b: int | 0 <= b < 256
  type positive = n: int | 0 < n witness 1

  /** DI_SUCCESS, DI_END, and every other code. */
  datatype Status = Success | End | Error

  datatype LinkStep = Want(n: positive) | Done(ok: bool)

  /** `matches` gives the place of the last matched byte of those shown; `link` is asked again after every read. */
  datatype Decoder = Decoder(
    matches: (seq<byte>, seq<byte>) -> Option<nat>,
    link: (seq<byte>, seq<byte>, nat, seq<byte>) -> LinkStep)

  // ------------------------------------------------------------------ streams

  /** What a read does: it fails, or delivers no more than so many bytes. */
  datatype Reply = Fails(ends: bool) | Gives(k: nat)

  /** When the plan is over, each read delivers all it can, as that of a memory stream does. */
  datatype Source = Source(unread: seq<byte>, plan: seq<Reply>)

  datatype Reading = Reading(status: Status, got: seq<byte>, source: Source)

  function Least(a: nat, b: nat): nat {
    if a < b then a else b
  }

  function ReadOf(s: Source, n: nat): (r: Reading)
    ensures s.unread == r.got + r.source.unread && |r.got| <= n && (r.status != Success ==> r.got == [])
  {
    if |s.plan| == 0 then
      var c := Least(n, |s.unread|);
      Reading(Success, s.unread[..c], Source(s.unread[c..], []))
    else
      match s.plan[0]
      case Fails(ends) => Reading(if ends then End else Error, [], Source(s.unread, s.plan[1..]))
      case Gives(k) =>
        var c := Least(k, Least(n, |s.unread|));
        Reading(Success, s.unread[..c], Source(s.unread[c..], s.plan[1..]))
  }

  lemma Assoc(a: seq<byte>, b: seq<byte>, c: seq<byte>)
    ensures (a + b) + c == a + (b + c)
  {
  }

  // ------------------------------------------------------------------ the window

  /** The window begins `at` a place of the cache of 7 bytes. */
  datatype State = State(at: nat, window: seq<byte>, prefixes: seq<byte>, source: Source)

  predicate Fits(s: State) {
    s.at + |s.window| <= CACHE_SIZE
  }

  /** Where an instruction can begin: behind the scratch bytes. */
  predicate IsReady(s: State) {
    Fits(s) && RESERVED <= s.at
  }

  /** What is still to be parsed. */
  function Rest(s: State): seq<byte> {
    s.window + s.source.unread
  }

  function ArrangedAt(at: nat, optimize: bool): nat {
    var a := if optimize then RESERVED else at;
    if CACHE_SIZE <= a then RESERVED else a
  }

  /** Diana_ReadCache */
  function ReadCacheOf(s: State, optimize: bool): (r: (Status, State))
    requires Fits(s) && (optimize ==> |s.window| <= CACHE_SIZE - RESERVED)
    ensures Fits(r.1) && (IsReady(s) || optimize ==> IsReady(r.1)) && r.1.prefixes == s.prefixes
    ensures r.0 == Success ==> r.1.window != []
    ensures optimize ==> r.1.at == RESERVED
  {
    var at := ArrangedAt(s.at, optimize);
    if at + |s.window| < CACHE_SIZE then
      var r := ReadOf(s.source, CACHE_SIZE - |s.window| - at);
      var next := State(at, s.window + r.got, s.prefixes, r.source);
      (if r.status == Error then Error else if next.window == [] then End else Success, next)
    else
      (if s.window == [] then End else Success, s.(at := at))
  }

  /** Diana_CacheEatOne */
  function Eaten(s: State): State
    requires s.window != []
  {
    s.(at := s.at + 1, window := s.window[1..])
  }

  // ------------------------------------------------------------------ prefixes

  predicate IsLegacyPrefix(data: byte) {
    data in {0xF3, 0xF2, 0xF0, 0x2E, 0x36, 0x3E, 0x26, 0x64, 0x65, 0x66, 0x67}
  }

  predicate IsRex(amd64: bool, data: byte) {
    amd64 && 0x40 <= data <= 0x4F
  }

  predicate IsVex(data: byte) {
    data == 0xC4 || data == 0xC5
  }

  /** `prefixes` without `prefix`. */
  function Without(prefixes: seq<byte>, prefix: byte): (r: seq<byte>)
    ensures |r| == (if prefix in prefixes then |prefixes| - 1 else |prefixes|)
  {
    if |prefixes| == 0 then []
    else if prefixes[0] == prefix then prefixes[1..]
    else [prefixes[0]] + Without(prefixes[1..], prefix)
  }

  /** Diana_InsertPrefix: a repeated prefix moves to the end. */
  function InsertPrefix(prefixes: seq<byte>, prefix: byte): Option<seq<byte>> {
    if MAX_PREFIXES <= |prefixes| then None else Some(Without(prefixes, prefix) + [prefix])
  }

  /** The last of the prefixes that is one of `wanted`. */
  function LastOf(prefixes: seq<byte>, wanted: set<byte>): (r: Option<nat>)
    ensures r.Some? ==> r.value < |prefixes| && prefixes[r.value] in wanted
    ensures r.Some? ==> forall k | r.value < k < |prefixes| :: prefixes[k] !in wanted
    ensures r.None? ==> forall k | 0 <= k < |prefixes| :: prefixes[k] !in wanted
  {
    if |prefixes| == 0 then None
    else if prefixes[|prefixes| - 1] in wanted then Some(|prefixes| - 1)
    else LastOf(prefixes[..|prefixes| - 1], wanted)
  }

  /** A byte that may be a prefix: another one may come `again` after it. */
  datatype Taken = Taken(status: Status, again: bool, state: State)

  function TakePrefixOf(amd64: bool, s: State, data: byte): (r: Taken)
    requires IsReady(s)
    ensures IsReady(r.state)
  {
    if IsLegacyPrefix(data) then
      match InsertPrefix(s.prefixes, data)
      case None => Taken(Error, false, s)
      case Some(prefixes) => Taken(Success, true, s.(prefixes := prefixes))
    else if IsRex(amd64, data) then
      // dropped if a legacy prefix follows
      var r := ReadCacheOf(s, false);
      Taken(Success, r.0 == Success && IsLegacyPrefix(r.1.window[0]), r.1)
    else Taken(Success, false, s)
  }

  /** The prefixes of an instruction, and the first byte after them. `nop`: a 90 that needs no tables. */
  datatype Prefixed = Prefixed(status: Status, data: byte, nop: bool, state: State)

  function PrefixesOf(amd64: bool, s: State, counter: nat, nopFlags: bool): (r: Prefixed)
    requires IsReady(s)
    ensures IsReady(r.state)
    decreases MAX_PREFIXES + 1 - counter
  {
    if MAX_PREFIXES < counter then Prefixed(Error, 0, false, s)
    else
      var read := ReadCacheOf(s, false);
      if read.0 != Success then Prefixed(read.0, 0, false, read.1)
      else
        var data, next := read.1.window[0], Eaten(read.1);
        if (counter == 0 || !nopFlags) && data == 0x90 then Prefixed(Success, data, true, next)
        else
          var t := TakePrefixOf(amd64, next, data);
          if t.status != Success || !t.again then Prefixed(t.status, data, false, t.state)
          else PrefixesOf(amd64, t.state, counter + 1, nopFlags || data !in {0x66, 0x67})
  }

  /** One turn of the loop over the prefixes. */
  lemma PrefixesStep(amd64: bool, s: State, counter: nat, nopFlags: bool)
    requires IsReady(s) && counter <= MAX_PREFIXES
    ensures var read, r := ReadCacheOf(s, false), PrefixesOf(amd64, s, counter, nopFlags);
            if read.0 != Success then r == Prefixed(read.0, 0, false, read.1)
            else
              var data, next := read.1.window[0], Eaten(read.1);
              var t := TakePrefixOf(amd64, next, data);
              if (counter == 0 || !nopFlags) && data == 0x90 then r == Prefixed(Success, data, true, next)
              else if t.status != Success || !t.again then r == Prefixed(t.status, data, false, t.state)
              else r == PrefixesOf(amd64, t.state, counter + 1, nopFlags || data !in {0x66, 0x67})
  {
  }

  lemma TooManyPrefixes(amd64: bool, s: State, counter: nat, nopFlags: bool)
    requires IsReady(s) && MAX_PREFIXES < counter
    ensures PrefixesOf(amd64, s, counter, nopFlags) == Prefixed(Error, 0, false, s)
  {
  }

  /** A REX prefix, and the window after it. `first`: the first byte, if it is no REX. */
  datatype Rexed = Rexed(status: Status, first: Option<byte>, rex: byte, state: State)

  function RexOf(amd64: bool, s: State, data: byte): (r: Rexed)
    requires IsReady(s)
    ensures r.status == Success ==> Fits(r.state) && r.state.at == RESERVED
  {
    var inserted := if IsRex(amd64, data) then InsertPrefix(s.prefixes, data) else Some(s.prefixes);
    if inserted.None? then Rexed(Error, Some(data), 0, s)
    else
      var read := ReadCacheOf(s.(prefixes := inserted.value), true);
      if IsRex(amd64, data) then Rexed(read.0, None, data, read.1) else Rexed(Success, Some(data), 0, read.1)
  }

  // ------------------------------------------------------------------ one attempt

  /** The operands: what they saw, and how many of the bytes that were shown they left. */
  datatype Linked = Linked(ok: bool, left: nat, seen: seq<byte>, source: Source)

  /** Diana_LinkOperands through a stream proxy: the rest of the window first, then the stream. */
  function LinkOf(d: Decoder, prefixes: seq<byte>, shown: seq<byte>, place: nat, seen: seq<byte>, left: nat, source: Source):
      (r: Linked)
    requires left <= |shown|
    ensures r.left <= left && |r.source.unread| <= |source.unread|
    ensures 0 < r.left ==> r.source == source
    decreases left + |source.unread|
  {
    match d.link(prefixes, shown, place, seen)
    case Done(yes) => Linked(yes, left, seen, source)
    case Want(n) =>
      var tail := shown[|shown| - left..];
      if n <= left then LinkOf(d, prefixes, shown, place, seen + tail[..n], left - n, source)
      else
        var r := ReadOf(source, n - left);
        if r.status != Success || |r.got| < n - left then Linked(false, 0, seen, r.source)
        else LinkOf(d, prefixes, shown, place, seen + tail + r.got, 0, r.source)
  }

  /** Diana_ParseCmdImpl over the bytes that are shown. */
  function MatchOf(d: Decoder, prefixes: seq<byte>, shown: seq<byte>): (r: Option<nat>)
    ensures r.Some? ==> r.value < |shown|
  {
    if |shown| == 0 then None
    else match d.matches(prefixes, shown)
      case None => None
      case Some(k) => if k < |shown| then Some(k) else None
  }

  function AttemptOf(d: Decoder, prefixes: seq<byte>, shown: seq<byte>, source: Source): (r: Linked)
    ensures r.left <= |shown| && |r.source.unread| <= |source.unread|
    ensures r.ok && 0 < r.left ==> r.source == source
  {
    match MatchOf(d, prefixes, shown)
    case None => Linked(false, 0, [], source)
    case Some(place) => LinkOf(d, prefixes, shown, place, [], |shown| - place, source)
  }

  /** The bytes that an attempt drew from the stream. */
  function Drawn(a: Source, b: Source): seq<byte>
    requires |b.unread| <= |a.unread|
  {
    a.unread[..|a.unread| - |b.unread|]
  }

  /** The prefix that is tried and the first byte go to the scratch bytes before the window. */
  function Shown(prefix: Option<byte>, first: Option<byte>, window: seq<byte>): (r: seq<byte>)
    ensures |window| <= |r| <= |window| + RESERVED
  {
    (if prefix.Some? then [prefix.value] else []) + (if first.Some? then [first.value] else []) + window
  }

  // ------------------------------------------------------------------ the legacy encodings

  /** The prefixes that are tried as a part of the opcode, in order: F2 or F3, 66, the last one, none. */
  function Tries(prefixes: seq<byte>, last: Option<nat>): seq<Option<byte>>
    requires last.Some? ==> last.value < |prefixes|
  {
    var rep, op := LastOf(prefixes, {0xF2, 0xF3}), LastOf(prefixes, {0x66});
    (if rep.Some? then [Some(prefixes[rep.value])] else [])
    + (if op.Some? then [Some(prefixes[op.value])] else [])
    + (if last.Some? && last != rep && last != op then [Some(prefixes[last.value])] else [])
    + [None]
  }

  /** A failed attempt restores the cache, but not the stream: `lost` is what the failed attempts drew. `shown` is what
      the attempt that succeeded was shown. */
  datatype Tried = Tried(ok: bool, left: nat, seen: seq<byte>, shown: seq<byte>, lost: seq<byte>, source: Source)

  function TryAllOf(d: Decoder, prefixes: seq<byte>, first: Option<byte>, tries: seq<Option<byte>>, window: seq<byte>,
                    source: Source): (r: Tried)
    ensures r.left <= |r.shown|
    ensures r.ok ==> |window| <= |r.shown| <= |window| + RESERVED
  {
    if |tries| == 0 then Tried(false, 0, [], [], [], source)
    else
      var shown := Shown(tries[0], first, window);
      var a := AttemptOf(d, prefixes, shown, source);
      if a.ok then Tried(true, a.left, a.seen, shown, [], a.source)
      else
        var r := TryAllOf(d, prefixes, first, tries[1..], window, a.source);
        r.(lost := Drawn(source, a.source) + r.lost)
  }

  // ------------------------------------------------------------------ VEX and EVEX

  function Bit(b: byte, n: nat): nat
    requires n <= 7
  {
    var p := [1, 2, 4, 8, 16, 32, 64, 128][n];
    b / p % 2
  }

  /** Reads until the window has `need` bytes; `dry`: the stream had no more. */
  datatype Filled = Filled(status: Status, dry: bool, state: State)

  function FillOf(s: State, need: nat): (r: Filled)
    requires Fits(s) && s.at + need <= CACHE_SIZE
    ensures Fits(r.state) && r.state.at == s.at && r.state.prefixes == s.prefixes
    ensures r.status == Success && !r.dry ==> need <= |r.state.window|
    decreases need - |s.window|
  {
    if need <= |s.window| then Filled(Success, false, s)
    else
      var r := ReadOf(s.source, need - |s.window|);
      var next := s.(window := s.window + r.got, source := r.source);
      if r.status != Success then Filled(r.status, false, next)
      else if r.got == [] then Filled(Success, true, next)
      else FillOf(next, need)
  }

  /** Reading ahead takes nothing. */
  lemma {:induction false} FillKeepsRest(s: State, need: nat)
    requires Fits(s) && s.at + need <= CACHE_SIZE
    ensures Rest(FillOf(s, need).state) == Rest(s)
    decreases need - |s.window|
  {
    if |s.window| < need {
      var r := ReadOf(s.source, need - |s.window|);
      var next := s.(window := s.window + r.got, source := r.source);
      Assoc(s.window, r.got, r.source.unread);
      if r.status == Success && r.got != [] {
        FillKeepsRest(next, need);
      }
    }
  }

  /** Two virtual bytes instead of the first `skip` bytes of the window, which is topped up from the stream. */
  function VirtualOf(s: State, skip: nat, first: byte, selector: byte): (r: State)
    requires Fits(s) && s.at == RESERVED && skip <= |s.window|
    ensures Fits(r) && r.at == 0 && RESERVED <= |r.window| && r.prefixes == s.prefixes
    ensures r.window[..RESERVED] == [first, selector]
    ensures r.window[RESERVED..] + r.source.unread == Rest(s)[skip..]
  {
    var kept := s.window[skip..];
    var r := if RESERVED + |kept| < CACHE_SIZE then ReadOf(s.source, CACHE_SIZE - RESERVED - |kept|)
             else Reading(Success, [], s.source);
    ToppedUp(s, skip, r);
    VirtualFirst(first, selector, kept + r.got);
    State(0, [first, selector] + (kept + r.got), s.prefixes, r.source)
  }

  lemma ToppedUp(s: State, skip: nat, r: Reading)
    requires skip <= |s.window| && s.source.unread == r.got + r.source.unread
    ensures (s.window[skip..] + r.got) + r.source.unread == Rest(s)[skip..]
  {
    Assoc(s.window[skip..], r.got, r.source.unread);
  }

  lemma VirtualFirst(first: byte, selector: byte, rest: seq<byte>)
    ensures ([first, selector] + rest)[..RESERVED] == [first, selector] && ([first, selector] + rest)[RESERVED..] == rest
  {
  }

  /** VEX or EVEX `found`; or not, and what was read is kept. */
  datatype Wide = Wide(status: Status, found: bool, state: State)

  /** pp, map and L of a VEX prefix. */
  function VexSelector(b: byte, map_: nat): (r: byte)
    requires map_ <= 2
    ensures r / 8 == b % 4 && r / 2 % 4 == map_ && r % 2 == b / 4 % 2
  {
    b % 4 * 8 + map_ * 2 + Bit(b, 2)
  }

  /** How many bytes follow the first byte of the prefix. */
  function VexLength(data: byte): nat {
    if data == 0xC5 then 1 else 2
  }

  /** The virtual bytes for the bytes of a VEX prefix after C5 or C4: C5, then L in bit 0, the map in bits 1 and 2 and pp in
      bits 3 and 4. Maps 1, 2 and 3 of C4 are 0F, 0F38 and 0F3A; C5 is always 0F. */
  predicate IsVexFor(prefix: seq<byte>, first: byte, selector: byte)
    requires 1 <= |prefix| <= 2
  {
    var last := prefix[|prefix| - 1];
    && first == 0xC5 && selector / 8 == last % 4 && selector % 2 == last / 4 % 2
    && (if |prefix| == 1 then selector / 2 % 4 == 0 else prefix[0] % 32 == selector / 2 % 4 + 1)
  }

  /** What a VEX prefix leaves: its bytes are gone, and the virtual bytes stand before the rest. */
  predicate IsVexFound(amd64: bool, s: State, data: byte, r: State) {
    var n := VexLength(data);
    && r.at == 0 && RESERVED <= |r.window| && n <= |Rest(s)|
    && IsVexFor(Rest(s)[..n], r.window[0], r.window[1])
    && (amd64 || 0xC0 <= Rest(s)[0]) && (data != 0xC5 ==> 1 <= Rest(s)[0] % 32 <= 3)
    && r.window[RESERVED..] + r.source.unread == Rest(s)[n..]
  }

  /** The bytes that are read ahead are the next ones. */
  lemma FillShows(s: State, need: nat)
    requires Fits(s) && s.at + need <= CACHE_SIZE
    ensures var w := FillOf(s, need).state.window;
            |w| <= |Rest(s)| && forall k | 0 <= k < |w| :: w[k] == Rest(s)[k]
  {
    FillKeepsRest(s, need);
    var r := FillOf(s, need).state;
    assert Rest(r)[..|r.window|] == r.window;
    hide FillOf;
  }

  lemma VexIsFound(amd64: bool, s: State, data: byte, f: Filled, map_: nat)
    requires Fits(s) && s.at == RESERVED && IsVex(data) && f == FillOf(s, VexLength(data)) && f.status == Success && !f.dry
    requires amd64 || 0xC0 <= f.state.window[0]
    requires if data == 0xC5 then map_ == 0 else map_ <= 2 && f.state.window[0] % 32 == map_ + 1
    ensures Rest(f.state) == Rest(s)
    ensures var n := VexLength(data);
            IsVexFound(amd64, s, data, VirtualOf(f.state, n, 0xC5, VexSelector(f.state.window[n - 1], map_)))
  {
    var n := VexLength(data);
    FillKeepsRest(s, n);
    FillShows(s, n);
    var selector := VexSelector(f.state.window[n - 1], map_);
    var r := VirtualOf(f.state, n, 0xC5, selector);
    assert r.window[..RESERVED][0] == 0xC5 && r.window[..RESERVED][1] == selector;
    hide FillOf, VirtualOf, VexSelector;
  }

  /** Di_ProcessVexPrefix, after C5 or C4. Not found: les or lds. When a read fails, what earlier reads delivered is not in
      the window. */
  function VexOf(amd64: bool, s: State, data: byte): (r: Wide)
    requires Fits(s) && s.at == RESERVED && IsVex(data)
    ensures Fits(r.state) && r.state.prefixes == s.prefixes
    ensures !r.found ==> r.state.at == RESERVED && (r.status == Success ==> Rest(r.state) == Rest(s))
    ensures r.found ==> r.status == Success && IsVexFound(amd64, s, data, r.state)
  {
    var need := VexLength(data);
    FillKeepsRest(s, need);
    var f := FillOf(s, need);
    if f.status != Success then Wide(f.status, false, s.(source := f.state.source))
    else if f.dry then Wide(if need == 1 || amd64 then Error else Success, false, f.state)
    else
      var b2 := f.state.window[0];
      if !amd64 && b2 < 0xC0 then Wide(Success, false, f.state)
      else if need == 1 then
        VexIsFound(amd64, s, data, f, 0);
        Wide(Success, true, VirtualOf(f.state, 1, 0xC5, VexSelector(b2, 0)))
      else
        var place := b2 % 32;
        if place < 1 || 3 < place then Wide(Error, false, f.state)
        else
          VexIsFound(amd64, s, data, f, place - 1);
          Wide(Success, true, VirtualOf(f.state, 2, 0xC5, VexSelector(f.state.window[1], place - 1)))
  }

  lemma Packed(pp: nat, map_: nat, length: nat, w: nat)
    requires pp < 4 && map_ < 8 && length < 4 && w < 2
    ensures var r := w * 128 + length * 32 + map_ * 4 + pp;
            r < 256 && r % 4 == pp && r / 4 % 8 == map_ && r / 32 % 4 == length && r / 128 == w
  {
    var r := w * 128 + length * 32 + map_ * 4 + pp;
    assert r / 4 == w * 32 + length * 8 + map_;
    assert r / 32 == w * 4 + length;
  }

  lemma BitsOf(b: byte)
    ensures Bit(b, 2) == b / 4 % 2 && Bit(b, 3) == b / 8 % 2 && Bit(b, 4) == b / 16 % 2
    ensures b % 8 !in {0, 4, 7} <==> b % 8 in {1, 2, 3, 5, 6}
    ensures 0xC0 <= b <==> b / 64 == 3
  {
  }

  /** W, the rounding or L'L, the map and pp of an EVEX prefix. */
  function EvexSelector(p0: byte, p1: byte, p2: byte, isRegister: bool): (r: byte)
    ensures r % 4 == p1 % 4 && r / 4 % 8 == p0 % 8 && r / 128 == p1 / 128
    ensures r / 32 % 4 == if p2 / 16 % 2 == 1 && isRegister then 2 else p2 / 32 % 4
  {
    var length := if Bit(p2, 4) == 1 && isRegister then 2 else p2 / 32 % 4;
    Packed(p1 % 4, p0 % 8, length, Bit(p1, 7));
    Bit(p1, 7) * 128 + length * 32 + p0 % 8 * 4 + p1 % 4
  }

  /** The virtual bytes for the three bytes of an EVEX prefix: 62, then pp in bits 0 and 1, the map in bits 2 to 4, L'L in
      bits 5 and 6, or 512 bits for a rounding, and W in bit 7. */
  predicate IsEvexFor(prefix: seq<byte>, first: byte, selector: byte, rounding: bool)
    requires |prefix| == 3
  {
    && first == 0x62 && selector % 4 == prefix[1] % 4 && selector / 4 % 8 == prefix[0] % 8
    && selector / 32 % 4 == (if rounding then 2 else prefix[2] / 32 % 4) && selector / 128 == prefix[1] / 128
  }

  /** EVEX.b with a ModRM byte of a register form, as far as the parser reads ahead. */
  predicate IsRounding(s: State)
    requires Fits(s) && s.at == RESERVED
  {
    var ahead := FillOf(s, 5).state.window;
    5 <= |ahead| && ahead[2] / 16 % 2 == 1 && ahead[4] / 64 == 3
  }

  /** Which bytes can be an EVEX prefix: bits 3 of the first and 2 of the second are fixed, and so is V' outside AMD64. */
  predicate CanBeEvex(amd64: bool, p0: byte, p1: byte, p2: byte) {
    && (amd64 || (0xC0 <= p0 && p2 / 8 % 2 == 1))
    && p0 / 8 % 2 == 0 && p1 / 4 % 2 == 1 && p0 % 8 in {1, 2, 3, 5, 6}
  }

  /** What an EVEX prefix leaves. */
  predicate IsEvexFound(amd64: bool, s: State, r: State)
    requires Fits(s) && s.at == RESERVED
  {
    && r.at == 0 && RESERVED <= |r.window| && 3 <= |Rest(s)|
    && IsEvexFor(Rest(s)[..3], r.window[0], r.window[1], IsRounding(s))
    && CanBeEvex(amd64, Rest(s)[0], Rest(s)[1], Rest(s)[2])
    && r.window[RESERVED..] + r.source.unread == Rest(s)[3..]
  }

  lemma EvexBits(p0: byte, p1: byte, p2: byte, isRegister: bool)
    ensures IsEvexFor([p0, p1, p2], 0x62, EvexSelector(p0, p1, p2, isRegister), p2 / 16 % 2 == 1 && isRegister)
  {
  }

  lemma CanBeEvexExactly(amd64: bool, p0: byte, p1: byte, p2: byte)
    ensures CanBeEvex(amd64, p0, p1, p2) <==>
            Bit(p0, 3) == 0 && Bit(p1, 2) == 1 && p0 % 8 !in {0, 4, 7} && (amd64 || (0xC0 <= p0 && Bit(p2, 3) == 1))
  {
    BitsOf(p0);
    BitsOf(p1);
    BitsOf(p2);
    hide Bit;
  }

  lemma EvexIsFound(amd64: bool, s: State, f: Filled)
    requires Fits(s) && s.at == RESERVED && f == FillOf(s, 5) && f.status == Success
    requires 4 <= |f.state.window| && CanBeEvex(amd64, f.state.window[0], f.state.window[1], f.state.window[2])
    ensures Rest(f.state) == Rest(s)
    ensures var w := f.state.window;
            IsEvexFound(amd64, s, VirtualOf(f.state, 3, 0x62, EvexSelector(w[0], w[1], w[2], 5 <= |w| && 0xC0 <= w[4])))
  {
    hide Bit, FillOf, EvexSelector, VirtualOf, IsRounding, IsEvexFor, CanBeEvex, IsEvexFound;
    var w := f.state.window;
    var isRegister := 5 <= |w| && 0xC0 <= w[4];
    FillKeepsRest(s, 5);
    FillShows(s, 5);
    RoundingExactly(s);
    EvexBits(w[0], w[1], w[2], isRegister);
    EvexVirtual(amd64, s, f.state, EvexSelector(w[0], w[1], w[2], isRegister));
  }

  lemma RoundingExactly(s: State)
    requires Fits(s) && s.at == RESERVED
    ensures var w := FillOf(s, 5).state.window;
            3 <= |w| ==> (IsRounding(s) <==> w[2] / 16 % 2 == 1 && 5 <= |w| && 0xC0 <= w[4])
  {
    hide FillOf;
  }

  lemma EvexVirtual(amd64: bool, s: State, t: State, selector: byte)
    requires Fits(s) && s.at == RESERVED && Fits(t) && t.at == RESERVED && Rest(t) == Rest(s) && 4 <= |t.window| <= |Rest(s)|
    requires forall k | 0 <= k < |t.window| :: t.window[k] == Rest(s)[k]
    requires CanBeEvex(amd64, t.window[0], t.window[1], t.window[2])
    requires IsEvexFor([t.window[0], t.window[1], t.window[2]], 0x62, selector, IsRounding(s))
    ensures IsEvexFound(amd64, s, VirtualOf(t, 3, 0x62, selector))
  {
    hide IsEvexFor, CanBeEvex, IsRounding, FillOf;
    var r := VirtualOf(t, 3, 0x62, selector);
    hide VirtualOf;
    assert r.window[..RESERVED][0] == r.window[0] && r.window[..RESERVED][1] == r.window[1];
    assert Rest(s)[..3] == [t.window[0], t.window[1], t.window[2]];
  }

  /** Di_ProcessEvexPrefix, after 62. Not found: bound. Failing reads are as in VexOf. */
  function EvexOf(amd64: bool, s: State): (r: Wide)
    requires Fits(s) && s.at == RESERVED
    ensures Fits(r.state) && r.state.prefixes == s.prefixes
    ensures !r.found ==> r.state.at == RESERVED && (r.status == Success ==> Rest(r.state) == Rest(s))
    ensures r.found ==> r.status == Success && IsEvexFound(amd64, s, r.state)
  {
    FillKeepsRest(s, 5);
    var f := FillOf(s, 5);
    var w := f.state.window;
    if f.status != Success then Wide(f.status, false, s.(source := f.state.source))
    else if |w| < 1 || (!amd64 && w[0] < 0xC0) then Wide(if amd64 && |w| < 1 then Error else Success, false, f.state)
    else if |w| < 4 || Bit(w[0], 3) == 1 || Bit(w[1], 2) == 0 || w[0] % 8 in {0, 4, 7} || (!amd64 && Bit(w[2], 3) == 0)
    then Wide(Error, false, f.state)
    else
      var selector := EvexSelector(w[0], w[1], w[2], 5 <= |w| && 0xC0 <= w[4]);
      CanBeEvexExactly(amd64, w[0], w[1], w[2]);
      EvexIsFound(amd64, s, f);
      Wide(Success, true, VirtualOf(f.state, 3, 0x62, selector))
  }

  // ------------------------------------------------------------------ one instruction

  /** `broken`: the operands left scratch or virtual bytes in the window. `lost`: what failed attempts drew. */
  datatype Outcome = Outcome(status: Status, broken: bool, lost: seq<byte>, state: State)

  /** Where the parser is before the legacy attempts: done, or about to try the prefixes. */
  datatype Prepared =
    | Finished(outcome: Outcome)
    | Trying(first: Option<byte>, tries: seq<Option<byte>>, state: State)

  /** The state after operands left `left` of the bytes shown, which end where the window ended. */
  function LeftOf(s: State, end: nat, shown: seq<byte>, left: nat, source: Source): State
    requires left <= |shown| && left <= end
  {
    State(end - left, shown[|shown| - left..], s.prefixes, source)
  }

  /** The match and the operands behind virtual bytes: nothing is tried twice, and 66, F2, F3 and LOCK are no prefixes of
      VEX and EVEX. */
  function ParseVirtualOf(d: Decoder, s: State): (o: Outcome)
    requires Fits(s) && s.at == 0 && RESERVED <= |s.window|
  {
    if 0x66 in s.prefixes || 0xF2 in s.prefixes || 0xF3 in s.prefixes || 0xF0 in s.prefixes then Outcome(Error, false, [], s)
    else
      var a := AttemptOf(d, s.prefixes, s.window, s.source);
      if !a.ok then Outcome(Error, false, [], s)
      else Outcome(Success, |s.window| - RESERVED < a.left, [], LeftOf(s, |s.window|, s.window, a.left, a.source))
  }

  /** An opcode of 90 without F3 and REX.B is nop, whatever its other prefixes are. */
  predicate IsPrefixedNop(s: State, first: Option<byte>, rex: byte) {
    && 0xF3 !in s.prefixes && Bit(rex, 0) == 0
    && (if first.Some? then first.value == 0x90 else s.window != [] && s.window[0] == 0x90)
  }

  /** The instruction after its prefixes, up to the legacy attempts. `last`: the last prefix before REX. */
  function OpcodeOf(d: Decoder, amd64: bool, s: State, first: Option<byte>, rex: byte, last: Option<nat>): (p: Prepared)
    requires Fits(s) && s.at == RESERVED && (last.Some? ==> last.value < |s.prefixes|)
    ensures p.Trying? ==> Fits(p.state) && p.state.at == RESERVED && p.first == first
  {
    // REX right before VEX or EVEX
    if first.None? && s.window != [] && (IsVex(s.window[0]) || s.window[0] == 0x62) then Finished(Outcome(Error, false, [], s))
    else if IsPrefixedNop(s, first, rex) then Finished(Outcome(Success, false, [], if first.None? then Eaten(s) else s))
    else if first.Some? && (first.value == 0x62 || IsVex(first.value)) then
      var w := if first.value == 0x62 then EvexOf(amd64, s) else VexOf(amd64, s, first.value);
      if w.status != Success then Finished(Outcome(w.status, false, [], w.state))
      else if w.found then Finished(ParseVirtualOf(d, w.state))
      else Trying(first, Tries(s.prefixes, last), w.state)
    else Trying(first, Tries(s.prefixes, last), s)
  }

  function LastIndex(prefixes: seq<byte>): Option<nat> {
    if |prefixes| == 0 then None else Some(|prefixes| - 1)
  }

  lemma LastIndexStays(amd64: bool, s: State, data: byte)
    requires IsReady(s)
    ensures var r := RexOf(amd64, s, data);
            r.status == Success && LastIndex(s.prefixes).Some? ==> LastIndex(s.prefixes).value < |r.state.prefixes|
  {
  }

  function PreparedOf(d: Decoder, amd64: bool, s: State): (p: Prepared)
    requires IsReady(s)
    ensures p.Trying? ==> Fits(p.state) && p.state.at == RESERVED
  {
    var t := PrefixesOf(amd64, s.(prefixes := []), 0, false);
    if t.status != Success || t.nop then Finished(Outcome(t.status, false, [], t.state))
    else
      LastIndexStays(amd64, t.state, t.data);
      var r := RexOf(amd64, t.state, t.data);
      if r.status != Success then Finished(Outcome(r.status, false, [], r.state))
      else OpcodeOf(d, amd64, r.state, r.first, r.rex, LastIndex(t.state.prefixes))
  }

  function TriedOutcome(p: Prepared, r: Tried): Outcome
    requires p.Trying? && Fits(p.state) && p.state.at == RESERVED
    requires r.left <= |r.shown| && (r.ok ==> |r.shown| <= |p.state.window| + RESERVED)
  {
    if !r.ok then Outcome(Error, false, r.lost, p.state)
    else
      var size := |p.state.window|;
      Outcome(Success, size < r.left, r.lost, LeftOf(p.state, RESERVED + size, r.shown, r.left, r.source))
  }

  /** Diana_ParseCmdEx */
  function ParseExOf(d: Decoder, amd64: bool, s: State): Outcome
    requires IsReady(s)
  {
    match PreparedOf(d, amd64, s)
    case Finished(o) => o
    case Trying(first, tries, t) =>
      TriedOutcome(Trying(first, tries, t), TryAllOf(d, t.prefixes, first, tries, t.window, t.source))
  }

  /** How many bytes behind the instruction the window lags: what was lost counts only if the window kept bytes. */
  datatype Parsed = Parsed(status: Status, bytes: seq<byte>, lag: nat, state: State)

  /** Diana_ParseCmd: the size is what the window had and what was read, less what is left in the window. Broken results
      and long ones are no instructions. */
  function ParseOf(d: Decoder, amd64: bool, s: State): Parsed
    requires IsReady(s)
  {
    var o := ParseExOf(d, amd64, s);
    var size := |Rest(s)| - |Rest(o.state)|;
    if o.status != Success || o.broken then Parsed(if o.status == Success then Error else o.status, [], 0, o.state)
    else if size < 0 || MAX_INSTRUCTION_SIZE < size then Parsed(Error, [], 0, o.state)
    else Parsed(Success, Rest(s)[..size], if o.state.window == [] then 0 else |o.lost|, o.state)
  }
}
