/** The x86 parser as the program has it (Diana_ParseCmd, Diana_ParseCmdEx, TryMatch, Di_ProcessVexPrefix,
    Di_ProcessEvexPrefix, Diana_ReadCache): a cache of 7 bytes that is refilled, shifted, prefixed with scratch bytes and
    rewritten with virtual bytes in place, over a proxy stream. Each method leaves the state that `X86Model` gives. */
module X86Window {
  import opened Wrappers
  import opened X86Model
  import opened X86Tiling
  import opened X86Runs

  const PROXY_BYTES: nat := 32

  // ------------------------------------------------------------------ streams

  class ReadStream {
    var unread: seq<byte>
    var plan: seq<Reply>

    ghost function Contents(): Source
      reads this
    {
      Source(unread, plan)
    }

    constructor (unread: seq<byte>, plan: seq<Reply>)
      ensures Contents() == Source(unread, plan)
    {
      this.unread, this.plan := unread, plan;
    }

    method Read(n: nat) returns (status: Status, got: seq<byte>)
      modifies this
      ensures Reading(status, got, Contents()) == ReadOf(old(Contents()), n)
    {
      if |plan| == 0 {
        var c := Least(n, |unread|);
        status, got, unread := Success, unread[..c], unread[c..];
        return;
      }
      var reply := plan[0];
      plan := plan[1..];
      match reply {
        case Fails(ends) => return if ends then End else Error, [];
        case Gives(k) =>
          var c := Least(k, Least(n, |unread|));
          status, got, unread := Success, unread[..c], unread[c..];
      }
    }
  }

  /** ProxyDianaReadFnc: counts what one instruction reads, and keeps the bytes. */
  class ProxyStream {
    const original: ReadStream
    var readSize: nat
    var lastBytes: seq<byte>
    ghost const start: seq<byte>                 // what was unread when the instruction began
    ghost var log: seq<byte>                     // what the instruction has read

    ghost predicate Valid()
      reads this, original
    {
      && start == log + original.unread
      && readSize == |log| && (|log| < PROXY_BYTES ==> lastBytes == log)
    }

    ghost function Contents(): Source
      reads original
    {
      original.Contents()
    }

    constructor (original: ReadStream)
      ensures Valid() && log == [] && this.original == original && start == original.unread
    {
      this.original := original;
      start := original.unread;
      readSize, lastBytes, log := 0, [], [];
    }

    method Read(n: nat) returns (status: Status, got: seq<byte>)
      requires Valid()
      modifies this, original
      ensures Valid() && log == old(log) + got
      ensures Reading(status, got, Contents()) == ReadOf(old(Contents()), n)
    {
      status, got := original.Read(n);
      Assoc(log, got, original.unread);
      log := log + got;
      if status == Success {
        if |lastBytes| + |got| < PROXY_BYTES {
          lastBytes := lastBytes + got;
        }
        readSize := readSize + |got|;
      }
    }
  }

  // ------------------------------------------------------------------ the cache

  class Context {
    const cache: array<byte>
    const amd64: bool
    var cacheIt: nat
    var cacheSize: nat
    var prefixes: seq<byte>

    ghost predicate Valid()
      reads this
    {
      cache.Length == CACHE_SIZE && cacheIt + cacheSize <= CACHE_SIZE
    }

    ghost function Window(): (w: seq<byte>)
      requires Valid()
      reads this, cache
      ensures |w| == cacheSize
    {
      cache[cacheIt..cacheIt + cacheSize]
    }

    /** The state of the parser, with what the stream will deliver. */
    ghost function Now(source: Source): (s: State)
      requires Valid()
      reads this, cache
      ensures Fits(s)
    {
      State(cacheIt, Window(), prefixes, source)
    }

    constructor (amd64: bool)
      ensures Valid() && fresh(cache) && this.amd64 == amd64
      ensures cacheIt == RESERVED && Window() == [] && prefixes == []
    {
      this.amd64 := amd64;
      cache := new byte[CACHE_SIZE](_ => 0);
      cacheIt, cacheSize, prefixes := RESERVED, 0, [];
    }

    /** Bytes from a stream go behind the window. */
    method Append(got: seq<byte>)
      requires Valid() && cacheIt + cacheSize + |got| <= CACHE_SIZE
      modifies cache, this`cacheSize
      ensures Valid() && Window() == old(Window()) + got
    {
      var at := cacheIt + cacheSize;
      forall i | 0 <= i < |got| {
        cache[at + i] := got[i];
      }
      cacheSize := cacheSize + |got|;
    }

    /** memmove */
    method Move(from: nat, size: nat)
      requires Valid() && RESERVED + size <= CACHE_SIZE && from + size <= CACHE_SIZE
      modifies cache
      ensures cache[RESERVED..RESERVED + size] == old(cache[from..from + size])
    {
      ghost var moved := cache[from..from + size];
      forall i | 0 <= i < size {
        cache[RESERVED + i] := cache[from + i];
      }
      assert forall k | RESERVED <= k < RESERVED + size :: cache[k] == moved[k - RESERVED];
    }

    /** The window without its first bytes moves to the reserved place. */
    method MoveToReserved(skip: nat)
      requires Valid() && skip <= cacheSize <= CACHE_SIZE - RESERVED + skip
      modifies this`cacheIt, this`cacheSize, cache
      ensures Valid() && cacheIt == RESERVED && Window() == old(Window())[skip..]
    {
      var from, size := cacheIt + skip, cacheSize - skip;
      assert cache[from..from + size] == Window()[skip..];
      Move(from, size);
      cacheIt, cacheSize := RESERVED, size;
    }

    /** Diana_CacheEatOne */
    method EatOne() returns (data: byte)
      requires Valid() && 0 < cacheSize
      modifies this`cacheIt, this`cacheSize
      ensures Valid() && old(Window()) == [data] + Window() && cacheIt == old(cacheIt) + 1
    {
      data := cache[cacheIt];
      cacheIt, cacheSize := cacheIt + 1, cacheSize - 1;
    }

    /** The window ends where it ended before it was added to. */
    method Shrink(size: nat, ghost window: seq<byte>)
      requires Valid() && |window| == size && window <= Window()
      modifies this`cacheSize
      ensures Valid() && Window() == window
    {
      cacheSize := size;
    }

    /** Two virtual bytes before the window. */
    method PutVirtual(first: byte, selector: byte)
      requires Valid() && cacheIt == RESERVED
      modifies this`cacheIt, this`cacheSize, cache
      ensures Valid() && cacheIt == 0 && Window() == [first, selector] + old(Window())
    {
      cache[0], cache[1] := first, selector;
      cacheIt, cacheSize := 0, cacheSize + RESERVED;
    }

    /** The next byte of the instruction. */
    method NextByte(proxy: ProxyStream) returns (status: Status, data: byte)
      requires Valid() && proxy.Valid()
      modifies this`cacheIt, this`cacheSize, cache, proxy, proxy.original
      ensures Valid() && proxy.Valid()
      ensures var read := ReadCacheOf(old(Now(proxy.Contents())), false);
              && status == read.0
              && if status != Success then data == 0 && Now(proxy.Contents()) == read.1
                 else data == read.1.window[0] && Now(proxy.Contents()) == Eaten(read.1)
      ensures RESERVED <= old(cacheIt) ==> RESERVED <= cacheIt
    {
      hide ReadCacheOf;
      data := 0;
      status := ReadCache(proxy, false);
      if status == Success {
        ghost var read := Now(proxy.Contents());
        data := EatOne();
        assert read.window[1..] == Window();
      }
    }

    /** One read behind the window. */
    method Refill(proxy: ProxyStream, n: nat) returns (status: Status)
      requires Valid() && proxy.Valid() && cacheIt + cacheSize + n <= CACHE_SIZE
      modifies this`cacheSize, cache, proxy, proxy.original
      ensures Valid() && proxy.Valid()
      ensures var r := ReadOf(old(proxy.Contents()), n);
              status == r.status && Window() == old(Window()) + r.got && proxy.Contents() == r.source
    {
      var got;
      status, got := proxy.Read(n);
      Append(got);
    }

    /** The window where Diana_ReadCache wants it: at the reserved place, or not at the very end. */
    method Arrange(optimize: bool)
      requires Valid() && (optimize ==> cacheSize <= CACHE_SIZE - RESERVED)
      modifies this`cacheIt, this`cacheSize, cache
      ensures Valid() && Window() == old(Window()) && cacheIt == ArrangedAt(old(cacheIt), optimize)
    {
      ghost var was := Window();
      if optimize {
        MoveToReserved(0);
        assert was[0..] == was;
      }
      if CACHE_SIZE <= cacheIt {
        cacheIt := RESERVED;
        assert was == [];
      }
    }

    /** Diana_ReadCache */
    method ReadCache(proxy: ProxyStream, optimize: bool) returns (status: Status)
      requires Valid() && proxy.Valid() && (optimize ==> cacheSize <= CACHE_SIZE - RESERVED)
      modifies this`cacheIt, this`cacheSize, cache, proxy, proxy.original
      ensures Valid() && proxy.Valid()
      ensures (status, Now(proxy.Contents())) == ReadCacheOf(old(Now(proxy.Contents())), optimize)
    {
      hide ReadOf;
      Arrange(optimize);
      if cacheIt + cacheSize < CACHE_SIZE {
        status := Refill(proxy, CACHE_SIZE - cacheSize - cacheIt);
        if status == Error {
          return;
        }
      }
      status := if cacheSize == 0 then End else Success;
    }
  }

  // ------------------------------------------------------------------ prefixes

  /** A byte that may be a prefix. */
  method TakePrefix(ctx: Context, proxy: ProxyStream, data: byte) returns (status: Status, again: bool)
    requires ctx.Valid() && proxy.Valid() && RESERVED <= ctx.cacheIt
    modifies ctx`cacheIt, ctx`cacheSize, ctx`prefixes, ctx.cache, proxy, proxy.original
    ensures ctx.Valid() && proxy.Valid()
    ensures Taken(status, again, ctx.Now(proxy.Contents())) == TakePrefixOf(ctx.amd64, old(ctx.Now(proxy.Contents())), data)
  {
    if IsLegacyPrefix(data) {
      var inserted := InsertPrefix(ctx.prefixes, data);
      if inserted.None? {
        return Error, false;
      }
      ctx.prefixes := inserted.value;
      return Success, true;
    }
    if IsRex(ctx.amd64, data) {
      var read := ctx.ReadCache(proxy, false);
      return Success, read == Success && IsLegacyPrefix(ctx.cache[ctx.cacheIt]);
    }
    return Success, false;
  }

  /** One turn of the loop over the prefixes: the loop is over, or goes on with `flags`. */
  method ReadPrefix(ctx: Context, proxy: ProxyStream, counter: nat, nopFlags: bool)
    returns (over: bool, status: Status, data: byte, nop: bool, flags: bool)
    requires ctx.Valid() && proxy.Valid() && RESERVED <= ctx.cacheIt && counter <= MAX_PREFIXES
    modifies ctx`cacheIt, ctx`cacheSize, ctx`prefixes, ctx.cache, proxy, proxy.original
    ensures ctx.Valid() && proxy.Valid() && RESERVED <= ctx.cacheIt
    ensures PrefixesOf(ctx.amd64, old(ctx.Now(proxy.Contents())), counter, nopFlags)
            == if over then Prefixed(status, data, nop, ctx.Now(proxy.Contents()))
               else PrefixesOf(ctx.amd64, ctx.Now(proxy.Contents()), counter + 1, flags)
  {
    hide TakePrefixOf, ReadCacheOf, PrefixesOf, Eaten;
    PrefixesStep(ctx.amd64, ctx.Now(proxy.Contents()), counter, nopFlags);
    flags := nopFlags;
    status, data := ctx.NextByte(proxy);
    if status != Success {
      return true, status, 0, false, flags;
    }
    if (counter == 0 || !nopFlags) && data == 0x90 {
      return true, Success, data, true, flags;
    }
    flags := nopFlags || data !in {0x66, 0x67};
    var again;
    status, again := TakePrefix(ctx, proxy, data);
    return status != Success || !again, status, data, false, flags;
  }

  /** The prefixes of an instruction, and the first byte after them. */
  method ReadPrefixes(ctx: Context, proxy: ProxyStream) returns (status: Status, data: byte, nop: bool)
    requires ctx.Valid() && proxy.Valid() && RESERVED <= ctx.cacheIt
    modifies ctx`cacheIt, ctx`cacheSize, ctx`prefixes, ctx.cache, proxy, proxy.original
    ensures ctx.Valid() && proxy.Valid() && RESERVED <= ctx.cacheIt
    ensures Prefixed(status, data, nop, ctx.Now(proxy.Contents()))
            == PrefixesOf(ctx.amd64, old(ctx.Now(proxy.Contents())).(prefixes := []), 0, false)
  {
    hide PrefixesOf;
    ctx.prefixes := [];
    ghost var r := PrefixesOf(ctx.amd64, ctx.Now(proxy.Contents()), 0, false);
    var counter, flags := 0, false;
    while counter <= MAX_PREFIXES
      invariant counter <= MAX_PREFIXES + 1 && ctx.Valid() && proxy.Valid() && RESERVED <= ctx.cacheIt
      invariant r == PrefixesOf(ctx.amd64, ctx.Now(proxy.Contents()), counter, flags)
      decreases MAX_PREFIXES + 1 - counter
    {
      var over;
      over, status, data, nop, flags := ReadPrefix(ctx, proxy, counter, flags);
      if over {
        return;
      }
      counter := counter + 1;
    }
    TooManyPrefixes(ctx.amd64, ctx.Now(proxy.Contents()), counter, flags);
    return Error, 0, false;
  }

  /** A REX prefix, and the window after it. */
  method TakeRex(ctx: Context, data: byte, proxy: ProxyStream) returns (status: Status, first: Option<byte>, rex: byte)
    requires ctx.Valid() && proxy.Valid() && RESERVED <= ctx.cacheIt
    modifies ctx`cacheIt, ctx`cacheSize, ctx`prefixes, ctx.cache, proxy, proxy.original
    ensures ctx.Valid() && proxy.Valid()
    ensures Rexed(status, first, rex, ctx.Now(proxy.Contents())) == RexOf(ctx.amd64, old(ctx.Now(proxy.Contents())), data)
  {
    hide ReadCacheOf;
    first, rex, status := Some(data), 0, Success;
    if IsRex(ctx.amd64, data) {
      var inserted := InsertPrefix(ctx.prefixes, data);
      if inserted.None? {
        return Error, first, rex;
      }
      ctx.prefixes, first, rex := inserted.value, None, data;
    }
    var refilled := ctx.ReadCache(proxy, true);
    if first.None? {
      status := refilled;
    }
  }

  // ------------------------------------------------------------------ one attempt

  lemma LinkUnfolds(d: Decoder, prefixes: seq<byte>, shown: seq<byte>, place: nat, seen: seq<byte>, left: nat, source: Source)
    requires left <= |shown|
    ensures var r, tail := LinkOf(d, prefixes, shown, place, seen, left, source), shown[|shown| - left..];
            match d.link(prefixes, shown, place, seen)
            case Done(yes) => r == Linked(yes, left, seen, source)
            case Want(n) =>
              if n <= left then r == LinkOf(d, prefixes, shown, place, seen + tail[..n], left - n, source)
              else
                var read := ReadOf(source, n - left);
                if read.status != Success || |read.got| < n - left then r == Linked(false, 0, seen, read.source)
                else r == LinkOf(d, prefixes, shown, place, seen + tail + read.got, 0, read.source)
  {
  }

  /** Diana_LinkOperands through a stream proxy: the rest of the window first, then the stream. */
  method LinkOperands(d: Decoder, prefixes: seq<byte>, shown: seq<byte>, place: nat, proxy: ProxyStream)
    returns (ok: bool, left: nat, ghost seen: seq<byte>)
    requires proxy.Valid() && place <= |shown|
    modifies proxy, proxy.original
    ensures proxy.Valid()
    ensures Linked(ok, left, seen, proxy.Contents())
            == LinkOf(d, prefixes, shown, place, [], |shown| - place, old(proxy.Contents()))
  {
    hide LinkOf;
    var all: seq<byte> := [];
    left := |shown| - place;
    ghost var r := LinkOf(d, prefixes, shown, place, [], left, proxy.Contents());
    while true
      invariant proxy.Valid() && left <= |shown|
      invariant r == LinkOf(d, prefixes, shown, place, all, left, proxy.Contents())
      decreases left + |proxy.original.unread|
    {
      LinkUnfolds(d, prefixes, shown, place, all, left, proxy.Contents());
      match d.link(prefixes, shown, place, all) {
        case Done(yes) => return yes, left, all;
        case Want(n) =>
          var tail := shown[|shown| - left..];
          if n <= left {
            all, left := all + tail[..n], left - n;
          } else {
            var status, got := proxy.Read(n - left);
            if status != Success || |got| < n - left {
              return false, 0, all;
            }
            all, left := all + tail + got, 0;
          }
      }
    }
  }

  /** The match over the window and its operands: the window shrinks to what they leave. */
  method Attempt(d: Decoder, ctx: Context, proxy: ProxyStream) returns (ok: bool)
    requires ctx.Valid() && proxy.Valid()
    modifies ctx`cacheIt, ctx`cacheSize, proxy, proxy.original
    ensures ctx.Valid() && proxy.Valid()
    ensures var shown := old(ctx.Window());
            var a := AttemptOf(d, ctx.prefixes, shown, old(proxy.Contents()));
            && ok == a.ok && proxy.Contents() == a.source
            && (ok ==> ctx.Window() == shown[|shown| - a.left..] && ctx.cacheIt == old(ctx.cacheIt) + |shown| - a.left)
  {
    hide LinkOf;
    var shown := ctx.cache[ctx.cacheIt..ctx.cacheIt + ctx.cacheSize];
    var place := MatchOf(d, ctx.prefixes, shown);
    if place.None? {
      return false;
    }
    var left;
    ghost var seen;
    ok, left, seen := LinkOperands(d, ctx.prefixes, shown, place.value, proxy);
    if ok {
      ctx.cacheIt, ctx.cacheSize := ctx.cacheIt + ctx.cacheSize - left, left;
    }
  }

  /** What is in the cache behind the scratch bytes. */
  ghost function AfterScratch(ctx: Context, size: nat): seq<byte>
    requires ctx.Valid() && RESERVED + size <= CACHE_SIZE
    reads ctx, ctx.cache
  {
    ctx.cache[RESERVED..RESERVED + size]
  }

  /** The prefix that is tried and the first byte go to the scratch bytes before the window. */
  method Prepare(ctx: Context, first: Option<byte>, size: nat, current: Option<byte>)
    requires ctx.Valid() && RESERVED + size <= CACHE_SIZE
    modifies ctx`cacheIt, ctx`cacheSize, ctx.cache
    ensures ctx.Valid() && AfterScratch(ctx, size) == old(AfterScratch(ctx, size)) && ctx.cacheIt + ctx.cacheSize == RESERVED + size
    ensures ctx.Window() == Shown(current, first, old(AfterScratch(ctx, size)))
  {
    match first {
      case Some(data) =>
        ctx.cache[1] := data;
        match current {
          case Some(prefix) =>
            ctx.cache[0] := prefix;
            ctx.cacheIt, ctx.cacheSize := 0, size + 2;
          case None =>
            ctx.cacheIt, ctx.cacheSize := 1, size + 1;
        }
      case None =>
        match current {
          case Some(prefix) =>
            ctx.cache[1] := prefix;
            ctx.cacheIt, ctx.cacheSize := 1, size + 1;
          case None =>
            ctx.cacheIt, ctx.cacheSize := RESERVED, size;
        }
    }
  }

  /** TryMatch: the window is rebuilt with the prefix and the first byte in the scratch bytes; a failed attempt puts it
      back, but what its operands read from the stream is gone. */
  method TryMatch(d: Decoder, ctx: Context, first: Option<byte>, size: nat, current: Option<byte>, proxy: ProxyStream)
    returns (ok: bool)
    requires ctx.Valid() && proxy.Valid() && RESERVED + size <= CACHE_SIZE
    modifies ctx`cacheIt, ctx`cacheSize, ctx.cache, proxy, proxy.original
    ensures ctx.Valid() && proxy.Valid() && AfterScratch(ctx, size) == old(AfterScratch(ctx, size))
    ensures var shown := Shown(current, first, old(AfterScratch(ctx, size)));
            var a := AttemptOf(d, ctx.prefixes, shown, old(proxy.Contents()));
            && ok == a.ok && proxy.Contents() == a.source
            && if ok then ctx.Window() == shown[|shown| - a.left..] && ctx.cacheIt == RESERVED + size - a.left
               else ctx.cacheIt == RESERVED && ctx.cacheSize == size
  {
    hide AttemptOf, Shown;
    Prepare(ctx, first, size, current);
    ok := Attempt(d, ctx, proxy);
    if !ok {
      ctx.cacheIt, ctx.cacheSize := RESERVED, size;
    }
  }

  /** The attempts from the k-th on. */
  ghost function TryFrom(d: Decoder, prefixes: seq<byte>, first: Option<byte>, tries: seq<Option<byte>>, k: nat,
                         window: seq<byte>, source: Source): (r: Tried)
    requires k <= |tries|
    ensures r.left <= |r.shown|
  {
    TryAllOf(d, prefixes, first, tries[k..], window, source)
  }

  /** They differ in what was lost before. */
  ghost predicate EndsAs(a: Tried, b: Tried) {
    a.ok == b.ok && a.left == b.left && a.shown == b.shown && a.source == b.source
  }

  lemma TryFromStart(d: Decoder, prefixes: seq<byte>, first: Option<byte>, tries: seq<Option<byte>>, window: seq<byte>,
                     source: Source)
    ensures TryFrom(d, prefixes, first, tries, 0, window, source) == TryAllOf(d, prefixes, first, tries, window, source)
    ensures TryFrom(d, prefixes, first, tries, |tries|, window, source) == Tried(false, 0, [], [], [], source)
  {
    assert tries[0..] == tries && tries[|tries|..] == [];
  }

  lemma TryFromUnfolds(d: Decoder, prefixes: seq<byte>, first: Option<byte>, tries: seq<Option<byte>>, k: nat,
                       window: seq<byte>, source: Source)
    requires k < |tries|
    ensures var shown := Shown(tries[k], first, window);
            var a, r := AttemptOf(d, prefixes, shown, source), TryFrom(d, prefixes, first, tries, k, window, source);
            EndsAs(r, if a.ok then Tried(true, a.left, a.seen, shown, [], a.source)
                      else TryFrom(d, prefixes, first, tries, k + 1, window, a.source))
  {
    hide AttemptOf, Shown;
    assert tries[k..][0] == tries[k] && tries[k..][1..] == tries[k + 1..];
  }

  /** The attempts of the legacy encodings, in order. */
  method TryAll(d: Decoder, ctx: Context, first: Option<byte>, tries: seq<Option<byte>>, proxy: ProxyStream)
    returns (ok: bool, ghost r: Tried)
    requires ctx.Valid() && proxy.Valid() && ctx.cacheIt == RESERVED
    modifies ctx`cacheIt, ctx`cacheSize, ctx.cache, proxy, proxy.original
    ensures ctx.Valid() && proxy.Valid()
    ensures r == TryAllOf(d, ctx.prefixes, first, tries, old(ctx.Window()), old(proxy.Contents()))
    ensures ok == r.ok && proxy.Contents() == r.source
    ensures ok ==> ctx.Window() == r.shown[|r.shown| - r.left..]
                   && ctx.cacheIt == RESERVED + old(ctx.cacheSize) - r.left
    ensures !ok ==> ctx.cacheIt == RESERVED && ctx.Window() == old(ctx.Window())
  {
    hide AttemptOf, TryAllOf, TryFrom, Shown, Drawn;
    var size := ctx.cacheSize;
    ghost var window := ctx.Window();
    r := TryAllOf(d, ctx.prefixes, first, tries, window, proxy.Contents());
    TryFromStart(d, ctx.prefixes, first, tries, window, proxy.Contents());
    var k := 0;
    while k < |tries|
      invariant 0 <= k <= |tries| && ctx.Valid() && proxy.Valid() && ctx.cacheIt == RESERVED && ctx.cacheSize == size
      invariant AfterScratch(ctx, size) == window
      invariant EndsAs(r, TryFrom(d, ctx.prefixes, first, tries, k, window, proxy.Contents()))
    {
      TryFromUnfolds(d, ctx.prefixes, first, tries, k, window, proxy.Contents());
      ok := TryMatch(d, ctx, first, size, tries[k], proxy);
      if ok {
        return;
      }
      k := k + 1;
    }
    TryFromStart(d, ctx.prefixes, first, tries, window, proxy.Contents());
    ok := false;
  }

  // ------------------------------------------------------------------ VEX and EVEX

  /** Reads until the window has `need` bytes. */
  method Fill(ctx: Context, proxy: ProxyStream, need: nat) returns (status: Status, dry: bool)
    requires ctx.Valid() && proxy.Valid() && ctx.cacheIt + need <= CACHE_SIZE
    modifies ctx`cacheSize, ctx.cache, proxy, proxy.original
    ensures ctx.Valid() && proxy.Valid()
    ensures Filled(status, dry, ctx.Now(proxy.Contents())) == FillOf(old(ctx.Now(proxy.Contents())), need)
    ensures old(ctx.Window()) <= ctx.Window()
  {
    ghost var r := FillOf(ctx.Now(proxy.Contents()), need);
    hide Rest;
    while ctx.cacheSize < need
      invariant ctx.Valid() && proxy.Valid() && ctx.cacheIt + need <= CACHE_SIZE
      invariant r == FillOf(ctx.Now(proxy.Contents()), need) && old(ctx.Window()) <= ctx.Window()
      decreases need - ctx.cacheSize
    {
      var had := ctx.cacheSize;
      status := ctx.Refill(proxy, need - ctx.cacheSize);
      if status != Success || ctx.cacheSize == had {
        return status, status == Success;
      }
    }
    return Success, false;
  }

  lemma VirtualUnfolds(s: State, skip: nat, first: byte, selector: byte)
    requires Fits(s) && s.at == RESERVED && skip <= |s.window|
    ensures var kept := s.window[skip..];
            var r := ReadOf(s.source, CACHE_SIZE - RESERVED - |kept|);
            VirtualOf(s, skip, first, selector)
            == if RESERVED + |kept| < CACHE_SIZE then State(0, [first, selector] + (kept + r.got), s.prefixes, r.source)
               else State(0, [first, selector] + kept, s.prefixes, s.source)
  {
    var kept := s.window[skip..];
    hide ReadOf, Rest;
    assert kept + [] == kept;
  }

  /** The virtual bytes replace the real prefix: `skip` bytes of the window, then the top-up. */
  method Virtualize(ctx: Context, skip: nat, first: byte, selector: byte, proxy: ProxyStream)
    requires ctx.Valid() && proxy.Valid() && skip <= ctx.cacheSize && RESERVED == ctx.cacheIt
    modifies ctx`cacheIt, ctx`cacheSize, ctx.cache, proxy, proxy.original
    ensures ctx.Valid() && proxy.Valid()
    ensures ctx.Now(proxy.Contents()) == VirtualOf(old(ctx.Now(proxy.Contents())), skip, first, selector)
  {
    hide VirtualOf, ReadOf;
    VirtualUnfolds(ctx.Now(proxy.Contents()), skip, first, selector);
    ctx.MoveToReserved(skip);
    if RESERVED + ctx.cacheSize < CACHE_SIZE {
      var _ := ctx.Refill(proxy, CACHE_SIZE - RESERVED - ctx.cacheSize);
    }
    ctx.PutVirtual(first, selector);
  }

  /** Di_ProcessVexPrefix, after C5 or C4. */
  method ProcessVex(ctx: Context, data: byte, proxy: ProxyStream) returns (status: Status, found: bool)
    requires ctx.Valid() && proxy.Valid() && IsVex(data) && ctx.cacheIt == RESERVED
    modifies ctx`cacheIt, ctx`cacheSize, ctx.cache, proxy, proxy.original
    ensures ctx.Valid() && proxy.Valid()
    ensures Wide(status, found, ctx.Now(proxy.Contents())) == VexOf(ctx.amd64, old(ctx.Now(proxy.Contents())), data)
  {
    hide FillOf, VirtualOf, Rest;
    var need := VexLength(data);
    var dry, had := false, ctx.cacheSize;
    ghost var window := ctx.Window();
    status, dry := Fill(ctx, proxy, need);
    if status != Success {
      ctx.Shrink(had, window);
      return status, false;
    }
    if dry {
      // a cut prefix, or les outside 64-bit mode
      return if need == 1 || ctx.amd64 then Error else Success, false;
    }
    var b2 := ctx.cache[RESERVED];
    if !ctx.amd64 && b2 < 0xC0 {
      return Success, false;
    }
    var selector := VexSelector(b2, 0);
    if need == 2 {
      var place := b2 % 32;
      if place < 1 || 3 < place {
        return Error, false;
      }
      selector := VexSelector(ctx.cache[RESERVED + 1], place - 1);
    }
    Virtualize(ctx, need, 0xC5, selector, proxy);
    return Success, true;
  }

  /** Di_ProcessEvexPrefix, after 62. */
  method ProcessEvex(ctx: Context, proxy: ProxyStream) returns (status: Status, found: bool)
    requires ctx.Valid() && proxy.Valid() && ctx.cacheIt == RESERVED
    modifies ctx`cacheIt, ctx`cacheSize, ctx.cache, proxy, proxy.original
    ensures ctx.Valid() && proxy.Valid()
    ensures Wide(status, found, ctx.Now(proxy.Contents())) == EvexOf(ctx.amd64, old(ctx.Now(proxy.Contents())))
  {
    hide FillOf, VirtualOf, Rest, Bit, EvexSelector;
    var dry, had := false, ctx.cacheSize;
    ghost var window := ctx.Window();
    status, dry := Fill(ctx, proxy, 5);
    if status != Success {
      ctx.Shrink(had, window);
      return status, false;
    }
    if ctx.cacheSize < 1 || (!ctx.amd64 && ctx.cache[RESERVED] < 0xC0) {
      return if ctx.amd64 && ctx.cacheSize < 1 then Error else Success, false;
    }
    if ctx.cacheSize < 4 {
      return Error, false;
    }
    var p0, p1, p2 := ctx.cache[RESERVED], ctx.cache[RESERVED + 1], ctx.cache[RESERVED + 2];
    if Bit(p0, 3) == 1 || Bit(p1, 2) == 0 || p0 % 8 in {0, 4, 7} || (!ctx.amd64 && Bit(p2, 3) == 0) {
      return Error, false;
    }
    var isRegister := 5 <= ctx.cacheSize && 0xC0 <= ctx.cache[RESERVED + 4];
    Virtualize(ctx, 3, 0x62, EvexSelector(p0, p1, p2, isRegister), proxy);
    return Success, true;
  }

  // ------------------------------------------------------------------ one instruction

  /** The program did what the outcome says; what a failure leaves in the cache is not used again. */
  ghost predicate Does(o: Outcome, status: Status, broken: bool, s: State) {
    status == o.status && (status == Success ==> broken == o.broken && s == o.state)
  }

  /** The match and the operands behind virtual bytes. */
  method ParseVirtual(d: Decoder, ctx: Context, proxy: ProxyStream) returns (status: Status, broken: bool)
    requires ctx.Valid() && proxy.Valid() && ctx.cacheIt == 0 && RESERVED <= ctx.cacheSize
    modifies ctx`cacheIt, ctx`cacheSize, proxy, proxy.original
    ensures ctx.Valid() && proxy.Valid()
    ensures Does(ParseVirtualOf(d, old(ctx.Now(proxy.Contents()))), status, broken, ctx.Now(proxy.Contents()))
  {
    hide AttemptOf;
    // 66, F2, F3 and LOCK before VEX and EVEX
    if 0x66 in ctx.prefixes || 0xF2 in ctx.prefixes || 0xF3 in ctx.prefixes || 0xF0 in ctx.prefixes {
      return Error, false;
    }
    ghost var s, a := ctx.Now(proxy.Contents()), AttemptOf(d, ctx.prefixes, ctx.Window(), proxy.Contents());
    var ok := Attempt(d, ctx, proxy);
    if ok {
      assert ctx.Now(proxy.Contents()) == LeftOf(s, |s.window|, s.window, a.left, a.source);
    }
    return if ok then Success else Error, ctx.cacheIt < RESERVED;
  }

  /** The legacy encodings. */
  method ParseLegacy(d: Decoder, ctx: Context, first: Option<byte>, tries: seq<Option<byte>>, proxy: ProxyStream)
    returns (status: Status, broken: bool)
    requires ctx.Valid() && proxy.Valid() && ctx.cacheIt == RESERVED
    modifies ctx`cacheIt, ctx`cacheSize, ctx.cache, proxy, proxy.original
    ensures ctx.Valid() && proxy.Valid()
    ensures var s := old(ctx.Now(proxy.Contents()));
            Does(TriedOutcome(Trying(first, tries, s), TryAllOf(d, s.prefixes, first, tries, s.window, s.source)),
                 status, broken, ctx.Now(proxy.Contents()))
  {
    hide TryAllOf;
    var ok;
    ghost var r;
    ok, r := TryAll(d, ctx, first, tries, proxy);
    if !ok && first.None? && ctx.cacheSize != 0 {
      var _ := ctx.EatOne();
    }
    return if ok then Success else Error, ctx.cacheIt < RESERVED;
  }

  /** The outcome of what is prepared. */
  ghost function Completed(d: Decoder, p: Prepared): Outcome
    requires p.Trying? ==> Fits(p.state) && p.state.at == RESERVED
  {
    match p
    case Finished(o) => o
    case Trying(first, tries, t) => TriedOutcome(p, TryAllOf(d, t.prefixes, first, tries, t.window, t.source))
  }

  /** What OpcodeOf says after 62, C4 and C5. */
  ghost function WideOf(d: Decoder, amd64: bool, s: State, data: byte, last: Option<nat>): (p: Prepared)
    requires Fits(s) && s.at == RESERVED && (last.Some? ==> last.value < |s.prefixes|) && (data == 0x62 || IsVex(data))
    ensures p.Trying? ==> Fits(p.state) && p.state.at == RESERVED
  {
    var w := if data == 0x62 then EvexOf(amd64, s) else VexOf(amd64, s, data);
    if w.status != Success then Finished(Outcome(w.status, false, [], w.state))
    else if w.found then Finished(ParseVirtualOf(d, w.state))
    else Trying(Some(data), Tries(s.prefixes, last), w.state)
  }

  /** VEX and EVEX, and what begins like them. */
  method ParseWide(d: Decoder, ctx: Context, data: byte, last: Option<nat>, proxy: ProxyStream)
    returns (status: Status, broken: bool)
    requires ctx.Valid() && proxy.Valid() && ctx.cacheIt == RESERVED && (last.Some? ==> last.value < |ctx.prefixes|)
    requires data == 0x62 || IsVex(data)
    modifies ctx`cacheIt, ctx`cacheSize, ctx.cache, proxy, proxy.original
    ensures ctx.Valid() && proxy.Valid()
    ensures Does(Completed(d, WideOf(d, ctx.amd64, old(ctx.Now(proxy.Contents())), data, last)),
                 status, broken, ctx.Now(proxy.Contents()))
  {
    hide EvexOf, VexOf, ParseVirtualOf, TriedOutcome, TryAllOf, Tries, Rest;
    var found;
    if data == 0x62 {
      status, found := ProcessEvex(ctx, proxy);
    } else {
      status, found := ProcessVex(ctx, data, proxy);
    }
    if status != Success {
      return status, false;
    }
    if found {
      status, broken := ParseVirtual(d, ctx, proxy);
      return;
    }
    status, broken := ParseLegacy(d, ctx, Some(data), Tries(ctx.prefixes, last), proxy);
  }

  /** The instruction after its prefixes. */
  method ParseOpcode(d: Decoder, ctx: Context, first: Option<byte>, rex: byte, last: Option<nat>, proxy: ProxyStream)
    returns (status: Status, broken: bool)
    requires ctx.Valid() && proxy.Valid() && ctx.cacheIt == RESERVED && (last.Some? ==> last.value < |ctx.prefixes|)
    modifies ctx`cacheIt, ctx`cacheSize, ctx.cache, proxy, proxy.original
    ensures ctx.Valid() && proxy.Valid()
    ensures Does(Completed(d, OpcodeOf(d, ctx.amd64, old(ctx.Now(proxy.Contents())), first, rex, last)),
                 status, broken, ctx.Now(proxy.Contents()))
  {
    hide EvexOf, VexOf, ParseVirtualOf, TriedOutcome, TryAllOf, Tries, Bit;
    // REX right before VEX or EVEX
    if first.None? && ctx.cacheSize != 0 && (IsVex(ctx.cache[ctx.cacheIt]) || ctx.cache[ctx.cacheIt] == 0x62) {
      return Error, false;
    }
    var op := if first.Some? then first.value as int else if ctx.cacheSize != 0 then ctx.cache[ctx.cacheIt] else -1;
    if op == 0x90 && 0xF3 !in ctx.prefixes && Bit(rex, 0) == 0 {
      if first.None? {
        var _ := ctx.EatOne();
      }
      return Success, false;
    }
    if first.Some? && (first.value == 0x62 || IsVex(first.value)) {
      status, broken := ParseWide(d, ctx, first.value, last, proxy);
      return;
    }
    status, broken := ParseLegacy(d, ctx, first, Tries(ctx.prefixes, last), proxy);
  }

  /** Diana_ParseCmdEx */
  method ParseCmdEx(d: Decoder, ctx: Context, proxy: ProxyStream) returns (status: Status, broken: bool)
    requires ctx.Valid() && proxy.Valid() && RESERVED <= ctx.cacheIt
    modifies ctx`cacheIt, ctx`cacheSize, ctx`prefixes, ctx.cache, proxy, proxy.original
    ensures ctx.Valid() && proxy.Valid()
    ensures Does(ParseExOf(d, ctx.amd64, old(ctx.Now(proxy.Contents()))), status, broken, ctx.Now(proxy.Contents()))
  {
    hide PrefixesOf, RexOf, OpcodeOf, TriedOutcome, TryAllOf;
    var data, nop;
    status, data, nop := ReadPrefixes(ctx, proxy);
    if status != Success || nop {
      return status, false;
    }
    var last := if |ctx.prefixes| == 0 then None else Some(|ctx.prefixes| - 1);
    LastIndexStays(ctx.amd64, ctx.Now(proxy.Contents()), data);
    var first, rex;
    status, first, rex := TakeRex(ctx, data, proxy);
    if status != Success {
      return status, false;
    }
    status, broken := ParseOpcode(d, ctx, first, rex, last, proxy);
  }

  // ------------------------------------------------------------------ Diana_ParseCmd

  /** Diana_ParseCmd: the size and the bytes of the instruction, out of the old cache and of what was read. */
  method ParseCmd(d: Decoder, ctx: Context, stream: ReadStream) returns (status: Status, size: nat, bytes: seq<byte>)
    requires ctx.Valid() && RESERVED <= ctx.cacheIt
    modifies ctx`cacheIt, ctx`cacheSize, ctx`prefixes, ctx.cache, stream
    ensures ctx.Valid()
    ensures var p := ParseOf(d, ctx.amd64, old(ctx.Now(stream.Contents())));
            && status == p.status
            && (status == Success ==> bytes == p.bytes && size == |p.bytes| && ctx.Now(stream.Contents()) == p.state)
  {
    hide ParseExOf, GoesOn, LeavesOff;
    ghost var s := ctx.Now(stream.Contents());
    ParseExLeavesOff(d, ctx.amd64, s);
    var before := ctx.cache[ctx.cacheIt..ctx.cacheIt + ctx.cacheSize];
    var proxy := new ProxyStream(stream);
    var broken;
    status, broken := ParseCmdEx(d, ctx, proxy);
    size, bytes := 0, [];
    if status != Success || broken {
      status := if status == Success then Error else status;
      return;
    }
    assert Rest(s) == before + (proxy.log + stream.unread);
    Assoc(before, proxy.log, stream.unread);
    var all := |before| + proxy.readSize - ctx.cacheSize;
    if MAX_INSTRUCTION_SIZE < all {
      status := Error;
      return;
    }
    size := all;
    bytes := CopyBytes(before, proxy, size, ctx.cacheSize);
  }

  /** The bytes of the instruction: what was in the window before, then what was read. */
  method CopyBytes(before: seq<byte>, proxy: ProxyStream, size: nat, left: nat) returns (bytes: seq<byte>)
    requires proxy.Valid() && size == |before| + |proxy.log| - left && size <= MAX_INSTRUCTION_SIZE && left <= CACHE_SIZE
    ensures bytes == (before + proxy.log)[..size]
  {
    if size <= |before| {
      bytes := before[..size];
    } else {
      bytes := before + proxy.lastBytes[..proxy.readSize - left];
    }
  }

  /** Consecutive instructions, up to the first that fails. */
  method ParseLoop(d: Decoder, ctx: Context, stream: ReadStream, count: nat)
    returns (status: Status, instructions: seq<seq<byte>>)
    requires ctx.Valid() && RESERVED <= ctx.cacheIt
    modifies ctx`cacheIt, ctx`cacheSize, ctx`prefixes, ctx.cache, stream
    ensures ctx.Valid()
    ensures var r := ParseAllOf(d, ctx.amd64, old(ctx.Now(stream.Contents())), count);
            && status == r.status && instructions == r.instructions
            && (status == Success ==> ctx.Now(stream.Contents()) == r.state)
  {
    hide ParseOf, ParseAllOf;
    ghost var r := ParseAllOf(d, ctx.amd64, ctx.Now(stream.Contents()), count);
    instructions := [];
    RunBegins(r);
    var k := 0;
    while k < count
      invariant k <= count && ctx.Valid() && RESERVED <= ctx.cacheIt
      invariant r == After(instructions, ParseAllOf(d, ctx.amd64, ctx.Now(stream.Contents()), count - k))
    {
      RunStep(d, ctx.amd64, ctx.Now(stream.Contents()), count - k, instructions);
      var size, bytes;
      status, size, bytes := ParseCmd(d, ctx, stream);
      if status != Success {
        return;
      }
      instructions, k := instructions + [bytes], k + 1;
    }
    status := Success;
    RunEnds(d, ctx.amd64, ctx.Now(stream.Contents()), instructions);
  }

  /** Wherever the decoder is clear ahead, the bytes of the instructions are the next ones of the stream, and the window
      and what is unread are the rest. */
  method ParseAll(d: Decoder, ctx: Context, stream: ReadStream, count: nat)
    returns (status: Status, instructions: seq<seq<byte>>)
    requires ctx.Valid() && RESERVED <= ctx.cacheIt
    modifies ctx`cacheIt, ctx`cacheSize, ctx`prefixes, ctx.cache, stream
    ensures ctx.Valid()
    ensures var r := ParseAllOf(d, ctx.amd64, old(ctx.Now(stream.Contents())), count);
            && status == r.status && instructions == r.instructions
            && (status == Success ==> ctx.Now(stream.Contents()) == r.state)
    ensures status == Success && ClearAhead(d, ctx.amd64, old(ctx.Now(stream.Contents())), count) ==>
              Rest(old(ctx.Now(stream.Contents()))) == Flat(instructions) + Rest(ctx.Now(stream.Contents()))
  {
    hide ParseAllOf, ClearAhead, Rest, Flat;
    ghost var s := ctx.Now(stream.Contents());
    status, instructions := ParseLoop(d, ctx, stream, count);
    if ClearAhead(d, ctx.amd64, s, count) {
      ClearRunTiles(d, ctx.amd64, s, count);
    }
  }
}
