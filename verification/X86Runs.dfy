/** Consecutive instructions of the x86 parser: when their bytes tile the stream, and what a match sees of it. */
module X86Runs {
  import opened Wrappers
  import opened X86Model
  import opened X86Tiling
  import opened X86Lag

  // ------------------------------------------------------------------ one instruction

  /** The window cannot lag behind the instruction at `s`: it is nop, VEX or EVEX, or no attempt that could fail late
      comes before one that keeps the window. Nothing behind the window matters. */
  ghost predicate ClearAt(d: Decoder, amd64: bool, s: State)
    requires IsReady(s)
  {
    match PreparedOf(d, amd64, s)
    case Finished(_) => true
    case Trying(first, tries, t) => !CanLag(d, t.prefixes, first, tries, t.window)
  }

  lemma ClearNeverLags(d: Decoder, amd64: bool, s: State)
    requires IsReady(s) && ClearAt(d, amd64, s)
    ensures ParseOf(d, amd64, s).lag == 0
  {
    PreparedLeavesOff(d, amd64, s);
    var p := PreparedOf(d, amd64, s);
    hide PreparedOf;
    if p.Trying? {
      var t := p.state;
      var r := TryAllOf(d, t.prefixes, p.first, p.tries, t.window, t.source);
      if Lags(r, t.window) {
        LagIsLocal(d, t.prefixes, p.first, p.tries, t.window, t.source);
      }
      hide TryAllOf, CanLag;
    }
  }

  /** With no mandatory prefix there is one attempt. */
  lemma OneTryNeverLags(d: Decoder, prefixes: seq<byte>, first: Option<byte>, tries: seq<Option<byte>>, window: seq<byte>)
    requires |tries| == 1
    ensures !CanLag(d, prefixes, first, tries, window)
  {
    assert tries[1..] == [];
  }

  predicate AllDistinct(s: seq<byte>) {
    forall i, j | 0 <= i < j < |s| :: s[i] != s[j]
  }

  lemma NoLagTiles(d: Decoder, amd64: bool, s: State)
    requires IsReady(s)
    ensures var p := ParseOf(d, amd64, s);
            p.status == Success && p.lag == 0 ==> Rest(s) == p.bytes + Rest(p.state)
  {
    ParseGoesOn(d, amd64, s);
    var p := ParseOf(d, amd64, s);
    hide ParseOf;
    if p.status == Success && p.lag == 0 {
      GoesOnTiles(Rest(s), p);
    }
  }

  lemma GoesOnTiles(rest: seq<byte>, p: Parsed)
    requires GoesOn(rest, p) && p.lag == 0
    ensures rest == p.bytes + Rest(p.state)
  {
    Cuts(rest, |p.bytes|, |p.state.window|);
  }

  lemma Cuts(s: seq<byte>, i: nat, k: nat)
    requires i + k <= |s|
    ensures s == s[..i] + (s[i..i + k] + s[i + k..])
  {
    Assoc(s[..i], s[i..i + k], s[i + k..]);
    assert s[..i] + s[i..i + k] == s[..i + k];
    assert s[..i + k] + s[i + k..] == s;
  }

  /** A window that lags begins with a byte that the instruction has already. */
  lemma LagRepeats(d: Decoder, amd64: bool, s: State)
    requires IsReady(s)
    ensures var p := ParseOf(d, amd64, s);
            p.status == Success && 0 < p.lag && AllDistinct(Rest(s)) ==>
              |p.bytes| < |Rest(s)| && Rest(p.state) != [] && Rest(p.state)[0] != Rest(s)[|p.bytes|]
  {
    ParseGoesOn(d, amd64, s);
    var p := ParseOf(d, amd64, s);
    hide ParseOf;
    if p.status == Success && 0 < p.lag && AllDistinct(Rest(s)) {
      GoesOnRepeats(Rest(s), p);
    }
    hide GoesOn, Rest, AllDistinct;
  }

  lemma GoesOnRepeats(rest: seq<byte>, p: Parsed)
    requires GoesOn(rest, p) && 0 < p.lag && AllDistinct(rest)
    ensures |p.bytes| < |rest| && Rest(p.state) != [] && Rest(p.state)[0] != rest[|p.bytes|]
  {
    assert Rest(p.state)[0] == p.state.window[0] == rest[|p.bytes| - p.lag];
  }

  // ------------------------------------------------------------------ many instructions

  datatype Run = Run(status: Status, instructions: seq<seq<byte>>, state: State)

  function ParseAllOf(d: Decoder, amd64: bool, s: State, count: nat): Run
    requires IsReady(s)
    decreases count
  {
    if count == 0 then Run(Success, [], s)
    else
      var p := ParseOf(d, amd64, s);
      if p.status != Success || !IsReady(p.state) then Run(p.status, [], p.state)
      else
        var r := ParseAllOf(d, amd64, p.state, count - 1);
        r.(instructions := [p.bytes] + r.instructions)
  }

  function Flat(instructions: seq<seq<byte>>): seq<byte> {
    if |instructions| == 0 then [] else instructions[0] + Flat(instructions[1..])
  }

  /** No window lags on the way through `count` instructions. */
  ghost predicate ClearAhead(d: Decoder, amd64: bool, s: State, count: nat)
    requires IsReady(s)
    decreases count
  {
    count != 0 ==>
      && ClearAt(d, amd64, s)
      && var p := ParseOf(d, amd64, s);
         p.status == Success && IsReady(p.state) ==> ClearAhead(d, amd64, p.state, count - 1)
  }

  ghost predicate NoLags(d: Decoder, amd64: bool, s: State, count: nat)
    requires IsReady(s)
    decreases count
  {
    count != 0 ==>
      var p := ParseOf(d, amd64, s);
      p.lag == 0 && (p.status == Success && IsReady(p.state) ==> NoLags(d, amd64, p.state, count - 1))
  }

  lemma {:induction false} ClearAheadNeverLags(d: Decoder, amd64: bool, s: State, count: nat)
    requires IsReady(s) && ClearAhead(d, amd64, s, count)
    ensures NoLags(d, amd64, s, count)
    decreases count
  {
    if count != 0 {
      ClearNeverLags(d, amd64, s);
      var p := ParseOf(d, amd64, s);
      hide ClearAt, ParseOf;
      if p.status == Success && IsReady(p.state) {
        ClearAheadNeverLags(d, amd64, p.state, count - 1);
      }
    }
  }

  /** Whatever the windows do, the next instruction begins with the first byte that is left. */
  lemma {:induction false} BeginsWithRest(d: Decoder, amd64: bool, s: State, count: nat)
    requires IsReady(s)
    ensures var r := ParseAllOf(d, amd64, s, count);
            r.status == Success && Rest(s) != [] ==>
              var all := Flat(r.instructions) + Rest(r.state); all != [] && all[0] == Rest(s)[0]
    decreases count
  {
    if count != 0 {
      ParseGoesOn(d, amd64, s);
      var p := ParseOf(d, amd64, s);
      hide ParseOf;
      if p.status == Success {
        var r := ParseAllOf(d, amd64, p.state, count - 1);
        assert ([p.bytes] + r.instructions)[1..] == r.instructions;
      }
    } else {
      assert Flat([]) + Rest(s) == Rest(s);
    }
  }

  /** The bytes of the instructions and what is left are the stream. */
  predicate Tiles(rest: seq<byte>, r: Run) {
    rest == Flat(r.instructions) + Rest(r.state)
  }

  lemma RunUnfolds(d: Decoder, amd64: bool, s: State, count: nat)
    requires IsReady(s) && 0 < count
    ensures var p, r := ParseOf(d, amd64, s), ParseAllOf(d, amd64, s, count);
            r.status == Success ==>
              && p.status == Success && IsReady(p.state)
              && var later := ParseAllOf(d, amd64, p.state, count - 1);
                 && later.status == Success && r.state == later.state
                 && Flat(r.instructions) == p.bytes + Flat(later.instructions)
  {
    ParseGoesOn(d, amd64, s);
    var p := ParseOf(d, amd64, s);
    hide ParseOf;
    if p.status == Success {
      var later := ParseAllOf(d, amd64, p.state, count - 1);
      assert ([p.bytes] + later.instructions)[1..] == later.instructions;
    }
  }

  /** What comes before a run. */
  function After(done: seq<seq<byte>>, r: Run): Run {
    r.(instructions := done + r.instructions)
  }

  lemma RunBegins(r: Run)
    ensures After([], r) == r
  {
    assert [] + r.instructions == r.instructions;
  }

  /** One instruction more is done, or the run ends here. */
  lemma RunStep(d: Decoder, amd64: bool, s: State, count: nat, done: seq<seq<byte>>)
    requires IsReady(s) && 0 < count
    ensures var p, r := ParseOf(d, amd64, s), After(done, ParseAllOf(d, amd64, s, count));
            if p.status != Success then r.status == p.status && r.instructions == done
            else IsReady(p.state) && r == After(done + [p.bytes], ParseAllOf(d, amd64, p.state, count - 1))
  {
    ParseGoesOn(d, amd64, s);
    var p := ParseOf(d, amd64, s);
    hide ParseOf;
    if p.status == Success {
      Before(done, p.bytes, ParseAllOf(d, amd64, p.state, count - 1).instructions);
    } else {
      RunEnds(d, amd64, s, done);
    }
  }

  lemma Before(done: seq<seq<byte>>, bytes: seq<byte>, later: seq<seq<byte>>)
    ensures done + ([bytes] + later) == (done + [bytes]) + later
  {
  }

  lemma RunEnds(d: Decoder, amd64: bool, s: State, done: seq<seq<byte>>)
    requires IsReady(s)
    ensures After(done, ParseAllOf(d, amd64, s, 0)) == Run(Success, done, s)
  {
    assert done + [] == done;
  }

  /** The instructions tile the stream if no window lagged, for any chunking of the reads. */
  lemma {:induction false} TilesWithoutLags(d: Decoder, amd64: bool, s: State, count: nat)
    requires IsReady(s) && NoLags(d, amd64, s, count)
    ensures var r := ParseAllOf(d, amd64, s, count); r.status == Success ==> Tiles(Rest(s), r)
    decreases count
  {
    hide ParseOf, Rest, Flat, ParseAllOf, NoLags, Tiles;
    if count == 0 {
      NoneTiles(d, amd64, s);
    } else {
      RunUnfolds(d, amd64, s, count);
      NoLagTiles(d, amd64, s);
      NoLagFirst(d, amd64, s, count);
      var p, r := ParseOf(d, amd64, s), ParseAllOf(d, amd64, s, count);
      if r.status == Success {
        TilesWithoutLags(d, amd64, p.state, count - 1);
        OneMoreTiles(Rest(s), p.bytes, Rest(p.state), ParseAllOf(d, amd64, p.state, count - 1), r);
      }
    }
  }

  lemma NoneTiles(d: Decoder, amd64: bool, s: State)
    requires IsReady(s)
    ensures Tiles(Rest(s), ParseAllOf(d, amd64, s, 0))
  {
    assert Flat([]) + Rest(s) == Rest(s);
  }

  lemma NoLagFirst(d: Decoder, amd64: bool, s: State, count: nat)
    requires IsReady(s) && 0 < count && NoLags(d, amd64, s, count)
    ensures var p := ParseOf(d, amd64, s);
            p.lag == 0 && (p.status == Success && IsReady(p.state) ==> NoLags(d, amd64, p.state, count - 1))
  {
    hide ParseOf;
  }

  lemma OneMoreTiles(a: seq<byte>, bytes: seq<byte>, b: seq<byte>, later: Run, r: Run)
    requires a == bytes + b && Tiles(b, later)
    requires Flat(r.instructions) == bytes + Flat(later.instructions) && r.state == later.state
    ensures Tiles(a, r)
  {
    Assoc(bytes, Flat(later.instructions), Rest(r.state));
  }

  lemma ClearRunTiles(d: Decoder, amd64: bool, s: State, count: nat)
    requires IsReady(s) && ClearAhead(d, amd64, s, count)
    ensures var r := ParseAllOf(d, amd64, s, count); r.status == Success ==> Tiles(Rest(s), r)
  {
    hide *;
    ClearAheadNeverLags(d, amd64, s, count);
    TilesWithoutLags(d, amd64, s, count);
  }

  /** If a window lagged they do not, when the bytes of the stream are distinct. */
  lemma {:induction false} TilesOnlyWithoutLags(d: Decoder, amd64: bool, s: State, count: nat)
    requires IsReady(s) && AllDistinct(Rest(s))
    requires var r := ParseAllOf(d, amd64, s, count); r.status == Success && Tiles(Rest(s), r)
    ensures NoLags(d, amd64, s, count)
    decreases count
  {
    hide ParseOf, Rest, ParseAllOf, AllDistinct, Tiles;
    if 0 < count {
      TilesFromFirst(d, amd64, s, count);
      TilesOnlyWithoutLags(d, amd64, ParseOf(d, amd64, s).state, count - 1);
    }
  }

  /** The first instruction left the window where it ends, and what follows tiles the rest. */
  lemma TilesFromFirst(d: Decoder, amd64: bool, s: State, count: nat)
    requires IsReady(s) && AllDistinct(Rest(s)) && 0 < count
    requires var r := ParseAllOf(d, amd64, s, count); r.status == Success && Tiles(Rest(s), r)
    ensures var p := ParseOf(d, amd64, s);
            && p.status == Success && IsReady(p.state) && p.lag == 0 && AllDistinct(Rest(p.state))
            && var later := ParseAllOf(d, amd64, p.state, count - 1);
               later.status == Success && Tiles(Rest(p.state), later)
  {
    hide ParseOf, Rest, Flat, ParseAllOf, AllDistinct, IsReady;
    RunUnfolds(d, amd64, s, count);
    NoLagTiles(d, amd64, s);
    LagRepeats(d, amd64, s);
    var p, r := ParseOf(d, amd64, s), ParseAllOf(d, amd64, s, count);
    BeginsWithRest(d, amd64, p.state, count - 1);
    var later := ParseAllOf(d, amd64, p.state, count - 1);
    if p.lag == 0 {
      BehindFirst(Rest(s), p.bytes, Rest(p.state), Flat(later.instructions), Rest(r.state));
    } else {
      FirstBehind(Rest(s), p.bytes, Flat(later.instructions), Rest(r.state));
      assert false;
    }
  }

  /** For a stream of distinct bytes: the instructions tile it exactly when no window lagged. */
  lemma RunTilesExactly(d: Decoder, amd64: bool, s: State, count: nat)
    requires IsReady(s) && AllDistinct(Rest(s)) && ParseAllOf(d, amd64, s, count).status == Success
    ensures Tiles(Rest(s), ParseAllOf(d, amd64, s, count)) <==> NoLags(d, amd64, s, count)
  {
    hide *;
    if NoLags(d, amd64, s, count) {
      TilesWithoutLags(d, amd64, s, count);
    } else if Tiles(Rest(s), ParseAllOf(d, amd64, s, count)) {
      TilesOnlyWithoutLags(d, amd64, s, count);
    }
  }

  lemma BehindFirst(a: seq<byte>, bytes: seq<byte>, b: seq<byte>, flat: seq<byte>, c: seq<byte>)
    requires a == bytes + b && a == (bytes + flat) + c
    ensures b == flat + c && (AllDistinct(a) ==> AllDistinct(b))
  {
    Assoc(bytes, flat, c);
    assert b == a[|bytes|..] == flat + c;
    assert forall i | 0 <= i < |b| :: b[i] == a[|bytes| + i];
  }

  lemma FirstBehind(a: seq<byte>, bytes: seq<byte>, flat: seq<byte>, c: seq<byte>)
    requires a == (bytes + flat) + c && |bytes| < |a|
    ensures flat + c != [] && (flat + c)[0] == a[|bytes|]
  {
    Assoc(bytes, flat, c);
  }
}
