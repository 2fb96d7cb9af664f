/** When the window of the x86 parser lags behind the instruction. TryMatch gives the cache back after a failed attempt,
    but not what its operands drew from the stream: a later match that leaves bytes in the window leaves it in front of
    a gap. Whether that can happen is decided by the decoder, the prefixes and the window, before anything is drawn. */
module X86Lag {
  import opened Wrappers
  import opened X86Model
  import opened X86Tiling

  // ------------------------------------------------------------------ attempts without the stream

  /** What an attempt does with the window alone: no match, a decision that leaves so many of the bytes shown, or `n`
      more bytes asked of the stream after the operands have `seen` the rest of the window. */
  datatype Local = NoMatch | Decided(ok: bool, left: nat) | Asks(n: positive, place: nat, seen: seq<byte>)

  function LinkLocally(d: Decoder, prefixes: seq<byte>, shown: seq<byte>, place: nat, seen: seq<byte>, left: nat): (r: Local)
    requires left <= |shown|
    ensures !r.NoMatch? && (r.Decided? ==> r.left <= left)
    decreases left
  {
    match d.link(prefixes, shown, place, seen)
    case Done(yes) => Decided(yes, left)
    case Want(n) =>
      var tail := shown[|shown| - left..];
      if n <= left then LinkLocally(d, prefixes, shown, place, seen + tail[..n], left - n)
      else Asks(n - left, place, seen + tail)
  }

  function AttemptLocally(d: Decoder, prefixes: seq<byte>, shown: seq<byte>): Local {
    match MatchOf(d, prefixes, shown)
    case None => NoMatch
    case Some(place) => LinkLocally(d, prefixes, shown, place, [], |shown| - place)
  }

  /** The attempt could fail after it drew something: it asks for two bytes or more, or it does not accept some byte. */
  ghost predicate CanFailLate(d: Decoder, prefixes: seq<byte>, shown: seq<byte>) {
    var a := AttemptLocally(d, prefixes, shown);
    a.Asks? && (2 <= a.n || exists b: byte :: d.link(prefixes, shown, a.place, a.seen + [b]) != Done(true))
  }

  /** The first attempt that is sure to succeed leaves bytes of the window, and only those. */
  predicate CanKeep(d: Decoder, prefixes: seq<byte>, first: Option<byte>, tries: seq<Option<byte>>, window: seq<byte>) {
    if |tries| == 0 then false
    else
      match AttemptLocally(d, prefixes, Shown(tries[0], first, window))
      case Decided(true, left) => 0 < left <= |window|
      case _ => CanKeep(d, prefixes, first, tries[1..], window)
  }

  /** An attempt that could fail late comes before one that keeps bytes of the window. */
  ghost predicate CanLag(d: Decoder, prefixes: seq<byte>, first: Option<byte>, tries: seq<Option<byte>>, window: seq<byte>) {
    if |tries| == 0 then false
    else
      var shown := Shown(tries[0], first, window);
      match AttemptLocally(d, prefixes, shown)
      case Decided(true, _) => false
      case _ =>
        || (CanFailLate(d, prefixes, shown) && CanKeep(d, prefixes, first, tries[1..], window))
        || CanLag(d, prefixes, first, tries[1..], window)
  }

  /** An attempt keeps bytes of the window after others drew some from the stream. */
  predicate Lags(r: Tried, window: seq<byte>) {
    r.ok && 0 < r.left <= |window| && r.lost != []
  }

  // ------------------------------------------------------------------ one attempt

  /** What an attempt does with a stream behind the window. */
  ghost predicate GoesAs(d: Decoder, prefixes: seq<byte>, shown: seq<byte>, a: Local, r: Linked, source: Source) {
    match a
    case NoMatch => !r.ok && r.source == source
    case Decided(ok, left) => r.ok == ok && r.left == left && r.source == source
    case Asks(n, place, seen) =>
      var read := ReadOf(source, n);
      if read.status != Success || |read.got| < n then !r.ok && r.source == read.source
      else r == LinkOf(d, prefixes, shown, place, seen + read.got, 0, read.source)
  }

  lemma {:induction false} LinkIsLocal(d: Decoder, prefixes: seq<byte>, shown: seq<byte>, place: nat, seen: seq<byte>,
                                       left: nat, source: Source)
    requires left <= |shown|
    ensures var r := LinkOf(d, prefixes, shown, place, seen, left, source);
            GoesAs(d, prefixes, shown, LinkLocally(d, prefixes, shown, place, seen, left), r, source)
    decreases left
  {
    match d.link(prefixes, shown, place, seen)
    case Done(_) =>
    case Want(n) =>
      var tail := shown[|shown| - left..];
      if n <= left {
        LinkIsLocal(d, prefixes, shown, place, seen + tail[..n], left - n, source);
      }
  }

  /** An attempt in terms of what it does with the window. */
  lemma AttemptIsLocal(d: Decoder, prefixes: seq<byte>, shown: seq<byte>, source: Source)
    ensures var r := AttemptOf(d, prefixes, shown, source);
            GoesAs(d, prefixes, shown, AttemptLocally(d, prefixes, shown), r, source)
  {
    var m := MatchOf(d, prefixes, shown);
    if m.Some? {
      LinkIsLocal(d, prefixes, shown, m.value, [], |shown| - m.value, source);
    }
    hide MatchOf, LinkOf, LinkLocally, ReadOf;
  }

  /** Only an attempt that can fail late fails after it drew something. */
  lemma FailsLate(d: Decoder, prefixes: seq<byte>, shown: seq<byte>, source: Source)
    requires var r := AttemptOf(d, prefixes, shown, source); !r.ok && Drawn(source, r.source) != []
    ensures CanFailLate(d, prefixes, shown)
  {
    AttemptIsLocal(d, prefixes, shown, source);
    hide AttemptOf, AttemptLocally;
    var a := AttemptLocally(d, prefixes, shown);
    if a.Asks? && a.n == 1 {
      var read := ReadOf(source, 1);
      if read.status == Success && |read.got| == 1 {
        assert read.got == [read.got[0]];
        assert d.link(prefixes, shown, a.place, a.seen + [read.got[0]]) != Done(true);
      }
    }
  }

  /** An attempt that can fail late does so on a stream of one byte. */
  lemma LateStream(d: Decoder, prefixes: seq<byte>, shown: seq<byte>) returns (source: Source)
    requires CanFailLate(d, prefixes, shown)
    ensures var r := AttemptOf(d, prefixes, shown, source);
            !r.ok && r.source == Source([], []) && Drawn(source, r.source) != []
  {
    var a := AttemptLocally(d, prefixes, shown);
    var b: byte := 0;
    if a.n < 2 {
      b :| d.link(prefixes, shown, a.place, a.seen + [b]) != Done(true);
    }
    source := Source([b], [Gives(1)]);
    AttemptIsLocal(d, prefixes, shown, source);
    hide AttemptOf, AttemptLocally;
    var read := ReadOf(source, a.n);
    assert read == Reading(Success, [b], Source([], []));
    assert ReadOf(Source([], []), 1) == Reading(Success, [], Source([], []));
  }

  // ------------------------------------------------------------------ all attempts

  /** Where the window is kept, an attempt decided so without the stream. */
  lemma {:induction false} KeptIsLocal(d: Decoder, prefixes: seq<byte>, first: Option<byte>, tries: seq<Option<byte>>,
                                       window: seq<byte>, source: Source)
    requires var r := TryAllOf(d, prefixes, first, tries, window, source); r.ok && 0 < r.left <= |window|
    ensures CanKeep(d, prefixes, first, tries, window)
    decreases |tries|
  {
    var shown := Shown(tries[0], first, window);
    AttemptIsLocal(d, prefixes, shown, source);
    var a := AttemptOf(d, prefixes, shown, source);
    hide AttemptOf, AttemptLocally, Shown;
    if !a.ok {
      KeptIsLocal(d, prefixes, first, tries[1..], window, a.source);
    }
  }

  /** When the stream is over, the window is kept. */
  lemma {:induction false} KeepsAtEnd(d: Decoder, prefixes: seq<byte>, first: Option<byte>, tries: seq<Option<byte>>,
                                      window: seq<byte>)
    requires CanKeep(d, prefixes, first, tries, window)
    ensures var r := TryAllOf(d, prefixes, first, tries, window, Source([], [])); r.ok && 0 < r.left <= |window|
    decreases |tries|
  {
    var source := Source([], []);
    var shown := Shown(tries[0], first, window);
    AttemptIsLocal(d, prefixes, shown, source);
    var a := AttemptOf(d, prefixes, shown, source);
    hide AttemptOf, AttemptLocally, Shown;
    if !a.ok {
      KeepsAtEnd(d, prefixes, first, tries[1..], window);
    }
  }

  lemma {:induction false} LagIsLocal(d: Decoder, prefixes: seq<byte>, first: Option<byte>, tries: seq<Option<byte>>,
                                      window: seq<byte>, source: Source)
    requires Lags(TryAllOf(d, prefixes, first, tries, window, source), window)
    ensures CanLag(d, prefixes, first, tries, window)
    decreases |tries|
  {
    var shown := Shown(tries[0], first, window);
    AttemptIsLocal(d, prefixes, shown, source);
    var a := AttemptOf(d, prefixes, shown, source);
    if !a.ok && Drawn(source, a.source) != [] {
      FailsLate(d, prefixes, shown, source);
    }
    hide AttemptOf, AttemptLocally, Shown, CanFailLate;
    if !a.ok {
      var r := TryAllOf(d, prefixes, first, tries[1..], window, a.source);
      if r.lost == [] {
        assert Drawn(source, a.source) + [] == Drawn(source, a.source);
        KeptIsLocal(d, prefixes, first, tries[1..], window, a.source);
      } else {
        LagIsLocal(d, prefixes, first, tries[1..], window, a.source);
      }
    }
  }

  /** A stream on which the window lags. */
  lemma {:induction false} LaggingStream(d: Decoder, prefixes: seq<byte>, first: Option<byte>, tries: seq<Option<byte>>,
                                         window: seq<byte>) returns (source: Source)
    requires CanLag(d, prefixes, first, tries, window)
    ensures Lags(TryAllOf(d, prefixes, first, tries, window, source), window)
    decreases |tries|
  {
    var shown := Shown(tries[0], first, window);
    hide AttemptOf, AttemptLocally, Shown, CanFailLate;
    if CanFailLate(d, prefixes, shown) && CanKeep(d, prefixes, first, tries[1..], window) {
      source := LateStream(d, prefixes, shown);
      KeepsAtEnd(d, prefixes, first, tries[1..], window);
    } else {
      var later := LaggingStream(d, prefixes, first, tries[1..], window);
      source := Postponed(d, prefixes, shown, later);
    }
    hide CanKeep, CanLag;
    TryAllAfterFailure(d, prefixes, first, tries, window, source);
  }

  /** An attempt that is not sure to succeed fails on a stream that goes on as `later`. */
  lemma Postponed(d: Decoder, prefixes: seq<byte>, shown: seq<byte>, later: Source) returns (source: Source)
    requires var a := AttemptLocally(d, prefixes, shown); a.Decided? ==> !a.ok
    ensures var r := AttemptOf(d, prefixes, shown, source); !r.ok && r.source == later
  {
    var a := AttemptLocally(d, prefixes, shown);
    source := later;
    if a.Asks? {
      source := Source(later.unread, [Gives(0)] + later.plan);
      assert ReadOf(source, a.n) == Reading(Success, [], later);
    }
    AttemptIsLocal(d, prefixes, shown, source);
  }

  lemma TryAllAfterFailure(d: Decoder, prefixes: seq<byte>, first: Option<byte>, tries: seq<Option<byte>>, window: seq<byte>,
                           source: Source)
    requires |tries| != 0
    ensures var a := AttemptOf(d, prefixes, Shown(tries[0], first, window), source);
            !a.ok ==>
              var r := TryAllOf(d, prefixes, first, tries[1..], window, a.source);
              TryAllOf(d, prefixes, first, tries, window, source) == r.(lost := Drawn(source, a.source) + r.lost)
  {
  }

  /** The window can lag on some stream exactly when an attempt that could fail late comes before one that is sure to
      keep bytes of the window. */
  lemma LagsExactly(d: Decoder, prefixes: seq<byte>, first: Option<byte>, tries: seq<Option<byte>>, window: seq<byte>)
    ensures (exists source :: Lags(TryAllOf(d, prefixes, first, tries, window, source), window))
            <==> CanLag(d, prefixes, first, tries, window)
  {
    if CanLag(d, prefixes, first, tries, window) {
      var source := LaggingStream(d, prefixes, first, tries, window);
    } else {
      forall source ensures !Lags(TryAllOf(d, prefixes, first, tries, window, source), window) {
        if Lags(TryAllOf(d, prefixes, first, tries, window, source), window) {
          LagIsLocal(d, prefixes, first, tries, window, source);
        }
      }
    }
  }
}
