/** What a match of the x86 parser and its operands see: the plain stream behind the prefixes, exactly when no earlier
    attempt drew bytes that the match needed. */
module X86Sight {
  import opened Wrappers
  import opened X86Model
  import opened X86Tiling
  import opened X86Runs

  /** What the operands have seen, and what they can still see of the bytes shown. */
  function Ahead(seen: seq<byte>, shown: seq<byte>, left: nat): seq<byte>
    requires left <= |shown|
  {
    seen + shown[|shown| - left..]
  }

  lemma SeesWithin(seen: seq<byte>, shown: seq<byte>, left: nat, n: nat)
    requires n <= left <= |shown|
    ensures Ahead(seen + shown[|shown| - left..][..n], shown, left - n) == Ahead(seen, shown, left)
  {
    var tail := shown[|shown| - left..];
    assert shown[|shown| - (left - n)..] == tail[n..];
    Assoc(seen, tail[..n], tail[n..]);
    assert tail[..n] + tail[n..] == tail;
  }

  lemma SeesBeyond(seen: seq<byte>, shown: seq<byte>, left: nat, got: seq<byte>, more: seq<byte>)
    requires left <= |shown|
    ensures Ahead(seen + shown[|shown| - left..] + got, shown, 0) + more == Ahead(seen, shown, left) + (got + more)
  {
    assert shown[|shown|..] == [];
    Assoc(Ahead(seen, shown, left), got, more);
  }

  /** The operands saw, from the matched byte on, what they did not leave of the bytes shown, and then what they drew. */
  lemma {:induction false} LinkSees(d: Decoder, prefixes: seq<byte>, shown: seq<byte>, place: nat, seen: seq<byte>,
                                    left: nat, source: Source)
    requires left <= |shown|
    ensures var r := LinkOf(d, prefixes, shown, place, seen, left, source);
            r.ok ==> Ahead(r.seen, shown, r.left) == Ahead(seen, shown, left) + Drawn(source, r.source)
    decreases left + |source.unread|
  {
    hide Ahead, Drawn, ReadOf;
    match d.link(prefixes, shown, place, seen)
    case Done(_) =>
      NoneDrawn(source, Ahead(seen, shown, left));
    case Want(n) =>
      var tail := shown[|shown| - left..];
      if n <= left {
        LinkSees(d, prefixes, shown, place, seen + tail[..n], left - n, source);
        SeesWithin(seen, shown, left, n);
      } else {
        var read := ReadOf(source, n - left);
        if read.status == Success && |read.got| == n - left {
          LinkSees(d, prefixes, shown, place, seen + tail + read.got, 0, read.source);
          var r := LinkOf(d, prefixes, shown, place, seen + tail + read.got, 0, read.source);
          DrawnTwice(source, read.got, read.source, r.source);
          SeesBeyond(seen, shown, left, read.got, Drawn(read.source, r.source));
        }
      }
  }

  lemma NoneDrawn(source: Source, ahead: seq<byte>)
    ensures ahead + Drawn(source, source) == ahead
  {
  }

  lemma AttemptSees(d: Decoder, prefixes: seq<byte>, shown: seq<byte>, source: Source) returns (place: nat)
    requires AttemptOf(d, prefixes, shown, source).ok
    ensures var r := AttemptOf(d, prefixes, shown, source);
            && MatchOf(d, prefixes, shown) == Some(place) && place < |shown|
            && r.seen + shown[|shown| - r.left..] == shown[place..] + Drawn(source, r.source)
  {
    hide Drawn, LinkOf, MatchOf, Ahead;
    place := MatchOf(d, prefixes, shown).value;
    LinkSees(d, prefixes, shown, place, [], |shown| - place, source);
    FromNothing(shown, place);
    var r := AttemptOf(d, prefixes, shown, source);
    AheadIs(r.seen, shown, r.left);
  }

  lemma AheadIs(seen: seq<byte>, shown: seq<byte>, left: nat)
    requires left <= |shown|
    ensures Ahead(seen, shown, left) == seen + shown[|shown| - left..]
  {
  }

  lemma FromNothing(shown: seq<byte>, place: nat)
    requires place <= |shown|
    ensures Ahead([], shown, |shown| - place) == shown[place..]
  {
  }

  lemma DrawnTwice(a: Source, got: seq<byte>, b: Source, c: Source)
    requires a.unread == got + b.unread && |c.unread| <= |b.unread|
    ensures Drawn(a, c) == got + Drawn(b, c)
  {
  }

  /** `place`: where the match is in the bytes shown; `drawn`: what its operands took from the stream. */
  ghost predicate Sees(d: Decoder, prefixes: seq<byte>, r: Tried, source: Source, place: nat, drawn: seq<byte>)
    requires r.left <= |r.shown|
  {
    && Draws(r, source, drawn) && MatchOf(d, prefixes, r.shown) == Some(place) && place < |r.shown|
    && r.seen + r.shown[|r.shown| - r.left..] == r.shown[place..] + drawn
  }

  lemma {:induction false} TryAllSees(d: Decoder, prefixes: seq<byte>, first: Option<byte>, tries: seq<Option<byte>>,
                                      window: seq<byte>, source: Source) returns (place: nat, drawn: seq<byte>)
    requires TryAllOf(d, prefixes, first, tries, window, source).ok
    ensures Sees(d, prefixes, TryAllOf(d, prefixes, first, tries, window, source), source, place, drawn)
    decreases |tries|
  {
    hide Shown, IsTail, AttemptOf, MatchOf, Drawn, Sees;
    var shown := Shown(tries[0], first, window);
    var a := AttemptOf(d, prefixes, shown, source);
    AttemptIsTail(d, prefixes, shown, source);
    DrawnIs(source, a.source);
    KeepsMeansNothingDrawn(d, prefixes, shown, source);
    if a.ok {
      drawn := Drawn(source, a.source);
      place := AttemptSees(d, prefixes, shown, source);
      SeesFirst(d, prefixes, Tried(true, a.left, a.seen, shown, [], a.source), source, place, drawn);
    } else {
      place, drawn := TryAllSees(d, prefixes, first, tries[1..], window, a.source);
      var r := TryAllOf(d, prefixes, first, tries[1..], window, a.source);
      SeesLater(d, prefixes, r, source, a.source, place, drawn);
    }
  }

  lemma SeesFirst(d: Decoder, prefixes: seq<byte>, r: Tried, source: Source, place: nat, drawn: seq<byte>)
    requires r.left <= |r.shown| && r.lost == [] && source.unread == drawn + r.source.unread && (0 < r.left ==> drawn == [])
    requires MatchOf(d, prefixes, r.shown) == Some(place) && place < |r.shown|
    requires r.seen + r.shown[|r.shown| - r.left..] == r.shown[place..] + drawn
    ensures Sees(d, prefixes, r, source, place, drawn)
  {
    assert r.lost + source.unread == source.unread;
  }

  /** A failed attempt before it takes nothing from what the match sees. */
  lemma SeesLater(d: Decoder, prefixes: seq<byte>, r: Tried, a: Source, b: Source, place: nat, drawn: seq<byte>)
    requires r.left <= |r.shown| && Sees(d, prefixes, r, b, place, drawn)
    requires |b.unread| <= |a.unread| && a.unread == Drawn(a, b) + b.unread
    ensures Sees(d, prefixes, r.(lost := Drawn(a, b) + r.lost), a, place, drawn)
  {
    Assoc(Drawn(a, b), r.lost, drawn + r.source.unread);
  }

  /** What the operands saw is the beginning of the bytes from the match on and the stream behind them. */
  predicate SeesPlainly(r: Tried, source: Source, place: nat)
    requires place <= |r.shown|
  {
    r.seen <= r.shown[place..] + source.unread
  }

  /** The operands of a match see the plain stream if no failed attempt drew from it or they draw nothing; for a stream of
      distinct bytes only then. */
  lemma SeesPlainlyExactly(d: Decoder, prefixes: seq<byte>, r: Tried, source: Source, place: nat, drawn: seq<byte>)
    requires r.ok && r.left <= |r.shown| && Sees(d, prefixes, r, source, place, drawn)
    ensures r.lost == [] || drawn == [] ==> SeesPlainly(r, source, place)
    ensures AllDistinct(source.unread) && SeesPlainly(r, source, place) ==> r.lost == [] || drawn == []
  {
    var tail := r.shown[place..];
    if drawn == [] {
      assert tail + drawn == tail;
      assert r.seen == (r.seen + r.shown[|r.shown| - r.left..])[..|r.seen|];
    } else {
      assert r.seen == r.seen + r.shown[|r.shown|..] == tail + drawn;
      if r.lost == [] {
        assert source.unread == drawn + r.source.unread;
        Assoc(tail, drawn, r.source.unread);
      } else {
        assert r.seen[|tail|] == drawn[0] == source.unread[|r.lost|];
        assert (tail + source.unread)[|tail|] == source.unread[0];
      }
    }
  }
}
