/** A stream on which the window of the x86 parser lags: an encoding that begins with 66 asks for more than there is, the
    one without it takes two bytes. */
module X86Example {
  import opened Wrappers
  import opened X86Model
  import opened X86Tiling
  import opened X86Lag
  import opened X86Runs

  function Long(prefixes: seq<byte>, shown: seq<byte>, place: nat, seen: seq<byte>): LinkStep {
    if [0x66] <= shown then Want(9) else if seen == [] then Want(1) else Done(true)
  }

  function Table(prefixes: seq<byte>, shown: seq<byte>): Option<nat> {
    if [0x66] <= shown then Some(2) else if [0x0F] <= shown then Some(0) else None
  }

  function LongAndShort(): Decoder {
    Decoder(Table, Long)
  }

  function Ending(): Source {
    Source([6], [Gives(1)])
  }

  /** Nothing is in the cache; the reads deliver 5, 2 and 1 bytes. */
  function Start(): State {
    State(RESERVED, [], [], Source([0x66, 0x0F, 1, 2, 3, 4, 5, 6], [Gives(5), Gives(2), Gives(1)]))
  }

  function AfterRead(): State {
    State(2, [0x66, 0x0F, 1, 2, 3], [], Source([4, 5, 6], [Gives(2), Gives(1)]))
  }

  function AfterPrefix(): State {
    State(4, [1, 2, 3], [0x66], Source([4, 5, 6], [Gives(2), Gives(1)]))
  }

  function AfterRefill(): State {
    State(RESERVED, [1, 2, 3, 4, 5], [0x66], Ending())
  }

  lemma StartIsRead()
    ensures ReadCacheOf(Start(), false) == (Success, AfterRead())
  {
    var s, next := Start(), AfterRead();
    assert s.source.unread[..5] == next.window && s.source.unread[5..] == [4, 5, 6] && [] + next.window == next.window;
  }

  lemma PrefixIsTaken()
    ensures PrefixesOf(true, Start(), 0, false) == Prefixed(Success, 0x0F, false, AfterPrefix())
  {
    StartIsRead();
    hide Start;
    var s, next := AfterRead(), AfterPrefix();
    var between := State(3, [0x0F, 1, 2, 3], [0x66], s.source);
    assert TakePrefixOf(true, Eaten(s), 0x66) == Taken(Success, true, between);
    assert ReadCacheOf(between, false) == (Success, between);
    assert Eaten(between) == next && TakePrefixOf(true, next, 0x0F) == Taken(Success, false, next);
    hide TakePrefixOf, ReadCacheOf;
    assert PrefixesOf(true, between, 1, false) == Prefixed(Success, 0x0F, false, next);
  }

  lemma WindowIsRefilled()
    ensures RexOf(true, AfterPrefix(), 0x0F) == Rexed(Success, Some(0x0F), 0, AfterRefill())
  {
    var s, next := AfterPrefix(), AfterRefill();
    assert s.source.unread[..2] == [4, 5] && s.source.unread[2..] == [6] && s.source.plan[1..] == [Gives(1)];
    assert s.window + [4, 5] == next.window;
    assert ReadCacheOf(s, true) == (Success, next);
  }

  lemma StartIsPrepared()
    ensures PreparedOf(LongAndShort(), true, Start()) == Trying(Some(0x0F), [Some(0x66), None], AfterRefill())
  {
    PrefixIsTaken();
    WindowIsRefilled();
    hide PrefixesOf, RexOf;
    assert Start().(prefixes := []) == Start();
    assert LastOf([0x66], {0x66}) == Some(0) && LastOf([0x66], {0xF2, 0xF3}) == None;
    assert Tries([0x66], Some(0)) == [Some(0x66), None];
  }

  lemma LongFails()
    ensures AttemptOf(LongAndShort(), [0x66], [0x66, 0x0F, 1, 2, 3, 4, 5], Ending()) == Linked(false, 0, [], Source([], []))
  {
    var d, prefixes, shown := LongAndShort(), [0x66], [0x66, 0x0F, 1, 2, 3, 4, 5];
    assert ReadOf(Ending(), 4) == Reading(Success, [6], Source([], []));
    assert d.link(prefixes, shown, 2, []) == Want(9);
    assert LinkOf(d, prefixes, shown, 2, [], 5, Ending()) == Linked(false, 0, [], Source([], []));
  }

  lemma ShortIsLinked(shown: seq<byte>)
    requires shown == [0x0F, 1, 2, 3, 4, 5]
    ensures LinkOf(LongAndShort(), [0x66], shown, 0, [], 6, Source([], [])) == Linked(true, 5, [0x0F], Source([], []))
  {
    var d, prefixes := LongAndShort(), [0x66];
    assert shown[0] == 0x0F;
    assert d.link(prefixes, shown, 0, []) == Want(1) && d.link(prefixes, shown, 0, [0x0F]) == Done(true);
    assert LinkOf(d, prefixes, shown, 0, [0x0F], 5, Source([], [])) == Linked(true, 5, [0x0F], Source([], []));
    assert [] + shown[|shown| - 6..][..1] == [0x0F];
  }

  lemma ShortKeeps()
    ensures AttemptOf(LongAndShort(), [0x66], [0x0F, 1, 2, 3, 4, 5], Source([], []))
            == Linked(true, 5, [0x0F], Source([], []))
  {
    ShortIsLinked([0x0F, 1, 2, 3, 4, 5]);
    hide LinkOf;
  }

  /** The first attempt draws 06 and fails; the second leaves all of the window. */
  lemma SecondTryKeeps()
    ensures TryAllOf(LongAndShort(), [0x66], Some(0x0F), [Some(0x66), None], [1, 2, 3, 4, 5], Ending())
            == Tried(true, 5, [0x0F], [0x0F, 1, 2, 3, 4, 5], [6], Source([], []))
  {
    hide AttemptOf;
    var d, prefixes, window := LongAndShort(), [0x66], [1, 2, 3, 4, 5];
    LongFails();
    ShortKeeps();
    assert Shown(Some(0x66), Some(0x0F), window) == [0x66, 0x0F, 1, 2, 3, 4, 5];
    assert Shown(None, Some(0x0F), window) == [0x0F, 1, 2, 3, 4, 5];
    assert TryAllOf(d, prefixes, Some(0x0F), [None], window, Source([], []))
        == Tried(true, 5, [0x0F], [0x0F, 1, 2, 3, 4, 5], [], Source([], []));
    assert [Some(0x66), None][1..] == [None];
  }

  /** The instruction is reported with three bytes, its window begins again with the third one, and 06 is lost. */
  lemma WindowLags()
    ensures var p := ParseOf(LongAndShort(), true, Start());
            && p == Parsed(Success, [0x66, 0x0F, 1], 1, State(RESERVED, [1, 2, 3, 4, 5], [0x66], Source([], [])))
            && Rest(Start()) != p.bytes + Rest(p.state)
    ensures !ClearAt(LongAndShort(), true, Start())
  {
    StartIsPrepared();
    SecondTryKeeps();
    hide PreparedOf, TryAllOf;
    var p := ParseOf(LongAndShort(), true, Start());
    assert Rest(Start())[..3] == [0x66, 0x0F, 1];
    assert p.lag == 1;
    if ClearAt(LongAndShort(), true, Start()) {
      ClearNeverLags(LongAndShort(), true, Start());
      assert false;
    }
    assert (p.bytes + Rest(p.state))[3] == 1 && Rest(Start())[3] == 2;
  }
}
