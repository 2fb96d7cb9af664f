/** Two analyses that show what the results about the route analyzer cannot say: a live xref can lead to an entry that is
    not code, and what a root leads to can be rolled back. */
module RouteExamples {
  import opened RouteModel
  import opened SessionInvariant
  import opened LoopProofs
  import opened RunProofs
  import opened FinalityProofs
  import opened RouteTheorems

  /** A word of the route: decoded, then its references. */
  lemma ProcessDecodes<S>(img: Image<S>, s: State<S>, out: Outcome<S>, d: State<S>, c: State<S>)
    requires Sane(s) && IsAligned(img, s.offset, s.track) && out == img.decode(s.offset, s.track, IsStrict(s)) && out.Good?
    requires s.offset in s.owner.slots ==> s.owner.slots[s.offset].loading && !s.owner.slots[s.offset].invalid
    requires d == Decode(s, out.size, out.info, out.stops, out.next) && s.offset in d.owner.slots
    requires c == ActAll(img, d, s.offset, out.actions) && c.offset < img.maxOffset
    ensures Process(img, s) == c
  {
    ConstructIsSane(img, s, out);
    hide Decode, ActAll, Sane, IsAligned, IsStrict;
  }

  function Decoded(root: bool, refsFrom: seq<nat>, refsTo: seq<nat>): Instruction {
    Instruction(false, false, root, false, 0, refsFrom, refsTo)
  }

  // ------------------------------------------------------------------ a jump to what is not code

  function JumpDecode(o: nat, track: int, strict: bool): Outcome<int> {
    if o == 0 then Good(1, 0, [Jump(4, 0)], true, 0) else if o == 4 then Good(1, 0, [], false, 0) else Bad(0)
  }

  /** A strict seed at 4 is no code: the word at 5 is bad. A root at 0 jumps to 4. */
  function JumpImage(): Image<int> {
    Image(false, false, 0, 0, 8, 8, _ => 1, (s, t) => t, JumpDecode)
  }

  function AtFour(): State<int> {
    State(Owner(map[4 := Decoded(true, [], [])], [], [], 1, 1, map[4 := Decoding(0, true, false)]),
          true, [], Route(4, false, 0), [4], 5, 0, false)
  }

  /** The owner after the strict seed. */
  function Rolled(): Owner<int> {
    Owner(map[4 := Decoded(true, [], []).(invalid := true)], [], [], 1, 0, map[4 := Decoding(0, true, false)])
  }

  lemma StrictStep()
    ensures var s := Start(EmptyOwner(), Seed(4, 0, true));
            Sane(s) && Step(JumpImage(), s) == AtFour()
  {
    var img, s := JumpImage(), Start(EmptyOwner(), Seed(4, 0, true));
    assert Sane(s);
    var out := img.decode(4, 0, true);
    assert out == Good(1, 0, [], false, 0);
    assert Construct(img, s, out) == AtFour();
  }

  lemma StrictRollback()
    ensures Sane(AtFour()) && Step(JumpImage(), AtFour()) == AtFour().(owner := Rolled(), needReset := true)
  {
    var m := RouteMarker(AtFour().owner, 4);
    assert MarkXRefs([], []) == [];
    assert m == Rolled();
    assert Victims(AtFour()) == [4];
    assert MarkAll(AtFour().owner, [4]) == MarkAll(m, []) == m;
    assert KeepAll(m, [4]) == KeepAll(KeepIds(m, []), []) == m;
    assert Rollback(AtFour()).owner == Rolled();
    assert JumpImage().decode(5, 0, true) == Bad(0);
  }

  function Jumping(): Owner<int> {
    Owner(map[0 := Decoded(true, [], []), 4 := Decoded(true, [], []).(invalid := true)], [], [], 2, 1,
          map[0 := Decoding(0, false, false), 4 := Decoding(0, true, false)])
  }

  function Jumped(): State<int> {
    State(Owner(map[0 := Decoded(true, [0], []), 4 := Decoded(true, [], [0]).(invalid := true)],
                [XRef(0, Code(4), false, false, false, false)], [], 2, 1, Jumping().decodings),
          false, [], Route(0, false, 0), [0], 1, 0, true)
  }

  lemma Appended()
    ensures forall i: nat :: [] + [i] == [i]
    ensures forall i: nat, j: nat :: [i] + [j] == [i, j]
    ensures forall i: nat, j: nat, k: nat :: [i, j] + [k] == [i, j, k]
  {
  }

  lemma JumpIsSaved(s: State<int>)
    requires s == Jumped().(owner := Jumping())
    ensures ActAll(JumpImage(), s, 0, [Jump(4, 0)]) == Jumped()
  {
    var a := Act(JumpImage(), s, 0, Jump(4, 0));
    Appended();
    assert Targeted(Jumping(), 4, false).slots == Jumping().slots;
    assert Enqueue(s, 4, 0, false) == s;
    var x := XRef(0, Code(4), false, false, false, false);
    var b := AddRefTo(Jumping().(xrefs := [x]), Code(4), 0);
    assert b.slots == map[0 := Decoded(true, [], []), 4 := Decoded(true, [], [0]).(invalid := true)];
    assert AddRefFrom(b, 0, 0).slots == Jumped().owner.slots;
    assert Jumping().xrefs + [x] == [x];
    assert CreateXRef(Jumping(), x) == Jumped().owner;
    assert a == Jumped();
    assert ActAll(JumpImage(), a, 0, []) == a;
  }

  lemma JumpDecoded()
    ensures Decode(Start(Rolled(), Seed(0, 0, false)), 1, 0, true, 0) == Jumped().(owner := Jumping())
  {
    assert DecodeSlot(Rolled(), 0, 0, Decoding(0, false, false)) == Jumping();
  }

  lemma RolledStart()
    ensures var img, s := JumpImage(), Start(Rolled(), Seed(0, 0, false));
            && Sane(s) && s.offset == 0 && 0 !in s.owner.slots && !RouteEnded(img, s) && IsAligned(img, s.offset, s.track)
            && img.decode(s.offset, s.track, IsStrict(s)) == Good(1, 0, [Jump(4, 0)], true, 0)
  {
  }

  lemma JumpingHasRoot()
    ensures 0 in Jumped().(owner := Jumping()).owner.slots && Jumped().offset < JumpImage().maxOffset
  {
  }

  lemma JumpStep()
    ensures var s := Start(Rolled(), Seed(0, 0, false)); Sane(s) && Step(JumpImage(), s) == Jumped()
  {
    hide *;
    RolledStart();
    JumpDecoded();
    JumpingHasRoot();
    JumpIsSaved(Jumped().(owner := Jumping()));
    StepsTo(JumpImage(), Start(Rolled(), Seed(0, 0, false)), Good(1, 0, [Jump(4, 0)], true, 0), Jumped().(owner := Jumping()), Jumped());
  }

  lemma StepsTo(img: Image<int>, s: State<int>, out: Outcome<int>, d: State<int>, c: State<int>)
    requires Sane(s) && !RouteEnded(img, s) && IsAligned(img, s.offset, s.track) && s.offset !in s.owner.slots
    requires out == img.decode(s.offset, s.track, IsStrict(s)) && out.Good?
    requires d == Decode(s, out.size, out.info, out.stops, out.next) && s.offset in d.owner.slots
    requires c == ActAll(img, d, s.offset, out.actions) && c.offset < img.maxOffset
    ensures Step(img, s) == c
  {
    hide Decode, ActAll, Sane, IsAligned, IsStrict, Process;
    ProcessDecodes(img, s, out, d, c);
  }

  lemma FirstSeedRollsBack()
    ensures InRange(EmptyOwner<int>()) && Analyze(JumpImage(), EmptyOwner(), Seed(4, 0, true)) == Rolled()
  {
    var img, seed := JumpImage(), Seed(4, 0, true);
    EmptyIsReady(img);
    StartInv(img, EmptyOwner(), seed);
    StrictStep();
    StrictRollback();
    hide Inv, Ready, Step, Sane;
    RunsOn(img, Start(EmptyOwner(), seed));
    RunsOn(img, AtFour());
    RunEnds(img, AtFour().(owner := Rolled(), needReset := true));
  }

  lemma SecondSeedJumps()
    requires Ready(JumpImage(), Rolled())
    ensures InRange(Rolled()) && Analyze(JumpImage(), Rolled(), Seed(0, 0, false)) == Jumped().owner
  {
    var img, seed := JumpImage(), Seed(0, 0, false);
    ReadyIsInRange(img, Rolled());
    StartInv(img, Rolled(), seed);
    JumpStep();
    hide Inv, Ready, Step, Sane, InRange;
    RunsOn(img, Start(Rolled(), seed));
    RunEnds(img, Jumped());
  }

  /** In a reachable state a jump to an entry that is not code is a live xref. */
  lemma LiveXRefToInvalid()
    ensures var ow := Analyzed(JumpImage(), [Seed(4, 0, true), Seed(0, 0, false)]);
            && 4 in ow.slots && ow.slots[4].invalid && |ow.xrefs| == 1
            && ow.xrefs[0] == XRef(0, Code(4), false, false, false, false)
  {
    AnalyzesTwo(JumpImage(), Seed(4, 0, true), Seed(0, 0, false));
    FirstSeedRollsBack();
    SecondSeedJumps();
    hide Ready, Analyze, InRange;
  }

  lemma AnalyzesTwo<S>(img: Image<S>, first: Seed<S>, second: Seed<S>)
    ensures Ready(img, EmptyOwner()) && InRange(EmptyOwner<S>())
    ensures var ow := Analyze(img, EmptyOwner(), first);
            Ready(img, ow) && InRange(ow) && Analyzed(img, [first, second]) == Analyze(img, ow, second)
  {
    EmptyIsReady(img);
    AnalyzeIsReady(img, EmptyOwner(), first);
    var ow := Analyze(img, EmptyOwner(), first);
    AnalyzeIsReady(img, ow, second);
    hide Ready, Analyze, InRange;
    assert [first, second][1..] == [second];
    assert AnalyzeAll(img, ow, [second]) == AnalyzeAll(img, Analyze(img, ow, second), []);
  }

  // ------------------------------------------------------------------ a root that is swallowed

  function RootDecode(o: nat, track: int, strict: bool): Outcome<int> {
    if o == 0 then Good(1, 0, [Jump(8, 0), TakeAddress(4, 0)], true, 0)
    else if o == 4 then Good(4, 0, [], false, 0)
    else if o == 8 then Good(1, 0, [], false, 0)
    else Bad(0)
  }

  /** A root at 0 jumps to 8 and takes the address of 4; 4 falls through to 8, and 8 to a bad word. */
  function RootImage(): Image<int> {
    Image(false, false, 0, 0, 16, 16, _ => 1, (s, t) => t, RootDecode)
  }

  const Pending: Instruction := NewInstruction(true, false, false, 0)

  const ToEight: XRef := XRef(0, Code(8), false, false, false, false)
  const ToFour: XRef := XRef(0, Code(4), false, false, false, true)

  const RootDone: Decoding<int> := Decoding(0, false, false)
  const Tried: Decoding<int> := Decoding(0, true, true)

  /** After the word at 0: both routes are queued. */
  function Root1(): State<int> {
    State(Owner(map[0 := Decoded(true, [0, 1], []), 8 := Pending.(root := true, refsTo := [0]), 4 := Pending.(refsTo := [1])],
                [ToEight, ToFour], [], 3, 3, map[0 := RootDone]),
          false, [Route(8, false, 0), Route(4, true, 0)], Route(0, false, 0), [0], 1, 0, true)
  }

  function Root2(): State<int> {
    State(Owner(map[0 := Decoded(true, [0, 1], []), 8 := Pending.(root := true, refsTo := [0]), 4 := Decoded(false, [], [1])],
                [ToEight, ToFour], [], 3, 3, map[0 := RootDone, 4 := Tried]),
          false, [Route(8, false, 0)], Route(4, true, 0), [4], 8, 0, false)
  }

  /** The questionable route has decoded the root start. */
  function Root3(): State<int> {
    State(Owner(map[0 := Decoded(true, [0, 1], []), 8 := Decoded(false, [], [0]), 4 := Decoded(false, [], [1])],
                [ToEight, ToFour], [], 3, 3, map[0 := RootDone, 4 := Tried, 8 := Tried]),
          false, [Route(8, false, 0)], Route(4, true, 0), [4, 8], 9, 0, false)
  }

  function Marked(): Owner<int> {
    Root3().owner.(slots := map[0 := Decoded(true, [0, 1], []), 8 := Decoded(false, [], [0]).(invalid := true),
                              4 := Decoded(false, [], [1]).(invalid := true)],
                 xrefs := [ToEight.(invalid := true), ToFour.(invalid := true)], actualSize := 1)
  }

  /** Rolled() back: the address taken stays as data. */
  function Swallowed(): Owner<int> {
    Marked().(slots := Marked().slots[0 := Decoded(true, [0, 1, 2], [])],
            xrefs := Marked().xrefs + [XRef(0, Outside(0), false, false, true, true)],
            outside := [OutsideEntry(4, false, true, [2])])
  }

  lemma RootActs(s: State<int>)
    requires s == Root1().(owner := Owner(map[0 := Decoded(true, [], [])], [], [], 1, 1, map[0 := RootDone]), stack := [])
    ensures ActAll(RootImage(), s, 0, [Jump(8, 0), TakeAddress(4, 0)]) == Root1()
  {
    var img := RootImage();
    RootJumps(s);
    RootTakes();
    hide Act;
    assert ActAll(img, Root1(), 0, []) == Root1();
    assert [Jump(8, 0), TakeAddress(4, 0)][1..] == [TakeAddress(4, 0)];
  }

  /** The first reference has been handled. */
  function RootHalf(): State<int> {
    Root1().(owner := Owner(map[0 := Decoded(true, [0], []), 8 := Pending.(root := true, refsTo := [0])], [ToEight], [], 2, 2,
                            map[0 := RootDone]),
             stack := [Route(8, false, 0)])
  }

  lemma RootJumps(s: State<int>)
    requires s == Root1().(owner := Owner(map[0 := Decoded(true, [], [])], [], [], 1, 1, map[0 := RootDone]), stack := [])
    ensures Act(RootImage(), s, 0, Jump(8, 0)) == RootHalf()
  {
    Appended();
    var a := Targeted(s.owner, 8, false);
    assert a.slots == map[0 := Decoded(true, [], []), 8 := Pending.(root := true)];
    var b := CreateXRef(a, ToEight);
    assert b.slots == RootHalf().owner.slots && b.xrefs == [ToEight];
  }

  lemma RootTakes()
    ensures Act(RootImage(), RootHalf(), 0, TakeAddress(4, 0)) == Root1()
  {
    Appended();
    var s := RootHalf();
    var a := Targeted(s.owner, 4, true);
    assert a.slots == s.owner.slots[4 := Pending];
    var b := CreateXRef(a, ToFour);
    assert b.slots == Root1().owner.slots && b.xrefs == [ToEight, ToFour];
    assert s.stack + [Route(4, true, 0)] == Root1().stack;
  }

  const RootSeed: Seed<int> := Seed(0, 0, false)

  lemma RootDecoded()
    ensures Sane(Start(EmptyOwner(), RootSeed))
    ensures Decode(Start(EmptyOwner(), RootSeed), 1, 0, true, 0) ==
            Root1().(owner := Owner(map[0 := Decoded(true, [], [])], [], [], 1, 1, map[0 := RootDone]), stack := [])
  {
  }

  lemma RootStep1()
    ensures var s := Start(EmptyOwner(), RootSeed); Sane(s) && Step(RootImage(), s) == Root1()
  {
    RootDecoded();
    var img, s := RootImage(), Start(EmptyOwner(), RootSeed);
    var d := Root1().(owner := Owner(map[0 := Decoded(true, [], [])], [], [], 1, 1, map[0 := RootDone]), stack := []);
    RootActs(d);
    hide Sane, ActAll, Decode, Process;
    var out := Good(1, 0, [Jump(8, 0), TakeAddress(4, 0)], true, 0);
    assert img.decode(0, 0, false) == out;
    ProcessDecodes(img, s, out, d, Root1());
  }

  lemma RootsAreSane()
    ensures Sane(Root1()) && Sane(Pop(RootImage(), Root1()))
  {
  }

  lemma QuestionableStart()
    ensures Sane(Root2()) && Decode(Pop(RootImage(), Root1()), 4, 0, false, 0) == Root2()
  {
  }

  lemma QuestionableNext()
    ensures Sane(Root3()) && Decode(Root2(), 1, 0, false, 0) == Root3()
  {
  }

  lemma RootStep2()
    ensures Sane(Root1()) && Step(RootImage(), Root1()) == Root2()
  {
    RootsAreSane();
    QuestionableStart();
    hide Sane, Decode, Process;
    assert RootImage().decode(4, 0, true) == Good(4, 0, [], false, 0);
    assert ActAll(RootImage(), Root2(), 4, []) == Root2();
    ProcessDecodes(RootImage(), Pop(RootImage(), Root1()), Good(4, 0, [], false, 0), Root2(), Root2());
  }

  lemma RootStep3()
    ensures Sane(Root2()) && Step(RootImage(), Root2()) == Root3()
  {
    QuestionableStart();
    QuestionableNext();
    hide Sane, Decode, Process;
    assert RootImage().decode(8, 0, true) == Good(1, 0, [], false, 0);
    assert ActAll(RootImage(), Root3(), 8, []) == Root3();
    ProcessDecodes(RootImage(), Root2(), Good(1, 0, [], false, 0), Root3(), Root3());
  }

  lemma RootMarked()
    ensures MarkAll(Root3().owner, [4, 8]) == Marked()
  {
    var a := RouteMarker(Root3().owner, 4);
    RootMarkedFirst();
    RootMarkedSecond();
    hide RouteMarker;
    assert [4, 8][1..] == [8] && [8][1..] == [];
    assert MarkAll(Marked(), []) == Marked();
    assert MarkAll(HalfMarked(), [8]) == Marked();
  }

  function HalfMarked(): Owner<int> {
    Root3().owner.(slots := Root3().owner.slots[4 := Decoded(false, [], [1]).(invalid := true)],
                   xrefs := [ToEight, ToFour.(invalid := true)], actualSize := 2)
  }

  lemma RootMarkedFirst()
    ensures RouteMarker(Root3().owner, 4) == HalfMarked()
  {
    assert RouteMarker(Root3().owner, 4).xrefs == HalfMarked().xrefs;
  }

  lemma RootMarkedSecond()
    ensures RouteMarker(HalfMarked(), 8) == Marked()
  {
    var b := RouteMarker(HalfMarked(), 8);
    assert b.xrefs == Marked().xrefs;
    assert b.slots == Marked().slots;
  }

  lemma RootKept()
    ensures InRange(Marked()) && KeepAll(Marked(), [4, 8]) == Swallowed()
  {
    Appended();
    assert InRange(Marked());
    assert IsKept(Marked(), 1) && !IsKept(Swallowed(), 0);
    var entry, x := OutsideEntry(4, false, true, []), XRef(0, Outside(0), false, false, true, true);
    assert AddOutside(Marked(), entry, x) == Swallowed();
    assert KeepOne(Marked(), 1) == Swallowed();
    assert KeepIds(Marked(), [1]) == KeepIds(Swallowed(), []) == Swallowed();
    assert KeepOne(Swallowed(), 0) == Swallowed();
    assert KeepIds(Swallowed(), [0]) == KeepIds(Swallowed(), []) == Swallowed();
    assert [4, 8][1..] == [8] && [8][1..] == [];
    assert KeepAll(Swallowed(), [8]) == KeepAll(Swallowed(), []) == Swallowed();
  }

  /** The questionable route fails, and takes the root start with it. */
  lemma RootStep4()
    ensures Sane(Root3()) && Step(RootImage(), Root3()) == Root3().(owner := Swallowed(), needReset := true)
  {
    QuestionableNext();
    hide MarkAll, KeepAll, InRange;
    RootMarked();
    RootKept();
    assert Victims(Root3()) == [4, 8];
    assert RootImage().decode(9, 0, true) == Bad(0);
  }

  /** The queued root route finds its start invalid. */
  lemma RootStep5()
    ensures var s := Root3().(owner := Swallowed(), needReset := true);
            Sane(s) && Step(RootImage(), s).owner == Swallowed() && Step(RootImage(), s).stack == [] && Step(RootImage(), s).needReset
  {
    var s := Root3().(owner := Swallowed(), needReset := true);
    assert Sane(s) && Sane(Pop(RootImage(), s));
    assert RootImage().decode(8, 0, false) == Good(1, 0, [], false, 0);
  }

  /** No step but the last is the end. */
  lemma RootsRun()
    ensures InRange(EmptyOwner<int>())
    ensures var img := RootImage();
            && !IsDone(img, Start(EmptyOwner(), RootSeed)) && !IsDone(img, Root1()) && !IsDone(img, Root2())
            && !IsDone(img, Root3()) && !IsDone(img, Root3().(owner := Swallowed(), needReset := true))
  {
  }

  lemma RootSteps()
    ensures InRange(EmptyOwner<int>()) && Analyze(RootImage(), EmptyOwner(), RootSeed) == Swallowed()
  {
    hide Inv, Ready, Step, Sane, InRange, Root1, Root2, Root3, Swallowed, Start;
    var img, s, u := RootImage(), Start(EmptyOwner(), RootSeed), Root3().(owner := Swallowed(), needReset := true);
    EmptyIsReady(img);
    StartInv(img, EmptyOwner(), RootSeed);
    RootStep1();
    RootStep2();
    RootStep3();
    RootStep4();
    RootStep5();
    RootsRun();
    RunsOn(img, s);
    RunsOn(img, Root1());
    RunsOn(img, Root2());
    RunsOn(img, Root3());
    RunsOn(img, u);
    RunEnds(img, Step(img, u));
  }

  /** A valid root jumps to 8, whose word is code, and 8 is invalid: a questionable route swallowed the queued start and
      rolled it back. */
  lemma RootIsSwallowed()
    ensures var ow := Analyzed(RootImage(), [RootSeed]);
            && IsValid(ow, 0) && RootImage().decode(0, 0, false).Good?
            && Jump(8, 0) in RootImage().decode(0, 0, false).actions && RootImage().decode(8, 0, false).Good?
            && 8 in ow.slots && ow.slots[8].invalid
  {
    hide *;
    RootAnalyzed();
    SwallowedFacts();
  }

  lemma SwallowedFacts()
    ensures IsValid(Swallowed(), 0) && 8 in Swallowed().slots && Swallowed().slots[8].invalid
    ensures RootImage().decode(0, 0, false).Good? && RootImage().decode(8, 0, false).Good?
    ensures Jump(8, 0) in RootImage().decode(0, 0, false).actions
  {
    var out := RootImage().decode(0, 0, false);
    assert out == Good(1, 0, [Jump(8, 0), TakeAddress(4, 0)], true, 0);
    assert out.actions[0] == Jump(8, 0);
  }

  lemma RootAnalyzed()
    ensures Analyzed(RootImage(), [RootSeed]) == Swallowed()
  {
    hide *;
    RootSteps();
    AnalyzesOne(RootImage(), RootSeed);
  }

  lemma AnalyzesOne<S>(img: Image<S>, seed: Seed<S>)
    ensures InRange(EmptyOwner<S>()) && Analyzed(img, [seed]) == Analyze(img, EmptyOwner(), seed)
  {
    EmptyIsReady(img);
    AnalyzeIsReady(img, EmptyOwner(), seed);
    hide Ready, Analyze, InRange;
    assert [seed][1..] == [];
    assert AnalyzeAll(img, Analyze(img, EmptyOwner(), seed), []) == Analyze(img, EmptyOwner(), seed);
  }
}
