/** The results about whole analyses: any list of seeds, one call of Diana_AnalyzeCodeEx2 each, on
    one owner that starts empty. */
module RouteTheorems {
  import opened RouteModel
  import opened OwnerInvariant
  import opened OwnerProofs
  import opened SessionInvariant
  import opened ReferenceProofs
  import opened StepProofs
  import opened LoopProofs
  import opened RunProofs
  import opened FinalityProofs
  import opened TakenProofs
  import opened PlainProofs
  import opened OriginProofs
  import opened VerdictProofs

  /** Diana_AnalyzeCodeEx2: an offset that has an entry is skipped. */
  ghost function Analyze<S>(img: Image<S>, ow: Owner<S>, seed: Seed<S>): Owner<S>
    requires InRange(ow)
  {
    if seed.offset in ow.slots then ow else Run(img, Start(ow, seed)).owner
  }

  // ------------------------------------------------------------------ between two calls

  ghost function ValidEntries<S>(ow: Owner<S>): set<nat> {
    set o | o in ow.slots && !ow.slots[o].invalid
  }

  /** What holds of an owner that no analysis is working on. */
  ghost predicate Ready<S>(img: Image<S>, ow: Owner<S>) {
    && OwnerInv(ow) && Referenced(img, ow)
    && ow.usedSize == |ow.slots| && ow.actualSize == |ValidEntries(ow)|
    && (forall o | o in ow.slots && ow.slots[o].loading && !ow.slots[o].root :: ow.slots[o].invalid)
    && (forall o | o in ow.decodings && o in ow.slots && !ow.slots[o].invalid ::
          var out := OutcomeOf(img, ow, o);
          out.Good? && (out.stops || Followed(img, ow, [], o, o + out.size, out.next)))
    && (forall i | 0 <= i < |ow.xrefs| :: IsTakenXRefToCode(ow, ow.xrefs[i]))
  }

  ghost predicate IsTakenXRefToCode<S>(ow: Owner<S>, x: XRef) {
    x.addressTaken && !x.invalid && x.target.Code? && x.target.offset in ow.slots ==> !ow.slots[x.target.offset].invalid
  }

  lemma EmptyOwnerInv<S>()
    ensures OwnerInv(EmptyOwner<S>())
  {
    assert forall t: Target :: !HasTarget(EmptyOwner<S>(), t);
  }

  lemma EmptyIsReady<S>(img: Image<S>)
    ensures Ready(img, EmptyOwner<S>())
  {
    EmptyOwnerInv<S>();
    hide OwnerInv, Followed, ActionsDone;
    assert ValidEntries(EmptyOwner<S>()) == {};
  }

  lemma StartRoutes<S>(img: Image<S>, ow: Owner<S>, seed: Seed<S>)
    requires Ready(img, ow) && seed.offset !in ow.slots
    ensures var s := Start(ow, seed); Routes(img, s) && Sized(s)
  {
    hide OwnerInv, Referenced, Followed, IsTakenXRefToCode;
    assert Counted(Start(ow, seed)) == ValidEntries(ow);
  }

  lemma StartFlows<S>(img: Image<S>, ow: Owner<S>, seed: Seed<S>)
    requires Ready(img, ow) && seed.offset !in ow.slots
    ensures var s := Start(ow, seed); Flows(img, s) && Bounded(img, s) && TakenToCode(s)
  {
    hide OwnerInv, Referenced, Followed, ValidEntries;
    var s := Start(ow, seed);
    forall i | 0 <= i < |ow.xrefs|
      ensures TakenOk(s, ow.xrefs[i])
    {
      assert IsTakenXRefToCode(ow, ow.xrefs[i]);
    }
  }

  lemma StartInv<S>(img: Image<S>, ow: Owner<S>, seed: Seed<S>)
    requires Ready(img, ow) && seed.offset !in ow.slots
    ensures var s := Start(ow, seed);
            Inv(img, s) && TakenToCode(s)
  {
    StartRoutes(img, ow, seed);
    StartFlows(img, ow, seed);
    hide OwnerInv, Referenced, Routes, Sized, Flows, TakenToCode, Followed;
    Whole(img, Start(ow, seed));
  }

  lemma DoneSizes<S>(img: Image<S>, s: State<S>)
    requires Routes(img, s) && Sized(s) && IsDone(img, s)
    ensures Counted(s) == ValidEntries(s.owner)
    ensures forall o | o in s.owner.slots :: !Waiting(s, o)
  {
  }

  lemma DoneFlows<S>(img: Image<S>, s: State<S>)
    requires Flows(img, s) && AddedOk(s) && Bounded(img, s) && IsDone(img, s)
    ensures forall o | o in s.owner.decodings && o in s.owner.slots && !s.owner.slots[o].invalid ::
              var out := OutcomeOf(img, s.owner, o);
              out.Good? && (out.stops || Followed(img, s.owner, [], o, o + out.size, out.next))
  {
    forall o | o in s.owner.decodings && o in s.owner.slots && !s.owner.slots[o].invalid
      ensures Flow(img, s, o)
    {
    }
  }

  lemma DoneIsReady<S>(img: Image<S>, s: State<S>)
    requires Inv(img, s) && TakenToCode(s) && IsDone(img, s)
    ensures Ready(img, s.owner)
  {
    Parts(img, s);
    RoutesAdded(img, s);
    DoneSizes(img, s);
    DoneFlows(img, s);
    assert StackOk(img, s);
    forall i | 0 <= i < |s.owner.xrefs|
      ensures IsTakenXRefToCode(s.owner, s.owner.xrefs[i])
    {
      assert TakenOk(s, s.owner.xrefs[i]);
    }
    hide OwnerInv, Referenced, Routes, Flows, Followed, TakenToCode, Flow, AddedOk, FreshOk;
  }

  lemma ReadyIsInRange<S>(img: Image<S>, ow: Owner<S>)
    requires Ready(img, ow)
    ensures InRange(ow)
  {
    LinkedIsInRange(ow);
  }

  /** One call keeps everything an owner promises. */
  lemma AnalyzeIsReady<S>(img: Image<S>, ow: Owner<S>, seed: Seed<S>)
    requires Ready(img, ow)
    ensures InRange(ow) && Ready(img, Analyze(img, ow, seed))
  {
    ReadyIsInRange(img, ow);
    if seed.offset !in ow.slots {
      var s := Start(ow, seed);
      StartInv(img, ow, seed);
      hide Ready, Inv, TakenToCode, IsDone;
      RunInv(img, s);
      RunTaken(img, s);
      DoneIsReady(img, Run(img, s));
    }
  }

  /** Every valid instruction stays as it is, every entry only moves forward. */
  lemma AnalyzeIsForward<S>(img: Image<S>, ow: Owner<S>, seed: Seed<S>)
    requires Ready(img, ow)
    ensures InRange(ow) && Forward(ow, Analyze(img, ow, seed))
    ensures forall o | IsValid(ow, o) :: Stable(ow, Analyze(img, ow, seed), o)
  {
    ReadyIsInRange(img, ow);
    if seed.offset !in ow.slots {
      var s := Start(ow, seed);
      StartInv(img, ow, seed);
      hide Ready, Inv, TakenToCode, Forward, Stable, IsValid;
      RunAdvances(img, s);
      forall o | IsValid(ow, o)
        ensures Stable(ow, Analyze(img, ow, seed), o)
      {
        assert IsFinal(s, o);
      }
    }
  }

  // ------------------------------------------------------------------ any list of seeds

  /** The owner after a call for each seed, in order. */
  ghost function AnalyzeAll<S>(img: Image<S>, ow: Owner<S>, seeds: seq<Seed<S>>): (r: Owner<S>)
    requires Ready(img, ow)
    ensures Ready(img, r)
    decreases |seeds|
  {
    if |seeds| == 0 then ow
    else
      AnalyzeIsReady(img, ow, seeds[0]);
      AnalyzeAll(img, Analyze(img, ow, seeds[0]), seeds[1..])
  }

  /** Finality across seeds: later calls change nothing about a valid instruction but its ROOT flag. */
  lemma {:induction false} FinalAcrossSeeds<S>(img: Image<S>, ow: Owner<S>, seeds: seq<Seed<S>>)
    requires Ready(img, ow)
    ensures Forward(ow, AnalyzeAll(img, ow, seeds))
    ensures forall o | IsValid(ow, o) :: Stable(ow, AnalyzeAll(img, ow, seeds), o)
    decreases |seeds|
  {
    if |seeds| != 0 {
      AnalyzeIsReady(img, ow, seeds[0]);
      var a := Analyze(img, ow, seeds[0]);
      AnalyzeIsForward(img, ow, seeds[0]);
      FinalAcrossSeeds(img, a, seeds[1..]);
      var r := AnalyzeAll(img, a, seeds[1..]);
      hide Ready, Analyze, Forward;
      ForwardTransitive(ow, a, r);
      assert forall o | IsValid(ow, o) :: IsValid(a, o);
    }
  }

  // ------------------------------------------------------------------ what the owner of any analysis promises

  /** The owner after the calls for `seeds` on an empty one. */
  ghost function Analyzed<S>(img: Image<S>, seeds: seq<Seed<S>>): Owner<S> {
    EmptyIsReady(img);
    AnalyzeAll(img, EmptyOwner(), seeds)
  }

  lemma AnalyzedIsReady<S>(img: Image<S>, seeds: seq<Seed<S>>)
    ensures Ready(img, Analyzed(img, seeds))
  {
    EmptyIsReady(img);
    hide Ready;
  }

  /** Worklist closure: nothing reachable is forgotten. Every valid instruction has an entry for each
      in-range branch target, and for its fall-through successor when that is code (under the mode
      and tracked state it is reached with). */
  lemma WorklistIsClosed<S>(img: Image<S>, seeds: seq<Seed<S>>, o: nat)
    requires IsValid(Analyzed(img, seeds), o)
    ensures var ow := Analyzed(img, seeds);
            var d := ow.decodings[o];
            var out := img.decode(o, d.track, d.strict);
            && out.Good?
            && (forall t: nat, e | Jump(t, e) in out.actions && t < img.maxOffset && IsAligned(img, t, e) :: t in ow.slots)
            && ((!out.stops && o + out.size < img.maxOffset && IsAligned(img, o + out.size, out.next)
                 && img.decode(o + out.size, out.next, d.strict).Good?) ==> o + out.size in ow.slots)
  {
    var ow := Analyzed(img, seeds);
    AnalyzedIsReady(img, seeds);
    var out := OutcomeOf(img, ow, o);
    forall t: nat, e | Jump(t, e) in out.actions && t < img.maxOffset && IsAligned(img, t, e)
      ensures t in ow.slots
    {
      var k :| 0 <= k < |out.actions| && out.actions[k] == Jump(t, e);
      assert ActionDone(img, ow, o, out.actions[k]);
    }
    hide OwnerInv, Referenced;
  }

  /** A questionable route that was kept is code: what its instructions fall through to is a valid
      instruction, unless (x86) they run past the end. On ARM any strict route has to stay in range. */
  lemma KeptRoutesAreCode<S>(img: Image<S>, seeds: seq<Seed<S>>, o: nat)
    requires IsValid(Analyzed(img, seeds), o)
    ensures var ow := Analyzed(img, seeds);
            var d := ow.decodings[o];
            var out := img.decode(o, d.track, d.strict);
            && out.Good?
            && (d.questionable && !out.stops && o + out.size < img.maxOffset ==> IsValid(ow, o + out.size))
            && (d.strict && !out.stops && o + out.size < img.maxOffset ==> o + out.size in ow.slots)
            && (img.isArm && d.strict && !out.stops ==> o + out.size < img.maxOffset)
  {
    var ow := Analyzed(img, seeds);
    AnalyzedIsReady(img, seeds);
    assert var out := OutcomeOf(img, ow, o); out.Good? && (out.stops || Followed(img, ow, [], o, o + out.size, out.next));
    hide OwnerInv, Referenced;
  }

  lemma LiveTaken<S>(ow: Owner<S>, source: nat, offset: nat)
    requires OwnerInv(ow) && IsValid(ow, source) && HasTaken(ow, source, offset)
    ensures HasLiveTaken(ow, source, offset)
  {
    var i :| 0 <= i < |ow.xrefs| && IsTaken(ow, ow.xrefs[i], source, offset);
    assert IsConserved(ow, ow.xrefs[i]);
  }

  /** Address-taken references are conserved: while the instruction is valid, the reference is live,
      and when it is in the presence table its target is valid; data otherwise. */
  lemma AddressesTakenAreConserved<S>(img: Image<S>, seeds: seq<Seed<S>>, o: nat, t: nat)
    requires IsValid(Analyzed(img, seeds), o)
    requires var ow := Analyzed(img, seeds);
             var d := ow.decodings[o];
             var out := img.decode(o, d.track, d.strict);
             out.Good? && (TakeDataAddress(t) in out.actions
                           || (t < img.maxOffset && exists e :: TakeAddress(t, e) in out.actions))
    ensures HasLiveTaken(Analyzed(img, seeds), o, t)
  {
    var ow := Analyzed(img, seeds);
    AnalyzedIsReady(img, seeds);
    var out := OutcomeOf(img, ow, o);
    if TakeDataAddress(t) in out.actions {
      var k :| 0 <= k < |out.actions| && out.actions[k] == TakeDataAddress(t);
      assert ActionDone(img, ow, o, out.actions[k]);
    } else {
      var e :| TakeAddress(t, e) in out.actions;
      var k :| 0 <= k < |out.actions| && out.actions[k] == TakeAddress(t, e);
      assert ActionDone(img, ow, o, out.actions[k]);
    }
    LiveTaken(ow, o, t);
  }

  /** A live address-taken xref into the presence table leads to valid code. */
  lemma AddressesTakenLeadToCode<S>(img: Image<S>, seeds: seq<Seed<S>>, i: nat)
    requires i < |Analyzed(img, seeds).xrefs|
    ensures var ow := Analyzed(img, seeds);
            var x := ow.xrefs[i];
            && x.source in ow.slots && (ow.slots[x.source].invalid ==> x.invalid)
            && (x.target.Outside? ==> (x.invalid <==> ow.slots[x.source].invalid))
            && (x.target.Code? && x.addressTaken ==>
                  x.target.offset in ow.slots
                  && (x.invalid <==> ow.slots[x.source].invalid || ow.slots[x.target.offset].invalid))
  {
    var ow := Analyzed(img, seeds);
    AnalyzedIsReady(img, seeds);
    assert IsConsistent(ow, ow.xrefs[i]) && IsTakenXRefToCode(ow, ow.xrefs[i]);
  }

  lemma {:induction false} AnalyzeAllOrigin<S(!new)>(img: Image<S>, p: (nat, S) -> bool, ow: Owner<S>, seeds: seq<Seed<S>>)
    requires Ready(img, ow) && HandedOn(img, p) && Decoded(p, ow) && AllMade(img, ow)
    requires forall seed | seed in seeds :: p(seed.offset, seed.entry)
    ensures Decoded(p, AnalyzeAll(img, ow, seeds)) && AllMade(img, AnalyzeAll(img, ow, seeds))
    decreases |seeds|
  {
    hide Ready, HandedOn, Decoded, AllMade, Inv, TakenToCode, InRange;
    if |seeds| != 0 {
      var seed := seeds[0];
      AnalyzeIsReady(img, ow, seed);
      ReadyIsInRange(img, ow);
      if seed.offset !in ow.slots {
        StartInv(img, ow, seed);
        StartOrigin(img, p, ow, seed);
        RunOrigin(img, p, Start(ow, seed));
      }
      AnalyzeAllOrigin(img, p, Analyze(img, ow, seed), seeds[1..]);
    }
  }

  lemma StartOrigin<S(!new)>(img: Image<S>, p: (nat, S) -> bool, ow: Owner<S>, seed: Seed<S>)
    requires Decoded(p, ow) && AllMade(img, ow) && p(seed.offset, seed.entry)
    ensures Origin(img, p, Start(ow, seed))
  {
    hide AllMade;
  }

  /** No xref is invented: each is made by an action of its source as its source was decoded, with the target and the flags
      of that action. */
  lemma XRefsAreMade<S(!new)>(img: Image<S>, seeds: seq<Seed<S>>, i: nat)
    requires i < |Analyzed(img, seeds).xrefs|
    ensures IsMade(img, Analyzed(img, seeds), Analyzed(img, seeds).xrefs[i])
  {
    EmptyIsReady(img);
    hide Ready;
    var p := (o: nat, track: S) => true;
    assert HandedOn(img, p);
    AnalyzeAllOrigin(img, p, EmptyOwner(), seeds);
  }

  /** A property of offsets and route states that seeds have, and that decoding hands on to the next instruction and to
      where references lead, is one of every instruction as it was decoded. */
  lemma DecodingsAreTraced<S(!new)>(img: Image<S>, p: (nat, S) -> bool, seeds: seq<Seed<S>>, o: nat)
    requires HandedOn(img, p) && forall seed | seed in seeds :: p(seed.offset, seed.entry)
    requires o in Analyzed(img, seeds).decodings
    ensures p(o, Analyzed(img, seeds).decodings[o].track)
  {
    EmptyIsReady(img);
    hide Ready, HandedOn;
    AnalyzeAllOrigin(img, p, EmptyOwner(), seeds);
  }

  /** A live xref to an entry that is known not to be code is a plain jump: neither data nor external, no address. */
  lemma LiveToInvalidIsJump<S>(img: Image<S>, seeds: seq<Seed<S>>, i: nat)
    requires i < |Analyzed(img, seeds).xrefs|
    ensures var ow := Analyzed(img, seeds);
            var x := ow.xrefs[i];
            !x.invalid && x.target.Code? && x.target.offset in ow.slots && ow.slots[x.target.offset].invalid ==>
              x == XRef(x.source, x.target, false, false, false, false) && IsValid(ow, x.source)
  {
    var ow := Analyzed(img, seeds);
    AnalyzedIsReady(img, seeds);
    assert IsConsistent(ow, ow.xrefs[i]) && IsTakenXRefToCode(ow, ow.xrefs[i]);
  }

  lemma {:induction false} AnalyzeAllPlain<S>(img: Image<S>, ow: Owner<S>, seeds: seq<Seed<S>>)
    requires Ready(img, ow) && PlainValid(ow)
    ensures PlainValid(AnalyzeAll(img, ow, seeds))
    decreases |seeds|
  {
    if |seeds| != 0 {
      AnalyzeIsReady(img, ow, seeds[0]);
      if seeds[0].offset !in ow.slots {
        StartInv(img, ow, seeds[0]);
        RunPlain(img, Start(ow, seeds[0]));
      }
      hide Ready, PlainValid, Inv, Sane, TakenToCode;
      AnalyzeAllPlain(img, Analyze(img, ow, seeds[0]), seeds[1..]);
    }
  }

  /** What a route decodes that does not have to prove that it is code is never invalidated. */
  lemma PlainCodeIsKept<S>(img: Image<S>, seeds: seq<Seed<S>>, o: nat)
    requires o in Analyzed(img, seeds).decodings && !Analyzed(img, seeds).decodings[o].strict
    ensures IsValid(Analyzed(img, seeds), o)
  {
    EmptyIsReady(img);
    hide Ready;
    AnalyzeAllPlain(img, EmptyOwner(), seeds);
  }

  lemma AnalyzeSettled<S>(img: Image<S>, ow: Owner<S>, seed: Seed<S>)
    requires Ready(img, ow) && Settled(img, ow)
    ensures InRange(ow) && Settled(img, Analyze(img, ow, seed))
  {
    hide Ready, Settled, Inv, TakenToCode, InRange, Verdicts, IsDone, Constructed;
    ReadyIsInRange(img, ow);
    if seed.offset !in ow.slots {
      var s := Start(ow, seed);
      StartInv(img, ow, seed);
      StartVerdicts(img, ow, seed);
      RunVerdicts(img, s);
      RunInv(img, s);
      RunIsDone(img, Run(img, s));
    }
  }

  lemma RunIsDone<S>(img: Image<S>, s: State<S>)
    requires Inv(img, s) && Verdicts(img, s) && IsDone(img, s)
    ensures Settled(img, s.owner)
  {
    Parts(img, s);
    RoutesAdded(img, s);
    DoneSettled(img, s);
  }

  lemma {:induction false} AnalyzeAllSettled<S>(img: Image<S>, ow: Owner<S>, seeds: seq<Seed<S>>)
    requires Ready(img, ow) && Settled(img, ow)
    ensures Settled(img, AnalyzeAll(img, ow, seeds))
    decreases |seeds|
  {
    hide Ready, Settled, Analyze, InRange;
    if |seeds| != 0 {
      AnalyzeIsReady(img, ow, seeds[0]);
      AnalyzeSettled(img, ow, seeds[0]);
      AnalyzeAllSettled(img, Analyze(img, ow, seeds[0]), seeds[1..]);
    }
  }

  lemma AnalyzedSettled<S>(img: Image<S>, seeds: seq<Seed<S>>)
    ensures Settled(img, Analyzed(img, seeds))
  {
    EmptyIsReady(img);
    hide Ready;
    assert Settled(img, EmptyOwner<S>());
    AnalyzeAllSettled(img, EmptyOwner(), seeds);
  }

  /** Nothing is rejected without a reason. Code that is invalid was decoded on a strict route, does not stop, and falls
      through to the end of the range (on ARM), to a word that is no code, or to an entry that is invalid itself. */
  lemma RejectedForAReason<S>(img: Image<S>, seeds: seq<Seed<S>>, o: nat)
    requires o in Analyzed(img, seeds).decodings && !IsValid(Analyzed(img, seeds), o)
    ensures var ow := Analyzed(img, seeds);
            var d := ow.decodings[o];
            var out := img.decode(o, d.track, d.strict);
            && d.strict && out.Good? && !out.stops
            && (var next := o + out.size;
                || (img.isArm && img.maxOffset <= next)
                || (next < img.maxOffset && img.isArm && (img.imageBase + next) % img.align(out.next) != 0)
                || (next < img.maxOffset && img.decode(next, out.next, true).Bad?)
                || (next in ow.slots && ow.slots[next].invalid))
  {
    var ow := Analyzed(img, seeds);
    AnalyzedSettled(img, seeds);
    assert IsSettled(img, ow, o);
    if !ow.decodings[o].strict {
      PlainCodeIsKept(img, seeds, o);
    }
    hide Analyzed;
  }

  /** Exactly when code found on a questionable route is kept: it stops, it runs past the end (not on ARM), or it falls
      through to a word that is code, and that is kept. */
  lemma SpeculationIsExact<S>(img: Image<S>, seeds: seq<Seed<S>>, o: nat)
    requires o in Analyzed(img, seeds).decodings && Analyzed(img, seeds).decodings[o].questionable
    ensures var ow := Analyzed(img, seeds);
            var out := img.decode(o, ow.decodings[o].track, true);
            && out.Good?
            && (var next := o + out.size;
                IsValid(ow, o) <==>
                  || out.stops
                  || (img.maxOffset <= next && !img.isArm)
                  || (&& next < img.maxOffset && (img.isArm ==> (img.imageBase + next) % img.align(out.next) == 0)
                      && img.decode(next, out.next, true).Good? && IsValid(ow, next)))
  {
    AnalyzedSettled(img, seeds);
    AnalyzedIsReady(img, seeds);
    hide Ready, Analyzed;
    SettledExactly(img, Analyzed(img, seeds), o);
  }

  lemma SettledExactly<S>(img: Image<S>, ow: Owner<S>, o: nat)
    requires Settled(img, ow) && Ready(img, ow) && o in ow.decodings && ow.decodings[o].questionable
    ensures var out := img.decode(o, ow.decodings[o].track, true);
            && out.Good?
            && (var next := o + out.size;
                IsValid(ow, o) <==>
                  || out.stops
                  || (img.maxOffset <= next && !img.isArm)
                  || (&& next < img.maxOffset && (img.isArm ==> (img.imageBase + next) % img.align(out.next) == 0)
                      && img.decode(next, out.next, true).Good? && IsValid(ow, next)))
  {
    hide OwnerInv, Referenced;
    assert IsSettled(img, ow, o);
  }

  /** Data the instruction reads, and what it refers to outside the module, has a live xref as long as
      the instruction is valid. */
  lemma OutsideReferencesAreKept<S>(img: Image<S>, seeds: seq<Seed<S>>, o: nat, action: Action<S>)
    requires IsValid(Analyzed(img, seeds), o)
    requires var ow := Analyzed(img, seeds);
             var d := ow.decodings[o];
             var out := img.decode(o, d.track, d.strict);
             out.Good? && action in out.actions
             && (action.ReadData? || (action.External? && !IsSkippedExternal(img, action.address)))
    ensures var ow := Analyzed(img, seeds);
            exists i | 0 <= i < |ow.xrefs| ::
              !ow.xrefs[i].invalid &&
              (if action.ReadData? then IsOutsideRef(ow, ow.xrefs[i], o, action.target, false, true, false, true)
               else IsOutsideRef(ow, ow.xrefs[i], o, action.address, true, action.data, action.addressTaken, action.linksToData))
  {
    hide Ready, Analyzed;
    var ow := Analyzed(img, seeds);
    AnalyzedIsReady(img, seeds);
    OutsideReferenceIsLive(img, ow, o, action);
  }

  lemma OutsideReferenceIsLive<S>(img: Image<S>, ow: Owner<S>, o: nat, action: Action<S>)
    requires Ready(img, ow) && IsValid(ow, o)
    requires var d := ow.decodings[o];
             var out := img.decode(o, d.track, d.strict);
             out.Good? && action in out.actions
             && (action.ReadData? || (action.External? && !IsSkippedExternal(img, action.address)))
    ensures exists i | 0 <= i < |ow.xrefs| ::
              !ow.xrefs[i].invalid &&
              (if action.ReadData? then IsOutsideRef(ow, ow.xrefs[i], o, action.target, false, true, false, true)
               else IsOutsideRef(ow, ow.xrefs[i], o, action.address, true, action.data, action.addressTaken, action.linksToData))
  {
    hide Ready;
    var out := OutcomeOf(img, ow, o);
    var k :| 0 <= k < |out.actions| && out.actions[k] == action;
    ReadyIsDone(img, ow, o, k);
    LiveUnlessInvalid(img, ow);
    if action.ReadData? {
      var i :| 0 <= i < |ow.xrefs| && IsOutsideRef(ow, ow.xrefs[i], o, action.target, false, true, false, true);
    } else {
      var i :| 0 <= i < |ow.xrefs|
               && IsOutsideRef(ow, ow.xrefs[i], o, action.address, true, action.data, action.addressTaken, action.linksToData);
    }
  }

  lemma ReadyIsDone<S>(img: Image<S>, ow: Owner<S>, o: nat, k: nat)
    requires Ready(img, ow) && o in ow.decodings && k < (var out := OutcomeOf(img, ow, o); if out.Good? then |out.actions| else 0)
    ensures ActionDone(img, ow, o, OutcomeOf(img, ow, o).actions[k])
  {
    hide OwnerInv, ActionDone;
  }

  /** An xref of a valid instruction to the outside is live. */
  lemma LiveUnlessInvalid<S>(img: Image<S>, ow: Owner<S>)
    requires Ready(img, ow)
    ensures forall i | 0 <= i < |ow.xrefs| && ow.xrefs[i].target.Outside? && IsValid(ow, ow.xrefs[i].source) ::
              !ow.xrefs[i].invalid
  {
    assert forall i | 0 <= i < |ow.xrefs| :: IsConsistent(ow, ow.xrefs[i]);
  }

  /** The two xref indexes agree: xref `i` is in its source's from-list, in its target's to-list, and
      in no other list; each list is in creation order, so it is there once. */
  lemma IndexesAgree<S>(img: Image<S>, seeds: seq<Seed<S>>, o: nat, i: nat)
    requires o in Analyzed(img, seeds).slots
    ensures var ow := Analyzed(img, seeds);
            && Increasing(ow.slots[o].refsFrom) && Increasing(ow.slots[o].refsTo)
            && (i in ow.slots[o].refsFrom <==> i < |ow.xrefs| && ow.xrefs[i].source == o)
            && (i in ow.slots[o].refsTo <==> i < |ow.xrefs| && ow.xrefs[i].target == Code(o))
  {
    var ow := Analyzed(img, seeds);
    AnalyzedIsReady(img, seeds);
    assert ListsFrom(ow.slots[o].refsFrom, ow.xrefs, o);
    assert HasTarget(ow, Code(o)) && RefsTo(ow, Code(o)) == ow.slots[o].refsTo;
    assert ListsTo(RefsTo(ow, Code(o)), ow.xrefs, Code(o));
  }

  /** The same for the entries that are data or outside the module. */
  lemma OutsideIndexesAgree<S>(img: Image<S>, seeds: seq<Seed<S>>, k: nat, i: nat)
    requires k < |Analyzed(img, seeds).outside|
    ensures var ow := Analyzed(img, seeds);
            && Increasing(ow.outside[k].refsTo)
            && (i in ow.outside[k].refsTo <==> i < |ow.xrefs| && ow.xrefs[i].target == Outside(k))
  {
    var ow := Analyzed(img, seeds);
    AnalyzedIsReady(img, seeds);
    assert HasTarget(ow, Outside(k)) && RefsTo(ow, Outside(k)) == ow.outside[k].refsTo;
    assert ListsTo(RefsTo(ow, Outside(k)), ow.xrefs, Outside(k));
  }

  /** m_usedSize counts the entries, m_actualSize the valid ones. */
  lemma SizesCount<S>(img: Image<S>, seeds: seq<Seed<S>>)
    ensures var ow := Analyzed(img, seeds);
            ow.usedSize == |ow.slots| && ow.actualSize == |ValidEntries(ow)|
  {
    AnalyzedIsReady(img, seeds);
  }

  // ------------------------------------------------------------------ scanning through

  lemma {:induction false} RunKeepsSlots<S>(img: Image<S>, s: State<S>, o: nat)
    requires Inv(img, s) && o in s.owner.slots
    ensures Sane(s) && o in Run(img, s).owner.slots
  {
    RunAdvances(img, s);
    hide Inv, Sane;
  }

  /** The first word of a seed becomes an entry if it is code on the route of the seed. */
  lemma SeedIsVisited<S>(img: Image<S>, ow: Owner<S>, seed: Seed<S>)
    requires Ready(img, ow) && seed.offset < img.maxOffset && IsAligned(img, seed.offset, seed.entry)
    requires img.decode(seed.offset, seed.entry, seed.breakOnInvalid).Good?
    ensures InRange(ow) && seed.offset in Analyze(img, ow, seed).slots
  {
    ReadyIsInRange(img, ow);
    if seed.offset !in ow.slots {
      var s := Start(ow, seed);
      StartInv(img, ow, seed);
      hide Ready, Inv, TakenToCode, Sane;
      StepInv(img, s);
      SeedStep(img, s);
      RunKeepsSlots(img, Step(img, s), seed.offset);
    }
  }

  /** The route of a seed is not questionable, and as strict as the call: its first word is decoded so, and with the state of
      the seed. An offset that has an entry is skipped. */
  lemma SeedIsDecoded<S>(img: Image<S>, ow: Owner<S>, seed: Seed<S>)
    requires Ready(img, ow)
    ensures InRange(ow)
    ensures seed.offset in ow.slots ==> Analyze(img, ow, seed) == ow
    ensures var r := Analyze(img, ow, seed);
            && seed.offset !in ow.slots && seed.offset < img.maxOffset
            && (img.isArm ==> (img.imageBase + seed.offset) % img.align(seed.entry) == 0)
            && img.decode(seed.offset, seed.entry, seed.breakOnInvalid).Good? ==>
              && seed.offset in r.decodings
              && r.decodings[seed.offset] == Decoding(seed.entry, seed.breakOnInvalid, false)
  {
    ReadyIsInRange(img, ow);
    if seed.offset !in ow.slots && seed.offset < img.maxOffset {
      StartInv(img, ow, seed);
      hide Ready, Inv, TakenToCode, Sane, Step, Run, Start, Joins, HasJoined, Forward, Rejects, Skips;
      var s := Start(ow, seed);
      StartIs(img, ow, seed);
      RunsOn(img, s);
      GoesOnExactly(img, s);
      RunAdvances(img, Step(img, s));
      if Joins(img, s) {
        HasJoinedDecoding(img, s, Step(img, s));
        KeepsDecoding(Step(img, s).owner, Run(img, Step(img, s)).owner, seed.offset);
      }
    }
  }

  lemma StartIs<S>(img: Image<S>, ow: Owner<S>, seed: Seed<S>)
    ensures var s := Start(ow, seed);
            && !s.needReset && s.offset == seed.offset && s.track == seed.entry && s.owner == ow
            && !s.route.questionable && s.breakOnInvalid == seed.breakOnInvalid
            && (seed.offset < img.maxOffset ==> !IsDone(img, s))
            && (seed.offset !in ow.slots && img.decode(seed.offset, seed.entry, seed.breakOnInvalid).Good? ==>
                  (Joins(img, s) <==> (img.isArm ==> (img.imageBase + seed.offset) % img.align(seed.entry) == 0)))
  {
  }

  lemma HasJoinedDecoding<S>(img: Image<S>, s: State<S>, r: State<S>)
    requires Joins(img, s) && HasJoined(img, s, r)
    ensures s.offset in r.owner.decodings
    ensures r.owner.decodings[s.offset] == Decoding(s.track, s.route.questionable || s.breakOnInvalid, s.route.questionable)
  {
  }

  lemma KeepsDecoding<S>(a: Owner<S>, b: Owner<S>, o: nat)
    requires Forward(a, b) && o in a.decodings
    ensures o in b.decodings && b.decodings[o] == a.decodings[o]
  {
  }

  lemma SeedStep<S>(img: Image<S>, s: State<S>)
    requires Inv(img, s) && Sane(s) && !s.needReset && s.offset < img.maxOffset && IsAligned(img, s.offset, s.track)
    requires s.offset !in s.owner.slots && img.decode(s.offset, s.track, IsStrict(s)).Good?
    ensures s.offset in Step(img, s).owner.slots
  {
    var out := img.decode(s.offset, s.track, IsStrict(s));
    ConstructIsSane(img, s, out);
    var d := Decode(s, out.size, out.info, out.stops, out.next);
    ActAllPushes(img, d, s.offset, out.actions);
    EndRouteFrame(Construct(img, s, out), img.isArm && !out.stops && IsStrict(Construct(img, s, out)));
    hide ActAll, EndRoute, Sane, Inv;
  }

  /** Diana_AnalyzeScanThrough: a strict seed at every step of a range, skipping the offsets that are `inside` an
      instruction (AArch32: the second halfword of one). */
  datatype Scan<!S> = Scan(end: nat, step: positive, entry: S, inside: (Owner<S>, nat) -> bool)

  /** What one offset of the scan does. */
  ghost function ScanOne<S(!new)>(img: Image<S>, ow: Owner<S>, offset: nat, scan: Scan<S>): (r: Owner<S>)
    requires Ready(img, ow)
    ensures Ready(img, r)
  {
    if scan.inside(ow, offset) then ow
    else
      AnalyzeIsReady(img, ow, Seed(offset, scan.entry, true));
      Analyze(img, ow, Seed(offset, scan.entry, true))
  }

  ghost function ScanThrough<S(!new)>(img: Image<S>, ow: Owner<S>, offset: nat, scan: Scan<S>): (r: Owner<S>)
    requires Ready(img, ow)
    ensures Ready(img, r)
    decreases scan.end - offset
  {
    if scan.end <= offset || img.maxOffset <= offset then ow
    else ScanThrough(img, ScanOne(img, ow, offset, scan), offset + scan.step, scan)
  }

  lemma ForwardReflexive<S>(ow: Owner<S>)
    ensures Forward(ow, ow)
  {
  }

  lemma ScanOneIsForward<S(!new)>(img: Image<S>, ow: Owner<S>, offset: nat, scan: Scan<S>)
    requires Ready(img, ow)
    ensures Forward(ow, ScanOne(img, ow, offset, scan))
  {
    hide Ready, Forward, Analyze, InRange;
    ForwardReflexive(ow);
    AnalyzeIsForward(img, ow, Seed(offset, scan.entry, true));
  }

  lemma {:induction false} ScanIsForward<S(!new)>(img: Image<S>, ow: Owner<S>, offset: nat, scan: Scan<S>)
    requires Ready(img, ow)
    ensures Forward(ow, ScanThrough(img, ow, offset, scan))
    decreases scan.end - offset
  {
    hide Ready, Forward, ScanOne;
    ForwardReflexive(ow);
    if offset < scan.end && offset < img.maxOffset {
      var a := ScanOne(img, ow, offset, scan);
      ScanOneIsForward(img, ow, offset, scan);
      ScanIsForward(img, a, offset + scan.step, scan);
      ForwardTransitive(ow, a, ScanThrough(img, ow, offset, scan));
    }
  }

  lemma ForwardKeepsSlot<S>(a: Owner<S>, b: Owner<S>, o: nat)
    requires Forward(a, b) && o in a.slots
    ensures o in b.slots
  {
  }

  /** The owner when the scan comes to its `k`th offset. */
  ghost function ScanOwner<S(!new)>(img: Image<S>, ow: Owner<S>, offset: nat, scan: Scan<S>, k: nat): (r: Owner<S>)
    requires Ready(img, ow)
    ensures Ready(img, r)
    decreases k
  {
    if k == 0 then ow else ScanOwner(img, ScanOne(img, ow, offset, scan), offset + scan.step, scan, k - 1)
  }

  /** A scan leaves no code behind: every scanned offset that is not inside an instruction when the scan comes to it, and
      whose word is code on a strict route, has an entry afterwards, valid or rolled back. */
  lemma {:induction false} ScanLeavesNothing<S(!new)>(img: Image<S>, ow: Owner<S>, offset: nat, scan: Scan<S>, k: nat)
    requires Ready(img, ow) && offset + k * scan.step < scan.end && offset + k * scan.step < img.maxOffset
    requires IsAligned(img, offset + k * scan.step, scan.entry)
    requires img.decode(offset + k * scan.step, scan.entry, true).Good?
    requires !scan.inside(ScanOwner(img, ow, offset, scan, k), offset + k * scan.step)
    ensures offset + k * scan.step in ScanThrough(img, ow, offset, scan).slots
    decreases k
  {
    hide Ready, Analyze, InRange, Forward, IsAligned;
    assert offset <= offset + k * scan.step;
    var a := ScanOne(img, ow, offset, scan);
    if k == 0 {
      SeedIsVisited(img, ow, Seed(offset, scan.entry, true));
      ScanIsForward(img, a, offset + scan.step, scan);
      ForwardKeepsSlot(a, ScanThrough(img, a, offset + scan.step, scan), offset);
    } else {
      assert (offset + scan.step) + (k - 1) * scan.step == offset + k * scan.step;
      ScanLeavesNothing(img, a, offset + scan.step, scan, k - 1);
    }
  }
}
