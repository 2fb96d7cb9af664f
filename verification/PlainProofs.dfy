/** Routes that do not have to prove that they are code: what they decode stays valid. */
module PlainProofs {
  import opened RouteModel
  import opened OwnerInvariant
  import opened OwnerProofs
  import opened SessionInvariant
  import opened ReferenceProofs
  import opened StepProofs
  import opened LoopProofs
  import opened RunProofs
  import opened FinalityProofs

  /** Whatever a route decoded that was neither questionable nor strict is valid. */
  ghost predicate PlainValid<S>(ow: Owner<S>) {
    forall o | o in ow.decodings && !ow.decodings[o].strict :: IsValid(ow, o)
  }

  /** A rollback takes strict instructions, and a start that was not decoded. */
  lemma VictimsAreStrict<S>(img: Image<S>, s: State<S>)
    requires Routes(img, s) && CanRollBack(s) && Provenance(s.owner)
    ensures forall v | v in Victims(s) && v in s.owner.decodings :: s.owner.decodings[v].strict
  {
  }

  lemma RolledBackPlain<S>(ow: Owner<S>, victims: seq<nat>, r: Owner<S>)
    requires PlainValid(ow) && RolledBack(ow, victims, r)
    requires forall v | v in victims && v in ow.decodings :: ow.decodings[v].strict
    ensures PlainValid(r)
  {
    hide Extends;
    forall o | o in r.decodings && !r.decodings[o].strict
      ensures IsValid(r, o)
    {
      assert IsValid(ow, o) && o !in victims;
    }
  }

  lemma RollbackPlain<S>(img: Image<S>, s: State<S>)
    requires Constructed(img, s) && CanRollBack(s) && PlainValid(s.owner)
    ensures Sane(s) && PlainValid(EndRoute(s, true).owner)
  {
    Parts(img, s);
    RollbackKeeps(s);
    VictimsAreStrict(img, s);
    hide Constructed, Core, Routes, OwnerInv, Referenced, Flows, RolledBack, PlainValid, Rollback, CanRollBack;
    RolledBackPlain(s.owner, Victims(s), Rollback(s).owner);
  }

  lemma ConstructDecodings<S>(img: Image<S>, s: State<S>, out: Outcome<S>)
    requires Constructed(img, s) && CanDecode(img, s) && out.Good?
    ensures Construct(img, s, out).owner.decodings ==
            s.owner.decodings[s.offset := Decoding(s.track, IsStrict(s), s.route.questionable)]
  {
    var d := Decode(s, out.size, out.info, out.stops, out.next);
    Parts(img, s);
    DecodeCore(img, s, out.size, out.info, out.stops, out.next);
    ConstructIs(img, s, out);
    hide Decode, ActAll, Construct, Core, Constructed, Referenced, Flows, Extends, Routes, OwnerInv, Sized, CanDecode;
    ActAllKeeps(img, d, s.offset, out.actions);
  }

  lemma DecodedPlain<S>(s: State<S>, r: State<S>, decoding: Decoding<S>)
    requires PlainValid(s.owner) && AllValid(r) && s.offset in r.added
    requires r.owner.decodings == s.owner.decodings[s.offset := decoding]
    requires forall o | IsValid(s.owner, o) :: Stable(s.owner, r.owner, o)
    ensures PlainValid(r.owner)
  {
    forall o | o in r.owner.decodings && !r.owner.decodings[o].strict
      ensures IsValid(r.owner, o)
    {
      if o != s.offset {
        assert IsValid(s.owner, o);
        assert Stable(s.owner, r.owner, o);
      }
    }
  }

  lemma ConstructPlain<S>(img: Image<S>, s: State<S>, out: Outcome<S>)
    requires Constructed(img, s) && CanDecode(img, s) && out.Good? && AllValid(s) && PlainValid(s.owner)
    ensures PlainValid(Construct(img, s, out).owner)
  {
    hide *;
    ConstructDecodings(img, s, out);
    ConstructEffect(img, s, out);
    DecodedPlain(s, Construct(img, s, out), Decoding(s.track, IsStrict(s), s.route.questionable));
  }

  lemma FinishPlain<S>(img: Image<S>, s: State<S>, stops: bool)
    requires Constructed(img, s) && Sane(s) && s.needReset == stops && PlainValid(s.owner)
    ensures PlainValid(Finish(img, s, stops).owner)
  {
    if img.maxOffset <= s.offset && img.isArm && !stops && IsStrict(s) {
      RollbackPlain(img, s);
    }
    hide Constructed, PlainValid, Rollback;
  }

  lemma ProcessPlain<S>(img: Image<S>, s: State<S>)
    requires Inv(img, s) && !s.needReset && s.offset < img.maxOffset && PlainValid(s.owner)
    ensures Sane(s) && PlainValid(Process(img, s).owner)
  {
    CoreIsSane(img, s);
    Parts(img, s);
    hide *;
    RoutesAdded(img, s);
    ActiveIsValid(s);
    ProcessIs(img, s);
    var r := Process(img, s);
    var out := img.decode(s.offset, s.track, IsStrict(s));
    if CanRollBack(s) && r == EndRoute(s, true) {
      RollbackPlain(img, s);
    } else if r == EndRoute(s, false) {
      EndKeepsOwner(s);
    } else if CanDecode(img, s) && out.Good? && Sane(Construct(img, s, out))
              && r == Finish(img, Construct(img, s, out), out.stops) {
      ConstructPlain(img, s, out);
      ConstructKeeps(img, s, out);
      FinishPlain(img, Construct(img, s, out), out.stops);
    }
  }

  lemma EndKeepsOwner<S>(s: State<S>)
    requires Sane(s)
    ensures EndRoute(s, false).owner == s.owner
  {
  }

  lemma StepPlain<S>(img: Image<S>, s: State<S>)
    requires Inv(img, s) && !IsDone(img, s) && PlainValid(s.owner)
    ensures Sane(s) && PlainValid(Step(img, s).owner)
  {
    Parts(img, s);
    if RouteEnded(img, s) {
      PopInv(img, s);
      PopAdvances(img, s);
      ProcessPlain(img, Pop(img, s));
    } else {
      ProcessPlain(img, s);
    }
    hide Inv, Process, Sane, PlainValid;
  }

  /** Over a whole run, what plain routes decode is valid, in the end and before. */
  lemma {:induction false} RunPlain<S>(img: Image<S>, s: State<S>)
    requires Inv(img, s) && PlainValid(s.owner)
    ensures Sane(s) && PlainValid(Run(img, s).owner)
    decreases |Absent(img, s)|, |s.stack|, Left(img, s)
  {
    CoreIsSane(img, s);
    if !IsDone(img, s) {
      StepInv(img, s);
      StepPlain(img, s);
      StepIsSmaller(img, s);
      hide Inv, Step, Sane, PlainValid;
      RunPlain(img, Step(img, s));
    }
  }
}
