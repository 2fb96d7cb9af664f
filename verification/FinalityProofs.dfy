/** What a step never takes back: entries only move forward, a finished route keeps its
    instructions, and speculation is all or nothing. */
module FinalityProofs {
  import opened RouteModel
  import opened OwnerInvariant
  import opened OwnerProofs
  import opened SessionInvariant
  import opened ReferenceProofs
  import opened StepProofs
  import opened LoopProofs
  import opened RunProofs

  /** `o` is a valid instruction in both, unchanged but that it may have become a root. */
  ghost predicate Stable<S>(a: Owner<S>, b: Owner<S>, o: nat) {
    && o in a.slots && o in b.slots && !b.slots[o].invalid && SameButRoot(a.slots[o], b.slots[o])
    && o in a.decodings && o in b.decodings && a.decodings[o] == b.decodings[o]
  }

  ghost predicate IsValid<S>(ow: Owner<S>, o: nat) {
    o in ow.decodings && o in ow.slots && !ow.slots[o].invalid
  }

  /** A valid instruction that is not on the current route. */
  ghost predicate IsFinal<S>(s: State<S>, o: nat) {
    IsValid(s.owner, o) && o !in s.added
  }

  /** Absent, loading, decoded, invalid: an entry never moves back. */
  ghost predicate Forward<S>(a: Owner<S>, b: Owner<S>) {
    && (forall o | o in a.slots ::
          o in b.slots && (a.slots[o].invalid ==> b.slots[o].invalid)
          && (!a.slots[o].loading ==> !b.slots[o].loading && b.slots[o].info == a.slots[o].info))
    && (forall o | o in a.decodings :: o in b.decodings && b.decodings[o] == a.decodings[o])
  }

  lemma ForwardTransitive<S>(a: Owner<S>, b: Owner<S>, c: Owner<S>)
    requires Forward(a, b) && Forward(b, c)
    ensures Forward(a, c)
  {
  }

  // ------------------------------------------------------------------ references

  lemma {:induction false} MarkDataForward<S>(ow: Owner<S>, o: nat, end: nat, elements: nat)
    ensures Forward(ow, MarkDataFrom(ow, o, end, elements))
    decreases end - o
  {
    if o < end {
      if o in ow.slots {
        MarkDataForward(ow, o + 2, end, elements);
      } else {
        MarkDataForward(DataSlot(ow, o, elements), o + 2, end, elements);
        ForwardTransitive(ow, DataSlot(ow, o, elements), MarkDataFrom(ow, o, end, elements));
      }
    }
  }

  lemma CreateXRefForward<S>(ow: Owner<S>, x: XRef)
    requires x.source in ow.slots && HasTarget(ow, x.target)
    ensures Forward(ow, CreateXRef(ow, x))
  {
  }

  lemma ForwardSlots<S>(a: Owner<S>, b: Owner<S>)
    requires b.slots == a.slots && b.decodings == a.decodings
    ensures Forward(a, b)
  {
  }

  lemma SaveDataXRefForward<S>(ow: Owner<S>, source: nat, offset: nat, addressTaken: bool)
    requires source in ow.slots
    ensures Forward(ow, SaveDataXRef(ow, source, offset, addressTaken))
  {
    var a := ow.(outside := ow.outside + [OutsideEntry(offset, false, true, [])]);
    CreateXRefForward(a, XRef(source, Outside(|ow.outside|), false, false, true, addressTaken));
    ForwardSlots(ow, a);
    ForwardTransitive(ow, a, SaveDataXRef(ow, source, offset, addressTaken));
    hide Forward, CreateXRef;
  }

  lemma TargetedForward<S>(ow: Owner<S>, target: nat, questionable: bool)
    ensures Forward(ow, Targeted(ow, target, questionable))
  {
  }

  lemma SaveNewRouteForward<S>(img: Image<S>, s: State<S>, source: nat, target: nat, entry: S,
                               questionable: bool, addressTaken: bool)
    requires source in s.owner.slots
    ensures Forward(s.owner, SaveNewRoute(img, s, source, target, entry, questionable, addressTaken).owner)
  {
    var a := Targeted(s.owner, target, questionable);
    var x := XRef(source, Code(target), false, false, false, addressTaken);
    SaveDataXRefForward(s.owner, source, target, addressTaken);
    TargetedForward(s.owner, target, questionable);
    CreateXRefForward(a, x);
    hide CreateXRef, Forward, Targeted, SaveDataXRef;
    ForwardTransitive(s.owner, a, CreateXRef(a, x));
    ForwardSlots(s.owner, s.owner);
  }

  lemma ExternalForward<S>(img: Image<S>, ow: Owner<S>, source: nat, address: nat, linksToData: bool, data: bool,
                           addressTaken: bool)
    requires source in ow.slots
    ensures Forward(ow, SaveNewExternalRoute(img, ow, source, address, linksToData, data, addressTaken))
  {
    var a := ow.(outside := ow.outside + [OutsideEntry(address, true, linksToData, [])]);
    CreateXRefForward(a, XRef(source, Outside(|ow.outside|), false, true, data, addressTaken));
    ForwardSlots(ow, a);
    ForwardSlots(ow, ow);
    hide Forward, CreateXRef;
    ForwardTransitive(ow, a, AddOutside(ow, OutsideEntry(address, true, linksToData, []),
                                        XRef(source, Outside(|ow.outside|), false, true, data, addressTaken)));
  }

  lemma DataAccessForward<S>(img: Image<S>, s: State<S>, source: nat, target: nat)
    requires source in s.owner.slots
    ensures Forward(s.owner, SaveDataAccess(img, s, source, target).owner)
  {
    var a := if IsPendingData(img, s.owner, target) then Invalidate(s.owner, target) else s.owner;
    SaveDataXRefForward(a, source, target, false);
    assert Forward(s.owner, a);
    hide Forward, SaveDataXRef;
    ForwardTransitive(s.owner, a, SaveDataXRef(a, source, target, false));
  }

  lemma ActForward<S>(img: Image<S>, s: State<S>, source: nat, action: Action<S>)
    requires source in s.owner.slots
    ensures Forward(s.owner, Act(img, s, source, action).owner)
  {
    ForwardSlots(s.owner, s.owner);
    hide Forward, SaveNewRoute, SaveDataXRef, SaveDataAccess, SaveNewExternalRoute, MarkDataFrom;
    match action
    case Jump(target, entry) => SaveNewRouteForward(img, s, source, target, entry, s.route.questionable, false);
    case TakeAddress(target, entry) => SaveNewRouteForward(img, s, source, target, entry, true, true);
    case TakeDataAddress(target) => SaveDataXRefForward(s.owner, source, target, true);
    case ReadData(target) => DataAccessForward(img, s, source, target);
    case External(address, linksToData, data, addressTaken) =>
      ExternalForward(img, s.owner, source, address, linksToData, data, addressTaken);
    case MarkData(target, size, elements) =>
      var odd := (img.imageBase + target) % 2;
      if !(img.maxOffset <= target || target < odd) {
        MarkDataForward(s.owner, target - odd, DataEnd(img, target, size), elements);
      }
  }

  lemma {:induction false} ActAllForward<S>(img: Image<S>, s: State<S>, source: nat, actions: seq<Action<S>>)
    requires source in s.owner.slots
    ensures Forward(s.owner, ActAll(img, s, source, actions).owner)
    decreases |actions|
  {
    if |actions| != 0 {
      ActForward(img, s, source, actions[0]);
      ActKeepsSlots(img, s, source, actions[0]);
      hide Act, Forward;
      ActAllForward(img, Act(img, s, source, actions[0]), source, actions[1..]);
      ForwardTransitive(s.owner, Act(img, s, source, actions[0]).owner, ActAll(img, s, source, actions).owner);
    } else {
      assert Forward(s.owner, s.owner);
    }
  }

  // ------------------------------------------------------------------ one word

  lemma RolledBackEffect<S>(ow: Owner<S>, victims: seq<nat>, r: Owner<S>)
    requires RolledBack(ow, victims, r)
    ensures Forward(ow, r)
    ensures forall o | IsValid(ow, o) && o !in victims :: Stable(ow, r, o)
    ensures forall o | o in victims && o in ow.slots :: o in r.slots && r.slots[o].invalid
  {
  }

  lemma VictimsAreTheRoute<S>(s: State<S>)
    requires Sane(s) && Provenance(s.owner)
    ensures forall o | IsFinal(s, o) :: o !in Victims(s)
    ensures forall o | o in s.added :: o in Victims(s) && o in s.owner.slots
  {
  }

  lemma RollbackEffect<S>(img: Image<S>, s: State<S>)
    requires Constructed(img, s) && Sane(s) && CanRollBack(s)
    ensures var r := EndRoute(s, true);
            && Forward(s.owner, r.owner) && r.added == s.added
            && (forall o | IsFinal(s, o) :: Stable(s.owner, r.owner, o))
            && (forall o | o in s.added :: o in r.owner.slots && r.owner.slots[o].invalid)
  {
    Parts(img, s);
    RollbackKeeps(s);
    RollbackEnds(s);
    VictimsAreTheRoute(s);
    hide *;
    RolledBackEffect(s.owner, Victims(s), Rollback(s).owner);
    forall o | IsFinal(s, o)
      ensures Stable(s.owner, EndRoute(s, true).owner, o)
    {
      FinalIsValid(s, o);
    }
  }

  lemma FinalIsValid<S>(s: State<S>, o: nat)
    requires IsFinal(s, o)
    ensures IsValid(s.owner, o)
  {
  }

  lemma EndRouteEffect<S>(img: Image<S>, s: State<S>, rollback: bool)
    requires Constructed(img, s) && Sane(s) && (rollback ==> CanRollBack(s))
    ensures var r := EndRoute(s, rollback);
            && Forward(s.owner, r.owner) && r.added == s.added
            && (forall o | IsFinal(s, o) :: Stable(s.owner, r.owner, o))
            && (rollback ==> forall o | o in s.added :: o in r.owner.slots && r.owner.slots[o].invalid)
            && (!rollback ==> r.owner == s.owner)
  {
    if rollback {
      RollbackEffect(img, s);
    }
    hide Rollback, Constructed;
  }

  /** All of a route is valid until it is rolled back; then none of it is. */
  ghost predicate AllOrNothing<S>(s: State<S>) {
    || (forall o | o in s.added :: o in s.owner.slots && !s.owner.slots[o].invalid)
    || (forall o | o in s.added :: o in s.owner.slots && s.owner.slots[o].invalid)
  }

  ghost predicate AllValid<S>(s: State<S>) {
    forall o | o in s.added :: IsValid(s.owner, o)
  }

  lemma DecodeForward<S>(s: State<S>, size: positive, info: nat, stops: bool, next: S)
    requires s.offset in s.owner.slots ==> s.owner.slots[s.offset].loading && !s.owner.slots[s.offset].invalid
    requires s.offset !in s.owner.decodings
    ensures var d := Decode(s, size, info, stops, next);
            && Forward(s.owner, d.owner)
            && (forall o | IsValid(s.owner, o) :: Stable(s.owner, d.owner, o))
            && (AllValid(s) ==> AllValid(d))
  {
  }

  lemma ConstructEffect<S>(img: Image<S>, s: State<S>, out: Outcome<S>)
    requires Constructed(img, s) && CanDecode(img, s) && out.Good? && AllValid(s)
    ensures var r := Construct(img, s, out);
            && Forward(s.owner, r.owner) && r.added == s.added + [s.offset]
            && (forall o | IsValid(s.owner, o) :: o != s.offset && Stable(s.owner, r.owner, o))
            && AllValid(r)
  {
    hide Decode, ActAll, Construct, Core, Constructed, Referenced, Flows, Extends, Routes, OwnerInv, Sized, Forward;
    var d := Decode(s, out.size, out.info, out.stops, out.next);
    Parts(img, s);
    DecodeCore(img, s, out.size, out.info, out.stops, out.next);
    DecodeForward(s, out.size, out.info, out.stops, out.next);
    DecodeAdds(s, out);
    ActAllKeeps(img, d, s.offset, out.actions);
    ActAllForward(img, d, s.offset, out.actions);
    ActAllFrame(img, d, s.offset, out.actions);
    ConstructIs(img, s, out);
    var r := Construct(img, s, out);
    assert r == ActAll(img, d, s.offset, out.actions);
    ForwardTransitive(s.owner, d.owner, r.owner);
    assert forall o | IsValid(s.owner, o) :: Stable(d.owner, r.owner, o);
  }

  lemma DecodeAdds<S>(s: State<S>, out: Outcome<S>)
    requires out.Good?
    ensures var d := Decode(s, out.size, out.info, out.stops, out.next);
            d.added == s.added + [s.offset] && s.offset in d.owner.slots && IsValid(d.owner, s.offset)
  {
  }

  lemma FinishEffect<S>(img: Image<S>, s: State<S>, stops: bool)
    requires Constructed(img, s) && Sane(s) && !Fresh(s) && s.needReset == stops && AllValid(s)
    ensures var r := Finish(img, s, stops);
            && Forward(s.owner, r.owner) && r.added == s.added && AllOrNothing(r)
            && (forall o | IsFinal(s, o) :: Stable(s.owner, r.owner, o))
  {
    if img.maxOffset <= s.offset {
      EndRouteEffect(img, s, img.isArm && !stops && IsStrict(s));
    }
    hide EndRoute, Constructed, Sane;
  }

  /** A step from inside a route. */
  ghost predicate Advances<S>(s: State<S>, r: State<S>) {
    && Forward(s.owner, r.owner) && AllOrNothing(r)
    && (forall o | IsFinal(s, o) :: o !in r.added && Stable(s.owner, r.owner, o))
  }

  lemma ComposeAdvances<S>(s: State<S>, c: State<S>, r: State<S>)
    requires Forward(s.owner, r.owner) && AllOrNothing(r)
    requires c.added == s.added + [s.offset] && r.added == c.added
    requires forall o | IsValid(s.owner, o) :: o != s.offset && Stable(s.owner, c.owner, o)
    requires forall o | IsFinal(c, o) :: Stable(c.owner, r.owner, o)
    ensures Advances(s, r)
  {
    hide Forward, AllOrNothing;
    forall o | IsFinal(s, o)
      ensures o !in r.added && Stable(s.owner, r.owner, o)
    {
      assert IsFinal(c, o);
    }
  }

  lemma ConstructAdvances<S>(img: Image<S>, s: State<S>, out: Outcome<S>)
    requires Inv(img, s) && CanDecode(img, s) && out == img.decode(s.offset, s.track, IsStrict(s)) && out.Good?
    requires AllValid(s)
    ensures Sane(Construct(img, s, out)) && Advances(s, Finish(img, Construct(img, s, out), out.stops))
  {
    var c := Construct(img, s, out);
    ConstructKeeps(img, s, out);
    Parts(img, c);
    ConstructEffect(img, s, out);
    FinishEffect(img, c, out.stops);
    hide *;
    ForwardTransitive(s.owner, c.owner, Finish(img, c, out.stops).owner);
    ComposeAdvances(s, c, Finish(img, c, out.stops));
  }

  lemma EndAdvances<S>(img: Image<S>, s: State<S>, rollback: bool)
    requires Inv(img, s) && Sane(s) && (rollback ==> CanRollBack(s)) && AllValid(s)
    ensures Advances(s, EndRoute(s, rollback))
  {
    EndRouteEffect(img, s, rollback);
    hide EndRoute, Constructed, Sane, CanRollBack;
  }

  lemma ActiveIsValid<S>(s: State<S>)
    requires AddedOk(s) && !s.needReset
    ensures AllValid(s)
  {
  }

  lemma SkipAdvances<S>(s: State<S>, r: State<S>)
    requires r.owner == s.owner && r.added == s.added && AllValid(s)
    ensures Advances(s, r)
  {
  }

  /** What Process does, case by case. */
  lemma ProcessIs<S>(img: Image<S>, s: State<S>)
    requires Sane(s) && !s.needReset && s.offset < img.maxOffset
    ensures var out := img.decode(s.offset, s.track, IsStrict(s));
            var r := Process(img, s);
            || (CanRollBack(s) && r == EndRoute(s, true))
            || r == EndRoute(s, false)
            || (r.owner == s.owner && r.added == s.added)
            || (CanDecode(img, s) && out.Good? && Sane(Construct(img, s, out))
                && r == Finish(img, Construct(img, s, out), out.stops))
  {
    var out := img.decode(s.offset, s.track, IsStrict(s));
    if out.Good? {
      ConstructIsSane(img, s, out);
    }
    hide EndRoute, Construct, Finish, Sane, IsAligned;
  }

  lemma ProcessAdvances<S>(img: Image<S>, s: State<S>)
    requires Inv(img, s) && !s.needReset && s.offset < img.maxOffset
    ensures Sane(s) && Advances(s, Process(img, s))
  {
    CoreIsSane(img, s);
    Parts(img, s);
    hide *;
    RoutesAdded(img, s);
    ActiveIsValid(s);
    ProcessIs(img, s);
    var r := Process(img, s);
    var out := img.decode(s.offset, s.track, IsStrict(s));
    if CanRollBack(s) && r == EndRoute(s, true) {
      EndAdvances(img, s, true);
    } else if r == EndRoute(s, false) {
      EndAdvances(img, s, false);
    } else if r.owner == s.owner && r.added == s.added {
      SkipAdvances(s, r);
    } else {
      ConstructAdvances(img, s, out);
    }
  }

  lemma PopAdvances<S>(img: Image<S>, s: State<S>)
    requires s.stack != []
    ensures Pop(img, s).owner == s.owner && Pop(img, s).added == []
  {
  }

  /** Every instruction of a route that has ended is final, if it is valid. */
  lemma StepAdvances<S>(img: Image<S>, s: State<S>)
    requires Inv(img, s) && !IsDone(img, s)
    ensures Sane(s)
    ensures Forward(s.owner, Step(img, s).owner) && AllOrNothing(Step(img, s))
    ensures forall o | IsValid(s.owner, o) && (o !in s.added || RouteEnded(img, s)) ::
              o !in Step(img, s).added && Stable(s.owner, Step(img, s).owner, o)
  {
    Parts(img, s);
    if RouteEnded(img, s) {
      PopInv(img, s);
      PopAdvances(img, s);
      ProcessAdvances(img, Pop(img, s));
    } else {
      ProcessAdvances(img, s);
    }
    hide Inv, Process, Sane, Forward, AllOrNothing, Stable;
  }

  // ------------------------------------------------------------------ the run

  lemma {:induction false} RunAdvances<S>(img: Image<S>, s: State<S>)
    requires Inv(img, s)
    ensures Sane(s) && Forward(s.owner, Run(img, s).owner)
    ensures forall o | IsFinal(s, o) :: Stable(s.owner, Run(img, s).owner, o)
    decreases |Absent(img, s)|, |s.stack|, Left(img, s)
  {
    CoreIsSane(img, s);
    if !IsDone(img, s) {
      var t := Step(img, s);
      StepInv(img, s);
      StepAdvances(img, s);
      StepIsSmaller(img, s);
      RunAdvances(img, t);
      hide Inv, Step, Sane;
      var r := Run(img, s);
      assert r == Run(img, t);
      ForwardTransitive(s.owner, t.owner, r.owner);
      forall o | IsFinal(s, o)
        ensures Stable(s.owner, r.owner, o)
      {
        assert IsFinal(t, o);
      }
    } else {
      assert Run(img, s) == s;
    }
  }

  /** A valid instruction stays as it is once its route has ended. */
  lemma EndedStays<S>(img: Image<S>, t: State<S>, o: nat)
    requires Inv(img, t) && RouteEnded(img, t) && IsValid(t.owner, o)
    ensures Sane(t) && Stable(t.owner, Run(img, t).owner, o)
  {
    CoreIsSane(img, t);
    if !IsDone(img, t) {
      StepInv(img, t);
      StepAdvances(img, t);
      RunAdvances(img, Step(img, t));
      assert IsFinal(Step(img, t), o);
      hide Inv, Step, Sane;
      assert Run(img, t) == Run(img, Step(img, t));
    } else {
      assert Run(img, t) == t;
    }
  }

  /** When a route ends, its instructions are valid, and stay as they are to the end of the run, or all are invalid and
      stay so. */
  lemma RouteEndsForGood<S>(img: Image<S>, s: State<S>)
    requires Inv(img, s) && Sane(s) && !IsDone(img, s) && RouteEnded(img, Step(img, s))
    ensures var t := Step(img, s);
            && Sane(t) && (forall o | o in t.added :: o in t.owner.slots)
            && (|| (forall o | o in t.added :: IsValid(t.owner, o) && Stable(t.owner, Run(img, t).owner, o))
                || (forall o | o in t.added :: o in Run(img, t).owner.slots && Run(img, t).owner.slots[o].invalid))
  {
    var t := Step(img, s);
    StepInv(img, s);
    StepAdvances(img, s);
    CoreIsSane(img, t);
    Parts(img, t);
    RoutesAdded(img, t);
    RunAdvances(img, t);
    hide Inv, Step, Run, Sane, Stable, Routes, Core, OwnerInv, Referenced, Flows, Constructed;
    if forall o | o in t.added :: o in t.owner.slots && !t.owner.slots[o].invalid {
      forall o | o in t.added
        ensures IsValid(t.owner, o) && Stable(t.owner, Run(img, t).owner, o)
      {
        EndedStays(img, t, o);
      }
    }
  }
}
