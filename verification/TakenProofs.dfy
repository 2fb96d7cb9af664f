/** A live address-taken xref into the presence table leads to a valid entry, or to one that still waits in the queue to be
    rolled back. */
module TakenProofs {
  import opened RouteModel
  import opened OwnerInvariant
  import opened OwnerProofs
  import opened SessionInvariant
  import opened ReferenceProofs
  import opened StepProofs
  import opened LoopProofs
  import opened RunProofs

  ghost predicate TakenOk<S>(s: State<S>, x: XRef) {
    && x.addressTaken && !x.invalid && x.target.Code?
    && x.target.offset in s.owner.slots && s.owner.slots[x.target.offset].invalid
    ==> s.owner.slots[x.target.offset].loading && Waiting(s, x.target.offset)
  }

  ghost predicate TakenToCode<S>(s: State<S>) {
    forall i | 0 <= i < |s.owner.xrefs| :: TakenOk(s, s.owner.xrefs[i])
  }

  /** A new address-taken xref into the table leads to a valid entry; an entry that becomes invalid waits. */
  ghost predicate TakenStep<S>(s: State<S>, r: State<S>) {
    && (forall i | 0 <= i < |r.owner.xrefs| ::
          || (i < |s.owner.xrefs| && r.owner.xrefs[i].target == s.owner.xrefs[i].target
              && r.owner.xrefs[i].addressTaken == s.owner.xrefs[i].addressTaken
              && (s.owner.xrefs[i].invalid ==> r.owner.xrefs[i].invalid))
          || TakenOk(r, r.owner.xrefs[i]))
    && (forall o | o in s.owner.slots && o in r.owner.slots && r.owner.slots[o].invalid ::
          || (s.owner.slots[o].invalid && r.owner.slots[o].loading == s.owner.slots[o].loading)
          || (r.owner.slots[o].loading && Waiting(r, o)))
    && (forall o | o in s.owner.slots && Waiting(s, o) :: Waiting(r, o))
  }

  lemma TakenStepKeeps<S>(s: State<S>, r: State<S>)
    requires InRange(s.owner) && TakenToCode(s) && TakenStep(s, r)
    ensures TakenToCode(r)
  {
    forall i | 0 <= i < |r.owner.xrefs|
      ensures TakenOk(r, r.owner.xrefs[i])
    {
      if i < |s.owner.xrefs| {
        assert TakenOk(s, s.owner.xrefs[i]) && HasTarget(s.owner, s.owner.xrefs[i].target);
      }
    }
  }

  // ------------------------------------------------------------------ references

  lemma OwnerOnlyWaiting<S>(s: State<S>, ow: Owner<S>)
    ensures forall o: nat :: Waiting(s.(owner := ow), o) <==> Waiting(s, o)
  {
    assert forall o: nat :: Queued(s.(owner := ow), o) <==> Queued(s, o);
  }

  lemma XRefTaken<S>(s: State<S>, x: XRef)
    requires x.source in s.owner.slots && HasTarget(s.owner, x.target)
    requires x.target.Code? && x.addressTaken ==> !s.owner.slots[x.target.offset].invalid
    ensures TakenStep(s, s.(owner := CreateXRef(s.owner, x)))
  {
    CreateXRefIsQuiet(s.owner, x);
    OwnerOnlyWaiting(s, CreateXRef(s.owner, x));
    hide CreateXRef;
  }

  lemma OutsideTaken<S>(s: State<S>, entry: OutsideEntry, x: XRef)
    requires x.source in s.owner.slots && x.target == Outside(|s.owner.outside|)
    ensures TakenStep(s, s.(owner := AddOutside(s.owner, entry, x)))
  {
    var a := s.owner.(outside := s.owner.outside + [entry]);
    XRefTaken(s.(owner := a), x);
    OwnerOnlyWaiting(s, AddOutside(s.owner, entry, x));
    OwnerOnlyWaiting(s, a);
    hide CreateXRef;
  }

  lemma EnqueueTaken<S>(s: State<S>, target: nat, entry: S, questionable: bool)
    ensures TakenStep(s, Enqueue(s, target, entry, questionable))
  {
    EnqueueQueued(s, target, entry, questionable);
  }

  lemma SaveNewRouteTaken<S>(img: Image<S>, s: State<S>, source: nat, target: nat, entry: S,
                             questionable: bool, addressTaken: bool)
    requires InRange(s.owner) && TakenToCode(s) && source in s.owner.slots
    ensures TakenToCode(SaveNewRoute(img, s, source, target, entry, questionable, addressTaken))
  {
    hide TakenToCode, TakenStep, InRange, CreateXRef, AddOutside;
    var x := XRef(source, Outside(|s.owner.outside|), false, false, true, true);
    OutsideTaken(s, OutsideEntry(target, false, true, []), x);
    TakenStepKeeps(s, s.(owner := AddOutside(s.owner, OutsideEntry(target, false, true, []), x)));
    if !(target in s.owner.slots && s.owner.slots[target].invalid && addressTaken) {
      var a := Enqueue(s, target, entry, questionable);
      EnqueueTaken(s, target, entry, questionable);
      TakenStepKeeps(s, a);
      TargetedInRange(s.owner, target, questionable);
      var y := XRef(source, Code(target), false, false, false, addressTaken);
      XRefTaken(a, y);
      TakenStepKeeps(a, a.(owner := CreateXRef(a.owner, y)));
    }
  }

  lemma TargetedInRange<S>(ow: Owner<S>, target: nat, questionable: bool)
    requires InRange(ow)
    ensures InRange(Targeted(ow, target, questionable))
  {
  }

  lemma SaveDataAccessTaken<S>(img: Image<S>, s: State<S>, source: nat, offset: nat)
    requires InRange(s.owner) && StackOk(img, s) && TakenToCode(s) && source in s.owner.slots
    ensures TakenToCode(SaveDataAccess(img, s, source, offset))
  {
    var a := if IsPendingData(img, s.owner, offset) then s.(owner := Invalidate(s.owner, offset)) else s;
    OwnerOnlyWaiting(s, a.owner);
    assert InRange(a.owner);
    assert TakenStep(s, a);
    TakenStepKeeps(s, a);
    var entry := OutsideEntry(offset, false, true, []);
    var x := XRef(source, Outside(|a.owner.outside|), false, false, true, false);
    OutsideTaken(a, entry, x);
    TakenStepKeeps(a, a.(owner := AddOutside(a.owner, entry, x)));
  }

  lemma {:induction false} MarkDataTaken<S>(s: State<S>, o: nat, end: nat, elements: nat)
    requires InRange(s.owner) && TakenToCode(s)
    ensures TakenToCode(s.(owner := MarkDataFrom(s.owner, o, end, elements)))
    decreases end - o
  {
    if o < end {
      var t := if o in s.owner.slots then s else s.(owner := DataSlot(s.owner, o, elements));
      OwnerOnlyWaiting(s, t.owner);
      assert TakenStep(s, t);
      TakenStepKeeps(s, t);
      assert InRange(t.owner);
      MarkDataTaken(t, o + 2, end, elements);
    }
  }

  lemma ActTaken<S>(img: Image<S>, s: State<S>, source: nat, action: Action<S>)
    requires InRange(s.owner) && StackOk(img, s) && TakenToCode(s) && source in s.owner.slots
    ensures TakenToCode(Act(img, s, source, action))
  {
    hide InRange, StackOk, TakenToCode, TakenStep, MarkDataFrom, SaveNewRoute, SaveDataAccess;
    match action
    case Jump(target, entry) => SaveNewRouteTaken(img, s, source, target, entry, s.route.questionable, false);
    case TakeAddress(target, entry) => SaveNewRouteTaken(img, s, source, target, entry, true, true);
    case TakeDataAddress(target) =>
      var x := XRef(source, Outside(|s.owner.outside|), false, false, true, true);
      OutsideTaken(s, OutsideEntry(target, false, true, []), x);
      TakenStepKeeps(s, s.(owner := AddOutside(s.owner, OutsideEntry(target, false, true, []), x)));
    case ReadData(target) => SaveDataAccessTaken(img, s, source, target);
    case External(address, linksToData, data, addressTaken) =>
      var x := XRef(source, Outside(|s.owner.outside|), false, true, data, addressTaken);
      OutsideTaken(s, OutsideEntry(address, true, linksToData, []), x);
      TakenStepKeeps(s, s.(owner := AddOutside(s.owner, OutsideEntry(address, true, linksToData, []), x)));
    case MarkData(target, size, elements) =>
      var odd := (img.imageBase + target) % 2;
      if !(img.maxOffset <= target || target < odd) {
        MarkDataTaken(s, target - odd, DataEnd(img, target, size), elements);
      }
  }

  lemma CoreFacts<S>(img: Image<S>, s: State<S>)
    requires Core(img, s)
    ensures InRange(s.owner) && StackOk(img, s)
  {
    LinkedIsInRange(s.owner);
  }

  lemma {:induction false} ActAllTaken<S>(img: Image<S>, s: State<S>, source: nat, actions: seq<Action<S>>)
    requires Core(img, s) && CanRefer(s, source) && !Fresh(s) && TakenToCode(s)
    ensures TakenToCode(ActAll(img, s, source, actions))
    decreases |actions|
  {
    if |actions| != 0 {
      CoreFacts(img, s);
      hide Core, Act, TakenToCode, InRange, StackOk;
      ActTaken(img, s, source, actions[0]);
      ActKeeps(img, s, source, actions[0]);
      var a := Act(img, s, source, actions[0]);
      ActsFrame(s, a);
      ActAllTaken(img, a, source, actions[1..]);
    }
  }

  // ------------------------------------------------------------------ a step

  lemma LeavesFreshTaken<S>(s: State<S>, r: State<S>)
    requires TakenToCode(s) && StartSettled(s) && !Fresh(r)
    requires r == s.(offset := r.offset, track := r.track, needReset := r.needReset)
    ensures TakenToCode(r)
  {
    assert forall o: nat :: Queued(r, o) <==> Queued(s, o);
    forall i | 0 <= i < |r.owner.xrefs|
      ensures TakenOk(r, r.owner.xrefs[i])
    {
      assert TakenOk(s, s.owner.xrefs[i]);
    }
  }

  lemma RolledBackTaken<S>(s: State<S>, victims: seq<nat>, ow: Owner<S>)
    requires TakenToCode(s) && InRange(s.owner) && RolledBack(s.owner, victims, ow)
    requires Fresh(s) && s.route.start in s.owner.slots && s.owner.slots[s.route.start].loading ==> s.route.start in victims
    ensures TakenToCode(s.(owner := ow, needReset := true))
  {
    var r := s.(owner := ow, needReset := true);
    assert forall o: nat :: Queued(r, o) <==> Queued(s, o);
    forall i | 0 <= i < |r.owner.xrefs|
      ensures TakenOk(r, r.owner.xrefs[i])
    {
      if i < |s.owner.xrefs| {
        assert TakenOk(s, s.owner.xrefs[i]) && HasTarget(s.owner, s.owner.xrefs[i].target);
        assert SameXRef(s.owner.xrefs[i], ow.xrefs[i]);
      }
    }
  }

  lemma RollbackTaken<S>(img: Image<S>, s: State<S>)
    requires Constructed(img, s) && CanRollBack(s) && TakenToCode(s) && Sane(s)
    ensures TakenToCode(EndRoute(s, true))
  {
    Parts(img, s);
    RollbackKeeps(s);
    RollbackEnds(s);
    VictimsAreCounted(img, s);
    hide Constructed, CanRollBack, TakenToCode, Rollback, EndRoute, Routes, OwnerInv, Sized, Flows, Referenced, RolledBack;
    RolledBackTaken(s, Victims(s), Rollback(s).owner);
  }

  lemma PopTaken<S>(img: Image<S>, s: State<S>)
    requires Routes(img, s) && RouteEnded(img, s) && s.stack != [] && TakenToCode(s)
    ensures TakenToCode(Pop(img, s))
  {
    PopWaiting(img, s);
    forall i | 0 <= i < |s.owner.xrefs|
      ensures TakenOk(Pop(img, s), s.owner.xrefs[i])
    {
      assert TakenOk(s, s.owner.xrefs[i]);
    }
  }

  lemma DecodeTaken<S>(img: Image<S>, s: State<S>, size: positive, info: nat, stops: bool, next: S)
    requires TakenToCode(s) && CanDecode(img, s)
    ensures TakenToCode(Decode(s, size, info, stops, next))
  {
    var r := Decode(s, size, info, stops, next);
    assert forall o: nat :: Queued(r, o) <==> Queued(s, o);
    forall i | 0 <= i < |r.owner.xrefs|
      ensures TakenOk(r, r.owner.xrefs[i])
    {
      assert TakenOk(s, s.owner.xrefs[i]);
    }
  }

  lemma ConstructTaken<S>(img: Image<S>, s: State<S>, out: Outcome<S>)
    requires Constructed(img, s) && CanDecode(img, s) && out.Good? && TakenToCode(s)
    ensures TakenToCode(Construct(img, s, out))
  {
    hide *;
    Parts(img, s);
    var d := Decode(s, out.size, out.info, out.stops, out.next);
    DecodeCore(img, s, out.size, out.info, out.stops, out.next);
    DecodeTaken(img, s, out.size, out.info, out.stops, out.next);
    ConstructIs(img, s, out);
    ActAllTaken(img, d, s.offset, out.actions);
  }

  lemma FinishTaken<S>(img: Image<S>, s: State<S>, stops: bool)
    requires Constructed(img, s) && Sane(s) && !Fresh(s) && s.needReset == stops && TakenToCode(s)
    ensures TakenToCode(Finish(img, s, stops))
  {
    if img.maxOffset <= s.offset {
      if img.isArm && !stops && IsStrict(s) {
        RollbackTaken(img, s);
      } else {
        LeavesFreshTaken(s, s.(needReset := true));
      }
    }
    hide Constructed, TakenToCode, Sane, Rollback;
  }

  lemma EndTaken<S>(s: State<S>)
    requires TakenToCode(s) && StartSettled(s) && Sane(s)
    ensures TakenToCode(EndRoute(s, false))
  {
    LeavesFreshTaken(s, s.(needReset := true));
  }

  /** The route goes on at `next`, or ends. */
  lemma EndsTaken<S>(img: Image<S>, s: State<S>, next: S)
    requires Inv(img, s) && !s.needReset && s.offset < img.maxOffset && TakenToCode(s)
    ensures Sane(s)
    ensures IsStrict(s) ==> TakenToCode(EndRoute(s, true))
    ensures !IsStrict(s) ==> TakenToCode(EndRoute(s, false))
    ensures !IsStrict(s) ==> TakenToCode(s.(offset := s.offset + RouteAlignment(img, s.track), track := next))
  {
    Parts(img, s);
    hide Constructed, TakenToCode, Sane, Rollback, EndRoute, Routes, OwnerInv, Sized, Referenced, Flows,
         IsAligned, Core, Provenance, StartSettled, FrontierSettled, RouteAlignment;
    if IsStrict(s) {
      RollbackTaken(img, s);
    } else {
      FreshStart(img, s);
      EndTaken(s);
      SkipTaken(img, s, next);
    }
  }

  lemma EndsAtEntryTaken<S>(img: Image<S>, s: State<S>)
    requires Inv(img, s) && !s.needReset && s.offset < img.maxOffset && TakenToCode(s) && s.offset in s.owner.slots
    requires if s.owner.slots[s.offset].invalid then !s.route.questionable else !s.owner.slots[s.offset].loading
    ensures Sane(s) && TakenToCode(EndRoute(s, false))
  {
    Parts(img, s);
    hide Constructed, TakenToCode, Sane, Rollback, EndRoute, Routes, OwnerInv, Sized, Referenced, Flows,
         IsAligned, Core, Provenance, StartSettled, FrontierSettled;
    EndsAtEntry(img, s);
    EndTaken(s);
  }

  lemma WordTaken<S>(img: Image<S>, s: State<S>, out: Outcome<S>)
    requires Inv(img, s) && !s.needReset && s.offset < img.maxOffset && TakenToCode(s)
    requires out == img.decode(s.offset, s.track, IsStrict(s)) && out.Good? && CanDecode(img, s)
    ensures Sane(s) && Sane(Construct(img, s, out)) && TakenToCode(Finish(img, Construct(img, s, out), out.stops))
  {
    Parts(img, s);
    hide Constructed, TakenToCode, Sane, Finish, Construct, Routes, OwnerInv, Sized, Referenced, Flows, CanDecode;
    ConstructTaken(img, s, out);
    ConstructKeeps(img, s, out);
    Parts(img, Construct(img, s, out));
    FinishTaken(img, Construct(img, s, out), out.stops);
  }

  lemma ProcessTaken<S>(img: Image<S>, s: State<S>)
    requires Inv(img, s) && !s.needReset && s.offset < img.maxOffset && TakenToCode(s)
    ensures Sane(s) && TakenToCode(Process(img, s))
  {
    hide TakenToCode, Sane, EndRoute, Finish, Construct, Constructed, IsAligned, Inv, RouteAlignment;
    var out := img.decode(s.offset, s.track, IsStrict(s));
    EndsTaken(img, s, out.next);
    if s.offset in s.owner.slots && (if s.owner.slots[s.offset].invalid then !s.route.questionable else !s.owner.slots[s.offset].loading) {
      EndsAtEntryTaken(img, s);
    } else if out.Good? && CanDecode(img, s) {
      WordTaken(img, s, out);
    }
  }

  lemma SkipTaken<S>(img: Image<S>, s: State<S>, track: S)
    requires TakenToCode(s) && StartSettled(s) && Routes(img, s) && !s.needReset
    ensures TakenToCode(s.(offset := s.offset + RouteAlignment(img, s.track), track := track))
  {
    LeavesFreshTaken(s, s.(offset := s.offset + RouteAlignment(img, s.track), track := track));
  }

  lemma StepTaken<S>(img: Image<S>, s: State<S>)
    requires Inv(img, s) && !IsDone(img, s) && TakenToCode(s)
    ensures Sane(s) && TakenToCode(Step(img, s))
  {
    Parts(img, s);
    if RouteEnded(img, s) {
      PopInv(img, s);
      PopTaken(img, s);
      hide Inv, TakenToCode, Process, Sane;
      ProcessTaken(img, Pop(img, s));
    } else {
      hide Inv, TakenToCode, Process, Sane;
      ProcessTaken(img, s);
    }
  }

  lemma {:induction false} RunTaken<S>(img: Image<S>, s: State<S>)
    requires Inv(img, s) && TakenToCode(s)
    ensures Sane(s) && TakenToCode(Run(img, s))
    decreases |Absent(img, s)|, |s.stack|, Left(img, s)
  {
    CoreIsSane(img, s);
    if !IsDone(img, s) {
      StepInv(img, s);
      StepTaken(img, s);
      StepIsSmaller(img, s);
      hide Inv, Step, TakenToCode;
      RunTaken(img, Step(img, s));
    }
  }
}
