/** The analyzer as the program runs it: an owner and a session whose fields change in place. Every
    method does what RouteModel says, and no allocation from the pool fails. */
module RouteAnalyzer {
  import opened RouteModel
  import opened OwnerInvariant
  import opened OwnerProofs
  import opened SessionInvariant
  import opened ReferenceProofs
  import opened StepProofs
  import opened LoopProofs
  import opened RunProofs
  import opened TakenProofs
  import opened RouteTheorems

  /** Diana_InstructionsOwner. */
  class InstructionsOwner<S> {
    var slots: map<nat, Instruction>
    var xrefs: seq<XRef>
    var outside: seq<OutsideEntry>
    var usedSize: nat
    var actualSize: int
    const maxSize: nat
    ghost var decodings: map<nat, Decoding<S>>

    ghost function View(): Owner<S>
      reads this
    {
      Owner(slots, xrefs, outside, usedSize, actualSize, decodings)
    }

    /** Every entry comes from the pool, and the analyzed range fits it. */
    ghost predicate Fits(img: Image<S>)
      reads this
    {
      usedSize == |slots| && Within(img, View()) && img.maxOffset <= maxSize
    }

    constructor (maxSize: nat)
      ensures View() == EmptyOwner() && this.maxSize == maxSize
    {
      this.maxSize := maxSize;
      slots, xrefs, outside := map[], [], [];
      usedSize, actualSize := 0, 0;
      decodings := map[];
    }

    method AllocateInstruction() returns (ok: bool)
      modifies this
      ensures ok <==> old(usedSize) < maxSize
      ensures View() == (if ok then old(View()).(usedSize := old(usedSize) + 1, actualSize := old(actualSize) + 1)
                         else old(View()))
    {
      if maxSize <= usedSize {
        return false;
      }
      usedSize, actualSize := usedSize + 1, actualSize + 1;
      return true;
    }

    method QueryOrAllocateInstruction(img: Image<S>, o: nat, entry: Instruction)
      requires Fits(img) && o < img.maxOffset
      modifies this
      ensures Fits(img) && View() == QueryOrAllocate(old(View()), o, entry)
    {
      if o !in slots {
        PoolHasRoom(img, View(), o);
        var ok := AllocateInstruction();
        if !ok {
          assert false;
        }
        slots := slots[o := entry];
      }
    }

    /** The entry of a route target, SaveNewRoute. */
    method TargetInstruction(img: Image<S>, target: nat, questionable: bool)
      requires Fits(img) && target < img.maxOffset
      modifies this
      ensures Fits(img) && View() == Targeted(old(View()), target, questionable)
    {
      QueryOrAllocateInstruction(img, target, NewInstruction(true, false, false, 0));
      if !questionable {
        slots := slots[target := slots[target].(root := true)];
      }
    }

    /** The entry of a decoded word, AnalyzeAndConstructInstruction. */
    method DecodeInstruction(img: Image<S>, o: nat, info: nat, root: bool, ghost decoding: Decoding<S>)
      requires Fits(img) && o < img.maxOffset && root == !decoding.questionable
      modifies this
      ensures Fits(img) && View() == DecodeSlot(old(View()), o, info, decoding)
    {
      QueryOrAllocateInstruction(img, o, NewInstruction(false, false, false, 0));
      var entry := slots[o];
      slots := slots[o := Instruction(false, false, root, false, info, entry.refsFrom, entry.refsTo)];
      decodings := decodings[o := decoding];
    }

    method PushXRef(x: XRef)
      requires x.source in slots && HasTarget(View(), x.target)
      modifies this
      ensures View() == CreateXRef(old(View()), x)
      ensures slots.Keys == old(slots).Keys && usedSize == old(usedSize)
    {
      var id := |xrefs|;
      xrefs := xrefs + [x];
      match x.target {
        case Code(o) => slots := slots[o := slots[o].(refsTo := slots[o].refsTo + [id])];
        case Outside(i) => outside := outside[i := outside[i].(refsTo := outside[i].refsTo + [id])];
      }
      slots := slots[x.source := slots[x.source].(refsFrom := slots[x.source].refsFrom + [id])];
    }

    method DataXRef(source: nat, offset: nat, addressTaken: bool)
      requires source in slots
      modifies this
      ensures View() == SaveDataXRef(old(View()), source, offset, addressTaken)
      ensures slots.Keys == old(slots).Keys && usedSize == old(usedSize)
    {
      var index := |outside|;
      outside := outside + [OutsideEntry(offset, false, true, [])];
      PushXRef(XRef(source, Outside(index), false, false, true, addressTaken));
    }

    method ExternalXRef(img: Image<S>, source: nat, address: nat, linksToData: bool, data: bool, addressTaken: bool)
      requires source in slots
      modifies this
      ensures View() == SaveNewExternalRoute(img, old(View()), source, address, linksToData, data, addressTaken)
      ensures slots.Keys == old(slots).Keys
    {
      if IsSkippedExternal(img, address) {
        return;
      }
      var index := |outside|;
      outside := outside + [OutsideEntry(address, true, linksToData, [])];
      PushXRef(XRef(source, Outside(index), false, true, data, addressTaken));
    }

    method MarkArm32DataRange(img: Image<S>, target: nat, size: nat, elements: nat)
      requires Fits(img)
      modifies this
      ensures Fits(img) && View() == MarkArm32Data(img, old(View()), target, size, elements)
      ensures old(slots).Keys <= slots.Keys
    {
      var odd := (img.imageBase + target) % 2;
      if img.maxOffset <= target || target < odd {
        return;
      }
      var end, o := DataEnd(img, target, size), target - odd;
      while o < end
        invariant Fits(img)
        invariant MarkDataFrom(View(), o, end, elements) == MarkDataFrom(old(View()), target - odd, end, elements)
        invariant old(slots).Keys <= slots.Keys
      {
        if o !in slots {
          QueryOrAllocateInstruction(img, o, NewInstruction(false, true, true, elements));
          actualSize := actualSize - 1;
        }
        o := o + 2;
      }
    }

    /** XrefRouteMarker over a list of an instruction. */
    method MarkList(ids: seq<nat>)
      requires forall i | i in ids :: i < |xrefs|
      modifies this
      ensures View() == old(View()).(xrefs := MarkXRefs(old(xrefs), ids))
    {
      for k := 0 to |ids|
        invariant View() == old(View()).(xrefs := MarkXRefs(old(xrefs), ids[..k]))
      {
        assert ids[k] in ids;
        xrefs := xrefs[ids[k] := xrefs[ids[k]].(invalid := true)];
        assert ids[..k + 1] == ids[..k] + [ids[k]];
      }
      assert ids[..|ids|] == ids;
    }

    method MarkRouteEntry(o: nat)
      requires o in slots && InRange(View())
      requires forall i | i in slots[o].refsFrom :: i < |xrefs|
      modifies this
      ensures View() == RouteMarker(old(View()), o)
    {
      var entry := slots[o];
      slots := slots[o := entry.(invalid := true)];
      MarkList(entry.refsTo);
      MarkList(entry.refsFrom);
      actualSize := actualSize - 1;
    }

    /** AddressTakenKeeper over the to-list of an instruction. */
    method KeepList(ids: seq<nat>)
      requires InRange(View()) && forall i | i in ids :: i < |xrefs|
      modifies this
      ensures InRange(View()) && View() == KeepIds(old(View()), ids)
      ensures slots.Keys == old(slots).Keys && usedSize == old(usedSize)
    {
      hide KeepIds, InRange;
      ghost var was := View();
      KeepFromStart(was, ids);
      var k := 0;
      while k < |ids|
        invariant k <= |ids| && InRange(View()) && |was.xrefs| <= |xrefs| && slots.Keys == old(slots).Keys
        invariant usedSize == old(usedSize)
        invariant KeepFrom(View(), ids, k) == KeepIds(was, ids)
      {
        KeepFromUnfolds(View(), ids, k);
        InRangeHolds(View(), ids[k]);
        var x := xrefs[ids[k]];
        if x.addressTaken && !x.data && !slots[x.source].invalid {
          var offset := match x.target case Code(o) => o case Outside(i) => outside[i].offset;
          AddOutsideInRange(View(), OutsideEntry(offset, false, true, []),
                            XRef(x.source, Outside(|outside|), false, false, true, true));
          DataXRef(x.source, offset, true);
        }
        k := k + 1;
      }
      KeepFromEnd(View(), ids);
    }
  }

  /** The references from the k-th on. */
  ghost function KeepFrom<S>(ow: Owner<S>, ids: seq<nat>, k: nat): Owner<S>
    requires InRange(ow) && k <= |ids| && forall i | i in ids :: i < |ow.xrefs|
  {
    assert forall i | i in ids[k..] :: i in ids;
    KeepIds(ow, ids[k..])
  }

  lemma KeepFromStart<S>(ow: Owner<S>, ids: seq<nat>)
    requires InRange(ow) && forall i | i in ids :: i < |ow.xrefs|
    ensures KeepFrom(ow, ids, 0) == KeepIds(ow, ids)
  {
    assert ids[0..] == ids;
  }

  lemma KeepFromEnd<S>(ow: Owner<S>, ids: seq<nat>)
    requires InRange(ow) && forall i | i in ids :: i < |ow.xrefs|
    ensures KeepFrom(ow, ids, |ids|) == ow
  {
  }

  lemma KeepFromUnfolds<S>(ow: Owner<S>, ids: seq<nat>, k: nat)
    requires InRange(ow) && k < |ids| && forall i | i in ids :: i < |ow.xrefs|
    ensures ids[k] in ids && ids[k] < |ow.xrefs| && ow.xrefs[ids[k]].source in ow.slots && HasTarget(ow, ow.xrefs[ids[k]].target)
    ensures var r := KeepOne(ow, ids[k]);
            InRange(r) && |ow.xrefs| <= |r.xrefs| && KeepFrom(ow, ids, k) == KeepFrom(r, ids, k + 1)
  {
    assert ids[k..][0] == ids[k] && ids[k..][1..] == ids[k + 1..];
    assert ids[k] in ids;
    KeepOneInRange(ow, ids[k]);
    hide InRange;
  }

  lemma KeepOneInRange<S>(ow: Owner<S>, id: nat)
    requires InRange(ow) && id < |ow.xrefs|
    ensures ow.xrefs[id].source in ow.slots && HasTarget(ow, ow.xrefs[id].target)
    ensures InRange(KeepOne(ow, id)) && |ow.xrefs| <= |KeepOne(ow, id).xrefs|
  {
    var x := ow.xrefs[id];
    if IsKept(ow, id) {
      AddOutsideInRange(ow, OutsideEntry(TargetOffset(ow, x.target), false, true, []),
                        XRef(x.source, Outside(|ow.outside|), false, false, true, true));
    }
  }

  lemma InRangeHolds<S>(ow: Owner<S>, id: nat)
    requires InRange(ow) && id < |ow.xrefs|
    ensures ow.xrefs[id].source in ow.slots && HasTarget(ow, ow.xrefs[id].target)
  {
  }

  lemma TargetedHolds<S>(ow: Owner<S>, source: nat, target: nat, questionable: bool)
    requires source in ow.slots
    ensures source in Targeted(ow, target, questionable).slots && target in Targeted(ow, target, questionable).slots
  {
  }

  lemma DecodedHolds<S>(ow: Owner<S>, o: nat, info: nat, decoding: Decoding<S>)
    ensures o in DecodeSlot(ow, o, info, decoding).slots
  {
  }

  lemma StrictIs<S>(s: State<S>)
    ensures IsStrict(s) == (s.route.questionable || s.breakOnInvalid)
  {
  }

  /** DianaAnalyzeSession. */
  class AnalyzeSession<S> {
    const img: Image<S>
    const owner: InstructionsOwner<S>
    const breakOnInvalid: bool
    var stack: seq<Route<S>>
    var route: Route<S>
    var added: seq<nat>
    var offset: nat
    var track: S
    var needReset: bool

    ghost function Now(): State<S>
      reads this, owner
    {
      State(owner.View(), breakOnInvalid, stack, route, added, offset, track, needReset)
    }

    constructor (img: Image<S>, owner: InstructionsOwner<S>, seed: Seed<S>)
      ensures this.img == img && this.owner == owner
      ensures Now() == Start(owner.View(), seed)
    {
      this.img, this.owner, this.breakOnInvalid := img, owner, seed.breakOnInvalid;
      stack, route, added := [], Route(seed.offset, false, seed.entry), [];
      offset, track, needReset := seed.offset, seed.entry, false;
    }

    method SaveRoute(source: nat, target: nat, entry: S, questionable: bool, addressTaken: bool)
      requires source in owner.slots && owner.Fits(img)
      modifies this, owner
      ensures owner.Fits(img)
      ensures Now() == SaveNewRoute(img, old(Now()), source, target, entry, questionable, addressTaken)
    {
      hide IsAligned, CreateXRef, SaveDataXRef, Targeted;
      if img.maxOffset <= target {
        return;
      }
      if !IsAligned(img, target, entry) {
        if addressTaken {
          owner.DataXRef(source, target, addressTaken);
        }
        return;
      }
      var found := target in owner.slots;
      if found && owner.slots[target].invalid && addressTaken {
        owner.DataXRef(source, target, addressTaken);
        return;
      }
      TargetedHolds(owner.View(), source, target, questionable);
      owner.TargetInstruction(img, target, questionable);
      owner.PushXRef(XRef(source, Code(target), false, false, false, addressTaken));
      if found {
        return;
      }
      stack := stack + [Route(target, questionable, entry)];
    }

    method DataAccess(source: nat, target: nat)
      requires source in owner.slots && owner.Fits(img)
      modifies owner
      ensures owner.Fits(img) && Now() == SaveDataAccess(img, old(Now()), source, target)
    {
      if img.isArm && target < img.maxOffset && target in owner.slots {
        var pending := owner.slots[target];
        if pending.loading && !pending.root {
          owner.slots := owner.slots[target := pending.(invalid := true)];
        }
      }
      owner.DataXRef(source, target, false);
    }

    method Refer(source: nat, action: Action<S>)
      requires source in owner.slots && owner.Fits(img)
      modifies this, owner
      ensures owner.Fits(img) && Now() == Act(img, old(Now()), source, action)
    {
      match action {
        case Jump(target, entry) => SaveRoute(source, target, entry, route.questionable, false);
        case TakeAddress(target, entry) => SaveRoute(source, target, entry, true, true);
        case TakeDataAddress(target) => owner.DataXRef(source, target, true);
        case ReadData(target) => DataAccess(source, target);
        case External(address, linksToData, data, addressTaken) =>
          owner.ExternalXRef(img, source, address, linksToData, data, addressTaken);
        case MarkData(target, size, elements) => owner.MarkArm32DataRange(img, target, size, elements);
      }
    }

    method ReferAll(source: nat, actions: seq<Action<S>>)
      requires source in owner.slots && owner.Fits(img)
      modifies this, owner
      ensures owner.Fits(img) && Now() == ActAll(img, old(Now()), source, actions)
    {
      var k := 0;
      while k < |actions|
        invariant k <= |actions| && source in owner.slots && owner.Fits(img)
        invariant ActAll(img, Now(), source, actions[k..]) == ActAll(img, old(Now()), source, actions)
      {
        assert actions[k..][0] == actions[k] && actions[k..][1..] == actions[k + 1..];
        ActKeepsSlots(img, Now(), source, actions[k]);
        Refer(source, actions[k]);
        k := k + 1;
      }
    }

    /** RollbackCurrentRoute: the whole route is marked before any address taken of it is kept. */
    method RollbackRoute()
      requires OwnerInv(owner.View()) && Sane(Now()) && owner.Fits(img)
      modifies owner
      ensures owner.Fits(img) && Now() == Rollback(old(Now()))
    {
      hide Provenance, Consistent, FromIndexed, ToIndexed, Conserved, MarkAll, KeepAll;
      var victims := added;
      if route.start in owner.slots && owner.slots[route.start].loading {
        victims := victims + [route.start];
      }
      ghost var was := owner.View();
      assert victims == Victims(old(Now()));
      MarkVictims(victims);
      MarkAllInRange(was, victims);
      KeepVictims(victims);
    }

    method MarkVictims(victims: seq<nat>)
      requires Linked(owner.View()) && owner.Fits(img) && forall v | v in victims :: v in owner.slots
      modifies owner
      ensures owner.Fits(img) && owner.View() == MarkAll(old(owner.View()), victims)
      ensures Linked(owner.View()) && owner.slots.Keys == old(owner.slots).Keys
    {
      var k := 0;
      while k < |victims|
        invariant k <= |victims| && Linked(owner.View()) && owner.Fits(img) && owner.slots.Keys == old(owner.slots).Keys
        invariant forall v | v in victims[k..] :: v in owner.slots
        invariant MarkAll(owner.View(), victims[k..]) == MarkAll(old(owner.View()), victims)
      {
        assert victims[k..][0] == victims[k] && victims[k..][1..] == victims[k + 1..];
        assert forall v | v in victims[k + 1..] :: v in victims[k..];
        MarkVictim(victims[k]);
        k := k + 1;
      }
    }

    method MarkVictim(v: nat)
      requires Linked(owner.View()) && owner.Fits(img) && v in owner.slots
      modifies owner
      ensures owner.Fits(img) && owner.View() == RouteMarker(old(owner.View()), v)
      ensures Linked(owner.View()) && owner.slots.Keys == old(owner.slots).Keys
    {
      ghost var was := owner.View();
      LinkedIsInRange(was);
      assert ListsFrom(owner.slots[v].refsFrom, owner.xrefs, v);
      owner.MarkRouteEntry(v);
      MarkerMarks(was, v);
      MarkedLinked(was, [v], owner.View());
      SameKeysWithin(img, was, owner.View());
      assert |owner.slots| == |owner.slots.Keys| && |was.slots| == |was.slots.Keys|;
    }

    method KeepVictims(victims: seq<nat>)
      requires InRange(owner.View()) && owner.Fits(img) && forall v | v in victims :: v in owner.slots
      modifies owner
      ensures owner.Fits(img) && owner.View() == KeepAll(old(owner.View()), victims)
    {
      var k := 0;
      while k < |victims|
        invariant k <= |victims| && InRange(owner.View()) && owner.Fits(img) && owner.slots.Keys == old(owner.slots).Keys
        invariant forall v | v in victims[k..] :: v in owner.slots
        invariant KeepAll(owner.View(), victims[k..]) == KeepAll(old(owner.View()), victims)
      {
        assert victims[k..][0] == victims[k] && victims[k..][1..] == victims[k + 1..];
        assert forall v | v in victims[k + 1..] :: v in victims[k..];
        ghost var was := owner.View();
        owner.KeepList(owner.slots[victims[k]].refsTo);
        SameKeysWithin(img, was, owner.View());
        assert |owner.slots| == |owner.slots.Keys| && |was.slots| == |was.slots.Keys|;
        k := k + 1;
      }
    }

    method EndTheRoute(rollback: bool)
      requires OwnerInv(owner.View()) && Sane(Now()) && owner.Fits(img)
      modifies this, owner
      ensures owner.Fits(img) && Now() == EndRoute(old(Now()), rollback)
    {
      if rollback {
        RollbackRoute();
      }
      needReset := true;
    }

    /** SwitchToLastState. */
    method SwitchToLastState()
      requires stack != []
      modifies this
      ensures Now() == Pop(img, old(Now()))
    {
      var top := stack[|stack| - 1];
      stack := stack[..|stack| - 1];
      route, added := top, [];
      offset, track, needReset := top.start, img.resume(track, top.entry), false;
    }

    /** AnalyzeAndConstructInstruction and the tracking of what the instruction changes. */
    method ConstructInstruction(out: Outcome<S>)
      requires out.Good? && owner.Fits(img) && offset < img.maxOffset
      modifies this, owner
      ensures owner.Fits(img) && Now() == Construct(img, old(Now()), out)
    {
      hide DecodeSlot, ActAll, IsStrict, owner.Fits;
      var o := offset;
      ghost var was := Now();
      DecodedHolds(was.owner, o, out.info, Decoding(track, IsStrict(was), route.questionable));
      assert IsStrict(was) == (route.questionable || breakOnInvalid) by {
        StrictIs(was);
      }
      owner.DecodeInstruction(img, o, out.info, !route.questionable,
                              Decoding(track, route.questionable || breakOnInvalid, route.questionable));
      added := added + [o];
      offset, track, needReset := o + out.size, out.next, out.stops;
      assert Now() == Decode(was, out.size, out.info, out.stops, out.next);
      ReferAll(o, out.actions);
    }

    /** One word of the current route. */
    method AnalyzeWord()
      requires Inv(img, Now()) && owner.Fits(img) && offset < img.maxOffset && !needReset
      modifies this, owner
      ensures owner.Fits(img) && Sane(old(Now())) && Now() == Process(img, old(Now()))
    {
      hide Constructed, Core, Flows, Referenced, Routes, Sized, Sane, OwnerInv, Rollback, IsAligned;
      Parts(img, Now());
      var strict := route.questionable || breakOnInvalid;
      if !IsAligned(img, offset, track) {
        EndTheRoute(strict);
        return;
      }
      var out := img.decode(offset, track, strict);
      if out.Bad? {
        if strict {
          EndTheRoute(true);
        } else {
          offset, track := offset + RouteAlignment(img, track), out.next;
        }
        return;
      }
      if offset in owner.slots {
        if owner.slots[offset].invalid {
          EndTheRoute(route.questionable);
          return;
        }
        if !owner.slots[offset].loading {
          EndTheRoute(false);
          return;
        }
      }
      ConstructWord(out);
    }

    /** A word that is an instruction of the route, and the end of the range. */
    method ConstructWord(out: Outcome<S>)
      requires Constructed(img, Now()) && CanDecode(img, Now()) && owner.Fits(img)
      requires out == img.decode(offset, track, IsStrict(Now())) && out.Good?
      modifies this, owner
      ensures owner.Fits(img) && Sane(Construct(img, old(Now()), out))
      ensures Now() == Finish(img, Construct(img, old(Now()), out), out.stops)
    {
      hide Constructed, Core, Flows, Referenced, Routes, Sized, Sane, OwnerInv, Construct;
      ConstructKeeps(img, Now(), out);
      ConstructInstruction(out);
      Parts(img, Now());
      if img.maxOffset <= offset {
        EndTheRoute(img.isArm && !out.stops && (route.questionable || breakOnInvalid));
      }
    }

    /** Diana_AnalyzeCodeImpl. */
    method AnalyzeCodeImpl()
      requires Inv(img, Now()) && owner.Fits(img)
      modifies this, owner
      ensures owner.Fits(img) && Sane(old(Now())) && Now() == Run(img, old(Now()))
    {
      hide Inv, Sane, Run, Process, Pop, Core, Absent, Left;
      ghost var was := Now();
      InvIsSane(img, was);
      while true
        invariant Inv(img, Now()) && Sane(Now()) && owner.Fits(img)
        invariant Run(img, Now()) == Run(img, was)
        decreases |Absent(img, Now())|, |stack|, Left(img, Now())
      {
        ghost var s := Now();
        if img.maxOffset <= offset || needReset {
          if stack == [] {
            RunEnds(img, s);
            break;
          }
          PopInv(img, s);
          PopIsReady(img, s);
          SwitchToLastState();
        }
        RunsOn(img, s);
        StepIsSmaller(img, s);
        AnalyzeWord();
        assert Now() == Step(img, s);
      }
    }
  }

  lemma PopIsReady<S>(img: Image<S>, s: State<S>)
    requires s.stack != []
    ensures !Pop(img, s).needReset
  {
  }

  /** Diana_AnalyzeCodeEx2: the pool of an owner for the whole range never runs out. */
  method AnalyzeCode<S>(img: Image<S>, owner: InstructionsOwner<S>, seed: Seed<S>)
    requires Ready(img, owner.View()) && owner.Fits(img)
    modifies owner
    ensures InRange(old(owner.View())) && owner.View() == Analyze(img, old(owner.View()), seed)
    ensures Ready(img, owner.View()) && owner.Fits(img)
  {
    ReadyIsInRange(img, owner.View());
    AnalyzeIsReady(img, owner.View(), seed);
    if seed.offset in owner.slots {
      return;
    }
    StartInv(img, owner.View(), seed);
    var session := new AnalyzeSession(img, owner, seed);
    session.AnalyzeCodeImpl();
  }
}
