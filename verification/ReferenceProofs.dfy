/** Handling the references of an instruction keeps the invariant and records every one of them. */
module ReferenceProofs {
  import opened RouteModel
  import opened OwnerInvariant
  import opened OwnerProofs
  import opened SessionInvariant

  /** The same flags, but the instruction may have become a root. */
  predicate SameButRoot(x: Instruction, y: Instruction) {
    x.loading == y.loading && x.invalid == y.invalid && x.data == y.data && x.info == y.info && (x.root ==> y.root)
  }

  /** Handling references changes the owner and pushes routes; it decides nothing about decoded instructions. */
  ghost predicate Acts<S>(s: State<S>, r: State<S>) {
    && Extends(s.owner, r.owner) && r.owner.decodings == s.owner.decodings
    && (forall o | o in s.owner.decodings && o in s.owner.slots ::
          o in r.owner.slots && SameButRoot(s.owner.slots[o], r.owner.slots[o]))
    && r.breakOnInvalid == s.breakOnInvalid && r.route == s.route && r.added == s.added
    && r.offset == s.offset && r.track == s.track && r.needReset == s.needReset
  }

  lemma ActsReflexive<S>(s: State<S>)
    ensures Acts(s, s)
  {
  }

  lemma ActsTransitive<S>(a: State<S>, b: State<S>, c: State<S>)
    requires Acts(a, b) && Acts(b, c)
    ensures Acts(a, c)
  {
    ExtendsTransitive(a.owner, b.owner, c.owner);
  }

  // ------------------------------------------------------------------ xrefs only

  lemma SameWaiting<S>(s: State<S>, r: State<S>)
    requires r.stack == s.stack && r.route == s.route && r.offset == s.offset && r.needReset == s.needReset
    ensures forall o: nat :: Waiting(r, o) <==> Waiting(s, o)
    ensures forall o: nat :: Queued(r, o) <==> Queued(s, o)
  {
  }

  lemma QuietKeepsRoutes<S>(img: Image<S>, s: State<S>, ow: Owner<S>)
    requires Routes(img, s) && Quiet(s.owner, ow)
    ensures Routes(img, s.(owner := ow))
  {
    SameWaiting(s, s.(owner := ow));
    assert StackOk(img, s.(owner := ow));
  }

  lemma QuietKeepsSized<S>(s: State<S>, ow: Owner<S>)
    requires Sized(s) && Quiet(s.owner, ow)
    ensures Sized(s.(owner := ow))
  {
    SameWaiting(s, s.(owner := ow));
    assert Counted(s.(owner := ow)) == Counted(s);
    assert ow.slots.Keys == s.owner.slots.Keys;
    assert |ow.slots| == |ow.slots.Keys|;
    assert |s.owner.slots| == |s.owner.slots.Keys|;
  }

  lemma QuietActs<S>(img: Image<S>, s: State<S>, ow: Owner<S>)
    requires Routes(img, s) && Sized(s) && Quiet(s.owner, ow) && Extends(s.owner, ow)
    ensures var r := s.(owner := ow);
            Routes(img, r) && Sized(r) && Acts(s, r)
  {
    QuietKeepsRoutes(img, s, ow);
    QuietKeepsSized(s, ow);
  }

  ghost predicate CanRefer<S>(s: State<S>, source: nat) {
    source in s.owner.decodings && source in s.owner.slots && !s.owner.slots[source].invalid
  }

  lemma SaveDataXRefActs<S>(img: Image<S>, s: State<S>, source: nat, offset: nat, addressTaken: bool)
    requires Core(img, s) && CanRefer(s, source)
    ensures var r := s.(owner := SaveDataXRef(s.owner, source, offset, addressTaken));
            && Core(img, r) && Acts(s, r) && CanRefer(r, source)
            && HasOutside(r.owner, source, offset, false, true, addressTaken, true)
            && (addressTaken ==> HasTaken(r.owner, source, offset))
  {
    var ow := SaveDataXRef(s.owner, source, offset, addressTaken);
    SaveDataXRefAppends(s.owner, source, offset, addressTaken);
    QuietActs(img, s, ow);
    var x := ow.xrefs[|s.owner.xrefs|];
    assert IsOutsideRef(ow, x, source, offset, false, true, addressTaken, true);
    if addressTaken {
      assert IsTaken(ow, x, source, offset);
    }
  }

  lemma ExternalActs<S>(img: Image<S>, s: State<S>, source: nat, address: nat, linksToData: bool, data: bool,
                        addressTaken: bool)
    requires Core(img, s) && CanRefer(s, source) && !IsSkippedExternal(img, address)
    ensures var r := s.(owner := SaveNewExternalRoute(img, s.owner, source, address, linksToData, data, addressTaken));
            && Core(img, r) && Acts(s, r) && CanRefer(r, source)
            && HasOutside(r.owner, source, address, true, data, addressTaken, linksToData)
  {
    var entry := OutsideEntry(address, true, linksToData, []);
    var x := XRef(source, Outside(|s.owner.outside|), false, true, data, addressTaken);
    AddOutsideKeeps(s.owner, entry, x);
    var ow := AddOutside(s.owner, entry, x);
    QuietActs(img, s, ow);
    assert IsOutsideRef(ow, ow.xrefs[|s.owner.xrefs|], source, address, true, data, addressTaken, linksToData);
  }

  // ------------------------------------------------------------------ a route

  lemma EnqueueQueued<S>(s: State<S>, target: nat, entry: S, questionable: bool)
    ensures var r := Enqueue(s, target, entry, questionable);
            forall o: nat :: Queued(r, o) <==> Queued(s, o) || (o == target && target !in s.owner.slots)
  {
    var r := Enqueue(s, target, entry, questionable);
    if target !in s.owner.slots {
      var n := |s.stack|;
      assert r.stack[n].start == target;
      forall o: nat | Queued(s, o)
        ensures Queued(r, o)
      {
        var k :| 0 <= k < |s.stack| && s.stack[k].start == o;
        assert r.stack[k].start == o;
      }
    }
  }

  lemma EnqueueStack<S>(img: Image<S>, s: State<S>, target: nat, entry: S, questionable: bool)
    requires StackOk(img, s) && target < img.maxOffset
    ensures StackOk(img, Enqueue(s, target, entry, questionable))
  {
    var r := Enqueue(s, target, entry, questionable);
    EnqueueQueued(s, target, entry, questionable);
    forall k | 0 <= k < |r.stack|
      ensures StartOk(img, r.owner, r.stack[k])
    {
      assert k < |s.stack| ==> StartOk(img, s.owner, s.stack[k]);
    }
    forall o | o in r.owner.slots && r.owner.slots[o].loading && !r.owner.slots[o].root && !r.owner.slots[o].invalid
      ensures Waiting(r, o)
    {
      if o in s.owner.slots {
        assert Waiting(s, o);
      }
    }
  }

  lemma EnqueueRoutes<S>(img: Image<S>, s: State<S>, target: nat, entry: S, questionable: bool)
    requires Routes(img, s) && target < img.maxOffset && (Fresh(s) ==> s.route.start in s.owner.slots)
    ensures Routes(img, Enqueue(s, target, entry, questionable))
  {
    EnqueueStack(img, s, target, entry, questionable);
    EnqueueQueued(s, target, entry, questionable);
  }

  lemma EnqueueCounted<S>(s: State<S>, target: nat, entry: S, questionable: bool)
    ensures var r := Enqueue(s, target, entry, questionable);
            && r.owner.slots.Keys == s.owner.slots.Keys + {target}
            && Counted(r) == (if target in s.owner.slots then Counted(s) else Counted(s) + {target})
  {
    EnqueueQueued(s, target, entry, questionable);
  }

  lemma EnqueueSized<S>(s: State<S>, target: nat, entry: S, questionable: bool)
    requires Sized(s)
    ensures Sized(Enqueue(s, target, entry, questionable))
  {
    var r := Enqueue(s, target, entry, questionable);
    EnqueueCounted(s, target, entry, questionable);
    assert |r.owner.slots| == |r.owner.slots.Keys| && |s.owner.slots| == |s.owner.slots.Keys|;
    assert target !in s.owner.slots ==> target !in Counted(s);
    assert target in s.owner.slots ==> s.owner.slots.Keys + {target} == s.owner.slots.Keys;
    hide Counted;
  }

  lemma EnqueueActs<S>(img: Image<S>, s: State<S>, source: nat, target: nat, entry: S, questionable: bool)
    requires Core(img, s) && CanRefer(s, source) && target < img.maxOffset
    requires Fresh(s) ==> s.route.start in s.owner.slots
    ensures var r := Enqueue(s, target, entry, questionable);
            Core(img, r) && Acts(s, r) && CanRefer(r, source) && target in r.owner.slots
  {
    hide OwnerInv, Routes, Sized;
    TargetedKeeps(s.owner, target, questionable);
    EnqueueRoutes(img, s, target, entry, questionable);
    EnqueueSized(s, target, entry, questionable);
  }

  lemma CodeXRefActs<S>(img: Image<S>, s: State<S>, source: nat, target: nat, addressTaken: bool)
    requires Core(img, s) && CanRefer(s, source) && target in s.owner.slots
    ensures var x := XRef(source, Code(target), false, false, false, addressTaken);
            var r := s.(owner := CreateXRef(s.owner, x));
            && Core(img, r) && Acts(s, r) && CanRefer(r, source)
            && (addressTaken ==> HasTaken(r.owner, source, target))
  {
    var x := XRef(source, Code(target), false, false, false, addressTaken);
    var ow := CreateXRef(s.owner, x);
    CreateXRefIsQuiet(s.owner, x);
    CreateXRefLinked(s.owner, x);
    CreateXRefConserved(s.owner, x);
    QuietActs(img, s, ow);
    if addressTaken {
      assert IsTaken(ow, ow.xrefs[|s.owner.xrefs|], source, target);
    }
  }

  lemma SaveNewRouteActs<S>(img: Image<S>, s: State<S>, source: nat, target: nat, entry: S,
                            questionable: bool, addressTaken: bool)
    requires Core(img, s) && CanRefer(s, source) && (Fresh(s) ==> s.route.start in s.owner.slots)
    ensures var r := SaveNewRoute(img, s, source, target, entry, questionable, addressTaken);
            && Core(img, r) && Acts(s, r) && CanRefer(r, source)
            && (target < img.maxOffset && IsAligned(img, target, entry) && !addressTaken ==> target in r.owner.slots)
            && (target < img.maxOffset && addressTaken ==> HasTaken(r.owner, source, target))
  {
    if target < img.maxOffset {
      if !IsAligned(img, target, entry) || (target in s.owner.slots && s.owner.slots[target].invalid && addressTaken) {
        if addressTaken {
          SaveDataXRefActs(img, s, source, target, true);
        }
      } else {
        EnqueueActs(img, s, source, target, entry, questionable);
        var a := Enqueue(s, target, entry, questionable);
        CodeXRefActs(img, a, source, target, addressTaken);
        ActsTransitive(s, a, SaveNewRoute(img, s, source, target, entry, questionable, addressTaken));
      }
    }
  }

  // ------------------------------------------------------------------ data

  lemma InvalidateRoutes<S>(img: Image<S>, s: State<S>, o: nat)
    requires Routes(img, s) && IsPendingData(img, s.owner, o) && o !in s.owner.decodings
    ensures Routes(img, s.(owner := Invalidate(s.owner, o)))
  {
    var r := s.(owner := Invalidate(s.owner, o));
    SameWaiting(s, r);
    forall k | 0 <= k < |r.stack|
      ensures StartOk(img, r.owner, r.stack[k])
    {
      assert StartOk(img, s.owner, s.stack[k]);
    }
    assert StackOk(img, r) && AddedOk(r);
  }

  lemma InvalidateSized<S>(img: Image<S>, s: State<S>, o: nat)
    requires Sized(s) && StackOk(img, s) && IsPendingData(img, s.owner, o)
    ensures Sized(s.(owner := Invalidate(s.owner, o)))
  {
    var r := s.(owner := Invalidate(s.owner, o));
    SameWaiting(s, r);
    assert !s.owner.slots[o].invalid ==> Waiting(s, o);
    assert Counted(r) == Counted(s);
    assert r.owner.slots.Keys == s.owner.slots.Keys;
    assert |r.owner.slots| == |r.owner.slots.Keys| && |s.owner.slots| == |s.owner.slots.Keys|;
  }

  lemma LoadingIsNotDecoded<S>(ow: Owner<S>, o: nat)
    requires OwnerInv(ow) && o in ow.slots && ow.slots[o].loading
    ensures o !in ow.decodings
  {
  }

  lemma InvalidateActs<S>(img: Image<S>, s: State<S>, source: nat, o: nat)
    requires Core(img, s) && CanRefer(s, source) && IsPendingData(img, s.owner, o)
    ensures var r := s.(owner := Invalidate(s.owner, o));
            Core(img, r) && Acts(s, r) && CanRefer(r, source)
  {
    hide OwnerInv, Sized;
    LoadingIsNotDecoded(s.owner, o);
    InvalidateKeeps(s.owner, o);
    InvalidateRoutes(img, s, o);
    InvalidateSized(img, s, o);
  }

  lemma ReadDataActs<S>(img: Image<S>, s: State<S>, source: nat, target: nat)
    requires Core(img, s) && CanRefer(s, source)
    ensures var r := SaveDataAccess(img, s, source, target);
            && Core(img, r) && Acts(s, r) && CanRefer(r, source)
            && HasOutside(r.owner, source, target, false, true, false, true)
  {
    if IsPendingData(img, s.owner, target) {
      InvalidateActs(img, s, source, target);
      var a := s.(owner := Invalidate(s.owner, target));
      SaveDataXRefActs(img, a, source, target, false);
      ActsTransitive(s, a, SaveDataAccess(img, s, source, target));
    } else {
      SaveDataXRefActs(img, s, source, target, false);
    }
  }

  lemma DataSlotRoutes<S>(img: Image<S>, s: State<S>, o: nat, elements: nat)
    requires Routes(img, s) && o !in s.owner.slots && (Fresh(s) ==> s.route.start in s.owner.slots)
    ensures Routes(img, s.(owner := DataSlot(s.owner, o, elements)))
  {
    var r := s.(owner := DataSlot(s.owner, o, elements));
    SameWaiting(s, r);
    forall k | 0 <= k < |r.stack|
      ensures StartOk(img, r.owner, r.stack[k])
    {
      assert StartOk(img, s.owner, s.stack[k]);
    }
    assert StackOk(img, r);
  }

  lemma DataSlotSized<S>(s: State<S>, o: nat, elements: nat)
    requires Sized(s) && o !in s.owner.slots
    ensures Sized(s.(owner := DataSlot(s.owner, o, elements)))
  {
    var r := s.(owner := DataSlot(s.owner, o, elements));
    SameWaiting(s, r);
    assert Counted(r) == Counted(s);
    assert r.owner.slots.Keys == s.owner.slots.Keys + {o};
    assert |r.owner.slots| == |r.owner.slots.Keys| && |s.owner.slots| == |s.owner.slots.Keys|;
  }

  lemma DataSlotOwner<S>(ow: Owner<S>, o: nat, elements: nat)
    requires OwnerInv(ow) && o !in ow.slots
    ensures OwnerInv(DataSlot(ow, o, elements)) && Extends(ow, DataSlot(ow, o, elements))
  {
    var a := ow.(slots := ow.slots[o := NewInstruction(false, true, true, elements)], usedSize := ow.usedSize + 1);
    assert Provenance(a);
    ReslotKeeps(ow, a);
    assert DataSlot(ow, o, elements) == a;
  }

  lemma DataSlotActs<S>(img: Image<S>, s: State<S>, source: nat, o: nat, elements: nat)
    requires Core(img, s) && CanRefer(s, source) && o !in s.owner.slots
    requires Fresh(s) ==> s.route.start in s.owner.slots
    ensures var r := s.(owner := DataSlot(s.owner, o, elements));
            Core(img, r) && Acts(s, r) && CanRefer(r, source) && o in r.owner.slots
  {
    hide OwnerInv, Routes, Sized;
    DataSlotOwner(s.owner, o, elements);
    DataSlotRoutes(img, s, o, elements);
    DataSlotSized(s, o, elements);
  }

  lemma {:induction false} MarkDataActs<S>(img: Image<S>, s: State<S>, source: nat, o: nat, end: nat, elements: nat)
    requires Core(img, s) && CanRefer(s, source) && (Fresh(s) ==> s.route.start in s.owner.slots)
    ensures var r := s.(owner := MarkDataFrom(s.owner, o, end, elements));
            && Core(img, r) && Acts(s, r) && CanRefer(r, source)
            && forall p | o <= p < end && (p - o) % 2 == 0 :: p in r.owner.slots
    decreases end - o
  {
    hide Core, DataSlot;
    ActsReflexive(s);
    if o < end {
      var a := if o in s.owner.slots then s.owner else DataSlot(s.owner, o, elements);
      if o !in s.owner.slots {
        DataSlotActs(img, s, source, o, elements);
      }
      var t := s.(owner := a);
      MarkDataActs(img, t, source, o + 2, end, elements);
      var r := s.(owner := MarkDataFrom(s.owner, o, end, elements));
      assert r == t.(owner := MarkDataFrom(a, o + 2, end, elements));
      ActsTransitive(s, t, r);
      forall p | o <= p < end && (p - o) % 2 == 0
        ensures p in r.owner.slots
      {
        assert p == o || (o + 2 <= p && (p - (o + 2)) % 2 == 0);
      }
    }
  }

  // ------------------------------------------------------------------ all of them

  lemma ActKeeps<S>(img: Image<S>, s: State<S>, source: nat, action: Action<S>)
    requires Core(img, s) && CanRefer(s, source) && (Fresh(s) ==> s.route.start in s.owner.slots)
    ensures var r := Act(img, s, source, action);
            Core(img, r) && Acts(s, r) && CanRefer(r, source) && ActionDone(img, r.owner, source, action)
  {
    hide Core, Acts, HasTaken, HasOutside, SaveNewRoute, SaveDataXRef, SaveDataAccess, Fresh, MarkDataFrom;
    ActsReflexive(s);
    match action
    case Jump(target, entry) =>
      SaveNewRouteActs(img, s, source, target, entry, s.route.questionable, false);
    case TakeAddress(target, entry) =>
      SaveNewRouteActs(img, s, source, target, entry, true, true);
    case TakeDataAddress(target) =>
      SaveDataXRefActs(img, s, source, target, true);
    case ReadData(target) =>
      ReadDataActs(img, s, source, target);
    case External(address, linksToData, data, addressTaken) =>
      if !IsSkippedExternal(img, address) {
        ExternalActs(img, s, source, address, linksToData, data, addressTaken);
      }
    case MarkData(target, size, elements) =>
      var odd := (img.imageBase + target) % 2;
      if target < img.maxOffset && odd <= target {
        MarkDataActs(img, s, source, target - odd, DataEnd(img, target, size), elements);
      }
  }

  lemma {:induction false} ActAllKeeps<S>(img: Image<S>, s: State<S>, source: nat, actions: seq<Action<S>>)
    requires Core(img, s) && CanRefer(s, source) && (Fresh(s) ==> s.route.start in s.owner.slots)
    ensures var r := ActAll(img, s, source, actions);
            Core(img, r) && Acts(s, r) && CanRefer(r, source) && ActionsDone(img, r.owner, source, actions)
    decreases |actions|
  {
    hide Core, ActionDone, Act;
    if |actions| != 0 {
      var a := Act(img, s, source, actions[0]);
      ActKeeps(img, s, source, actions[0]);
      ActAllKeeps(img, a, source, actions[1..]);
      var r := ActAll(img, s, source, actions);
      ActsTransitive(s, a, r);
      ActionDoneGrows(img, a.owner, r.owner, source, actions[0]);
      assert forall k | 0 < k < |actions| :: actions[k] == actions[1..][k - 1];
    }
  }
}
