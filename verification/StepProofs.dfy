/** One iteration of the main loop keeps the invariant. */
module StepProofs {
  import opened RouteModel
  import opened OwnerInvariant
  import opened OwnerProofs
  import opened SessionInvariant
  import opened ReferenceProofs

  // ------------------------------------------------------------------ leaving the first word of a route

  /** The start of a route that ends without a rollback is not known to be data. */
  ghost predicate StartSettled<S>(s: State<S>) {
    Fresh(s) && s.route.start in s.owner.slots && s.owner.slots[s.route.start].loading
    ==> s.owner.slots[s.route.start].root && !s.owner.slots[s.route.start].invalid
  }

  lemma MovesOn<S>(img: Image<S>, s: State<S>, r: State<S>)
    requires Routes(img, s) && Sized(s) && StartSettled(s) && !Fresh(r)
    requires r == s.(offset := r.offset, track := r.track, needReset := r.needReset)
    requires s.offset <= r.offset && (s.needReset ==> r.needReset) && (!r.needReset ==> !IsStrict(s))
    ensures Routes(img, r) && Sized(r)
  {
    assert forall o: nat :: Queued(r, o) <==> Queued(s, o);
    assert StackOk(img, r) by {
      assert forall k | 0 <= k < |r.stack| :: StartOk(img, s.owner, s.stack[k]);
    }
    assert Counted(r) == Counted(s);
  }

  /** The last instruction of the route has a successor of the kind its route needs. */
  ghost predicate FrontierSettled<S>(img: Image<S>, s: State<S>) {
    forall o | o in s.owner.decodings && o in s.owner.slots && !s.owner.slots[o].invalid ::
      OutcomeOf(img, s.owner, o).Good? ==>
        var out := OutcomeOf(img, s.owner, o);
        !out.stops && AtFrontier(s, o, o + out.size, out.next) ==>
          Followed(img, s.owner, s.added, o, o + out.size, out.next)
  }

  lemma MovesOnFlows<S>(img: Image<S>, s: State<S>, r: State<S>)
    requires Flows(img, s) && FrontierSettled(img, s)
    requires r == s.(offset := r.offset, track := r.track, needReset := r.needReset)
    ensures Flows(img, r)
  {
  }

  lemma EndKeeps<S>(img: Image<S>, s: State<S>)
    requires Constructed(img, s) && StartSettled(s) && FrontierSettled(img, s)
    ensures Inv(img, s.(needReset := true))
  {
    hide OwnerInv, Referenced, Routes, Sized, Flows, FrontierSettled, StartSettled;
    MovesOn(img, s, s.(needReset := true));
    MovesOnFlows(img, s, s.(needReset := true));
  }

  // ------------------------------------------------------------------ rollback

  ghost predicate CanRollBack<S>(s: State<S>) {
    !s.needReset && (Fresh(s) || IsStrict(s))
  }

  lemma VictimsAreCounted<S>(img: Image<S>, s: State<S>)
    requires Routes(img, s) && CanRollBack(s)
    ensures Distinct(Victims(s)) && forall v | v in Victims(s) :: v in Counted(s)
    ensures Fresh(s) ==> s.added == []
    ensures !Fresh(s) ==> Victims(s) == s.added
    ensures Fresh(s) && s.route.start in s.owner.slots && s.owner.slots[s.route.start].loading ==> Victims(s) == [s.route.start]
  {
  }

  ghost function Elements(os: seq<nat>): set<nat> {
    set o | o in os
  }

  lemma {:induction false} DistinctSize(os: seq<nat>)
    requires Distinct(os)
    ensures |Elements(os)| == |os|
  {
    if |os| != 0 {
      var last := |os| - 1;
      DistinctSize(os[..last]);
      assert os == os[..last] + [os[last]];
      assert os[last] !in Elements(os[..last]);
      assert Elements(os) == Elements(os[..last]) + {os[last]};
    }
  }

  lemma RollbackCounted<S>(img: Image<S>, s: State<S>, ow: Owner<S>)
    requires Routes(img, s) && Provenance(s.owner) && CanRollBack(s) && RolledBack(s.owner, Victims(s), ow)
    ensures Counted(s.(owner := ow, needReset := true)) == Counted(s) - Elements(Victims(s))
  {
    VictimsAreCounted(img, s);
    var r := s.(owner := ow, needReset := true);
    assert forall o: nat :: Queued(r, o) <==> Queued(s, o);
  }

  lemma SizeOfDifference(a: set<nat>, b: set<nat>)
    requires b <= a
    ensures |a - b| == |a| - |b|
  {
    assert a == (a - b) + b;
  }

  lemma RollbackSized<S>(img: Image<S>, s: State<S>, ow: Owner<S>)
    requires Routes(img, s) && Provenance(s.owner) && Sized(s) && CanRollBack(s) && RolledBack(s.owner, Victims(s), ow)
    ensures Sized(s.(owner := ow, needReset := true))
  {
    VictimsAreCounted(img, s);
    RollbackCounted(img, s, ow);
    DistinctSize(Victims(s));
    var gone := Elements(Victims(s));
    assert gone <= Counted(s);
    hide Victims, Counted, Routes, Provenance, Distinct, Extends, CanRollBack, Elements;
    SizeOfDifference(Counted(s), gone);
    assert |ow.slots| == |ow.slots.Keys| && |s.owner.slots| == |s.owner.slots.Keys|;
  }

  lemma RollbackRoutes<S>(img: Image<S>, s: State<S>, ow: Owner<S>)
    requires Routes(img, s) && Provenance(s.owner) && CanRollBack(s) && RolledBack(s.owner, Victims(s), ow)
    ensures Routes(img, s.(owner := ow, needReset := true))
  {
    VictimsAreCounted(img, s);
    var r := s.(owner := ow, needReset := true);
    assert forall o: nat :: Queued(r, o) <==> Queued(s, o);
    forall k | 0 <= k < |r.stack|
      ensures StartOk(img, r.owner, r.stack[k])
    {
      assert StartOk(img, s.owner, s.stack[k]) && Queued(s, s.stack[k].start);
    }
    assert StackOk(img, r);
  }

  /** Speculation is all or nothing: what stays valid never falls through to a victim. */
  lemma RollbackFlows<S>(img: Image<S>, s: State<S>, ow: Owner<S>)
    requires Routes(img, s) && Provenance(s.owner) && Flows(img, s) && CanRollBack(s)
    requires RolledBack(s.owner, Victims(s), ow)
    ensures Flows(img, s.(owner := ow, needReset := true))
  {
    VictimsAreCounted(img, s);
    VictimsAreLoading(s);
    var r := s.(owner := ow, needReset := true);
    forall o | o in r.owner.decodings && o in r.owner.slots && !r.owner.slots[o].invalid
      ensures OutcomeOf(img, r.owner, o).Good? && Flow(img, r, o)
    {
      hide Routes, Provenance, Flow, Extends, CanRollBack;
      assert o !in Victims(s) && !s.owner.slots[o].invalid;
      assert OutcomeOf(img, s.owner, o).Good? && Flow(img, s, o);
      RollbackFlow(img, s, ow, o);
    }
  }

  lemma VictimsAreLoading<S>(s: State<S>)
    requires Provenance(s.owner)
    ensures Fresh(s) && s.added == [] ==> forall v | v in Victims(s) :: v !in s.owner.decodings
  {
  }

  lemma RollbackFlow<S>(img: Image<S>, s: State<S>, ow: Owner<S>, o: nat)
    requires RolledBack(s.owner, Victims(s), ow) && o !in Victims(s) && o in s.owner.decodings
    requires OutcomeOf(img, s.owner, o).Good? && Flow(img, s, o) && !s.needReset
    requires !Fresh(s) ==> Victims(s) == s.added && IsStrict(s)
    requires Fresh(s) ==> s.added == [] && forall v | v in Victims(s) :: v !in s.owner.decodings
    ensures o in ow.decodings && OutcomeOf(img, ow, o).Good? && Flow(img, s.(owner := ow, needReset := true), o)
  {
  }

  lemma OwnerProvenance<S>(ow: Owner<S>)
    requires OwnerInv(ow)
    ensures Provenance(ow)
  {
  }

  lemma Parts<S>(img: Image<S>, s: State<S>)
    requires Constructed(img, s)
    ensures Core(img, s) && OwnerInv(s.owner) && Routes(img, s) && Sized(s) && Referenced(img, s.owner) && Flows(img, s)
    ensures Provenance(s.owner) && Sane(s)
  {
    CoreIsSane(img, s);
    OwnerProvenance(s.owner);
  }

  lemma Whole<S>(img: Image<S>, s: State<S>)
    requires OwnerInv(s.owner) && Routes(img, s) && Sized(s) && Referenced(img, s.owner) && Flows(img, s)
    ensures Core(img, s) && Constructed(img, s) && (s.needReset ==> Inv(img, s))
  {
    hide OwnerInv, Routes, Sized, Referenced, Flows;
  }

  lemma CoreParts<S>(img: Image<S>, s: State<S>)
    requires Core(img, s)
    ensures OwnerInv(s.owner) && Routes(img, s) && Sized(s) && Provenance(s.owner)
  {
    OwnerProvenance(s.owner);
  }

  lemma RolledBackKeepsReferences<S>(img: Image<S>, a: Owner<S>, victims: seq<nat>, b: Owner<S>)
    requires Referenced(img, a) && RolledBack(a, victims, b)
    ensures Referenced(img, b)
  {
    hide Referenced;
    ReferencedGrows(img, a, b);
  }

  lemma RollbackEnds<S>(s: State<S>)
    requires Sane(s)
    ensures EndRoute(s, true) == s.(owner := Rollback(s).owner, needReset := true)
  {
  }

  lemma RollbackInv<S>(img: Image<S>, s: State<S>)
    requires Constructed(img, s) && CanRollBack(s)
    ensures Sane(s) && Inv(img, EndRoute(s, true))
  {
    hide *;
    Parts(img, s);
    RollbackKeeps(s);
    RollbackEnds(s);
    var ow := Rollback(s).owner;
    RollbackRoutes(img, s, ow);
    RollbackSized(img, s, ow);
    RollbackFlows(img, s, ow);
    RolledBackKeepsReferences(img, s.owner, Victims(s), ow);
    Whole(img, EndRoute(s, true));
  }

  // ------------------------------------------------------------------ an instruction

  ghost predicate CanDecode<S>(img: Image<S>, s: State<S>) {
    && !s.needReset && s.offset < img.maxOffset
    && (s.offset in s.owner.slots ==> s.owner.slots[s.offset].loading && !s.owner.slots[s.offset].invalid)
  }

  lemma DecodeStack<S>(img: Image<S>, s: State<S>, r: State<S>)
    requires Routes(img, s) && r.stack == s.stack && s.offset in r.owner.slots && !r.owner.slots[s.offset].loading
    requires forall p | p in s.owner.slots && p != s.offset :: p in r.owner.slots && r.owner.slots[p] == s.owner.slots[p]
    requires r.owner.slots.Keys == s.owner.slots.Keys + {s.offset}
    ensures StackOk(img, r)
  {
    assert forall o: nat :: Queued(r, o) <==> Queued(s, o);
    assert forall k | 0 <= k < |r.stack| :: StartOk(img, s.owner, s.stack[k]);
    forall o | o in r.owner.slots && r.owner.slots[o].loading && !r.owner.slots[o].root && !r.owner.slots[o].invalid
      ensures Waiting(r, o)
    {
      assert o != s.offset && Waiting(s, o);
    }
  }

  lemma DecodeAdded<S>(img: Image<S>, s: State<S>, size: positive, info: nat, stops: bool, next: S)
    requires Routes(img, s) && CanDecode(img, s)
    ensures AddedOk(Decode(s, size, info, stops, next)) && FreshOk(img, Decode(s, size, info, stops, next))
  {
  }

  lemma DecodeSized<S>(img: Image<S>, s: State<S>, size: positive, info: nat, stops: bool, next: S)
    requires Routes(img, s) && Sized(s) && CanDecode(img, s)
    ensures Sized(Decode(s, size, info, stops, next))
  {
    hide Counted, Routes, CanDecode, Decode;
    DecodeCounted(img, s, size, info, stops, next);
    DecodeCounts(s, size, info, stops, next);
    var r := Decode(s, size, info, stops, next);
    SizeOfKeys(r.owner.slots);
    SizeOfKeys(s.owner.slots);
    SizeOfOneMore(s.owner.slots.Keys, s.offset);
    SizeOfOneMore(Counted(s), s.offset);
  }

  lemma DecodeCounts<S>(s: State<S>, size: positive, info: nat, stops: bool, next: S)
    ensures var ow, more := Decode(s, size, info, stops, next).owner, if s.offset in s.owner.slots then 0 else 1;
            ow.usedSize == s.owner.usedSize + more && ow.actualSize == s.owner.actualSize + more
  {
  }

  lemma SizeOfKeys(m: map<nat, Instruction>)
    ensures |m| == |m.Keys|
  {
  }

  lemma SizeOfOneMore(s: set<nat>, x: nat)
    ensures |s + {x}| == if x in s then |s| else |s| + 1
  {
    if x in s {
      assert s + {x} == s;
    }
  }

  lemma DecodeCounted<S>(img: Image<S>, s: State<S>, size: positive, info: nat, stops: bool, next: S)
    requires Routes(img, s) && CanDecode(img, s)
    ensures var r := Decode(s, size, info, stops, next);
            && Counted(r) == Counted(s) + {s.offset} && r.owner.slots.Keys == s.owner.slots.Keys + {s.offset}
            && (s.offset in s.owner.slots <==> s.offset in Counted(s))
  {
    var r := Decode(s, size, info, stops, next);
    assert forall o: nat :: Queued(r, o) <==> Queued(s, o);
  }

  /** A decoded instruction that led somewhere still does when the word at the current offset is decoded. */
  lemma DecodeFlow<S>(img: Image<S>, s: State<S>, r: State<S>, o: nat)
    requires o in s.owner.decodings && OutcomeOf(img, s.owner, o).Good? && Flow(img, s, o) && AddedOk(s)
    requires CanDecode(img, s) && s.offset !in s.owner.decodings
    requires s.offset in r.owner.decodings && s.offset in r.owner.slots && !r.owner.slots[s.offset].invalid
    requires forall p | p in s.owner.slots && p != s.offset :: p in r.owner.slots && r.owner.slots[p] == s.owner.slots[p]
    requires r.owner.decodings == s.owner.decodings[s.offset := r.owner.decodings[s.offset]]
    requires r.added == s.added + [s.offset]
    ensures Flow(img, r, o)
  {
  }

  lemma DecodeFlows<S>(img: Image<S>, s: State<S>, size: positive, info: nat, stops: bool, next: S)
    requires Flows(img, s) && Provenance(s.owner) && AddedOk(s) && CanDecode(img, s)
    requires var out := img.decode(s.offset, s.track, IsStrict(s));
             out.Good? && out.size == size && out.stops == stops && out.next == next
    ensures Flows(img, Decode(s, size, info, stops, next))
  {
    var r := Decode(s, size, info, stops, next);
    DecodeSlotEntries(s.owner, s.offset, info, Decoding(s.track, IsStrict(s), s.route.questionable));
    assert r.owner.decodings == s.owner.decodings[s.offset := r.owner.decodings[s.offset]];
    assert Flow(img, r, s.offset);
    hide Provenance, AddedOk, Flow, CanDecode;
    forall o | o in r.owner.decodings && o in r.owner.slots && !r.owner.slots[o].invalid
      ensures OutcomeOf(img, r.owner, o).Good? && Flow(img, r, o)
    {
      if o != s.offset {
        DecodeFlow(img, s, r, o);
      }
    }
  }

  lemma DecodeCore<S>(img: Image<S>, s: State<S>, size: positive, info: nat, stops: bool, next: S)
    requires Core(img, s) && CanDecode(img, s)
    ensures var r := Decode(s, size, info, stops, next);
            && Core(img, r) && CanRefer(r, s.offset) && !Fresh(r) && Extends(s.owner, r.owner)
            && r.owner.decodings == s.owner.decodings[s.offset := Decoding(s.track, IsStrict(s), s.route.questionable)]
  {
    var r := Decode(s, size, info, stops, next);
    var decoding := Decoding(s.track, IsStrict(s), s.route.questionable);
    OwnerProvenance(s.owner);
    DecodeSlotEntries(s.owner, s.offset, info, decoding);
    DecodeSlotKeeps(s.owner, s.offset, info, decoding);
    DecodeSlotExtends(s.owner, s.offset, info, decoding);
    DecodeStack(img, s, r);
    DecodeAdded(img, s, size, info, stops, next);
    DecodeSized(img, s, size, info, stops, next);
    hide OwnerInv, Sized, StackOk, FreshOk, Extends, Provenance;
  }

  lemma ActsFlows<S>(img: Image<S>, s: State<S>, r: State<S>)
    requires Flows(img, s) && Provenance(s.owner) && Acts(s, r)
    ensures Flows(img, r)
  {
    forall o | o in r.owner.decodings && o in r.owner.slots && !r.owner.slots[o].invalid
      ensures OutcomeOf(img, r.owner, o).Good? && Flow(img, r, o)
    {
      assert Flow(img, s, o);
    }
  }

  lemma DecodedReferenced<S>(img: Image<S>, a: Owner<S>, b: Owner<S>, o: nat)
    requires Referenced(img, a) && Extends(a, b) && o in b.decodings && b.decodings.Keys == a.decodings.Keys + {o}
    requires OutcomeOf(img, b, o).Good? && ActionsDone(img, b, o, OutcomeOf(img, b, o).actions)
    ensures Referenced(img, b)
  {
    forall p | p in b.decodings
      ensures OutcomeOf(img, b, p).Good? && ActionsDone(img, b, p, OutcomeOf(img, b, p).actions)
    {
      if p != o {
        ActionsDoneGrow(img, a, b, p, OutcomeOf(img, a, p).actions);
      }
    }
  }

  lemma ConstructReferenced<S>(img: Image<S>, s: State<S>, d: State<S>, r: State<S>)
    requires Referenced(img, s.owner) && Extends(s.owner, d.owner) && Acts(d, r)
    requires d.owner.decodings == s.owner.decodings[s.offset := Decoding(s.track, IsStrict(s), s.route.questionable)]
    requires var out := img.decode(s.offset, s.track, IsStrict(s));
             out.Good? && ActionsDone(img, r.owner, s.offset, out.actions)
    ensures Referenced(img, r.owner)
  {
    hide ActionsDone, Referenced;
    ExtendsTransitive(s.owner, d.owner, r.owner);
    assert r.owner.decodings.Keys == s.owner.decodings.Keys + {s.offset};
    DecodedReferenced(img, s.owner, r.owner, s.offset);
  }

  lemma ActsFrame<S>(d: State<S>, r: State<S>)
    requires Acts(d, r)
    ensures Fresh(d) == Fresh(r) && r.needReset == d.needReset && r.offset == d.offset && IsStrict(r) == IsStrict(d)
  {
  }

  lemma DecodeFrame<S>(s: State<S>, size: positive, info: nat, stops: bool, next: S)
    ensures var d := Decode(s, size, info, stops, next);
            && d.needReset == stops && d.offset == s.offset + size && IsStrict(d) == IsStrict(s)
  {
  }

  lemma RoutesAdded<S>(img: Image<S>, s: State<S>)
    requires Routes(img, s)
    ensures AddedOk(s)
  {
  }

  lemma ConstructIs<S>(img: Image<S>, s: State<S>, out: Outcome<S>)
    requires out.Good?
    ensures s.offset in Decode(s, out.size, out.info, out.stops, out.next).owner.slots
    ensures Construct(img, s, out) == ActAll(img, Decode(s, out.size, out.info, out.stops, out.next), s.offset, out.actions)
  {
  }

  lemma ConstructKeeps<S>(img: Image<S>, s: State<S>, out: Outcome<S>)
    requires Constructed(img, s) && CanDecode(img, s) && out == img.decode(s.offset, s.track, IsStrict(s)) && out.Good?
    ensures var r := Construct(img, s, out);
            && Constructed(img, r) && !Fresh(r) && r.needReset == out.stops && r.offset == s.offset + out.size
            && IsStrict(r) == IsStrict(s)
  {
    hide *;
    var d := Decode(s, out.size, out.info, out.stops, out.next);
    var r := Construct(img, s, out);
    ConstructIs(img, s, out);
    Parts(img, s);
    RoutesAdded(img, s);
    DecodeCore(img, s, out.size, out.info, out.stops, out.next);
    DecodeFlows(img, s, out.size, out.info, out.stops, out.next);
    DecodeFrame(s, out.size, out.info, out.stops, out.next);
    CoreParts(img, d);
    ActAllKeeps(img, d, s.offset, out.actions);
    ActsFrame(d, r);
    ActsFlows(img, d, r);
    ConstructReferenced(img, s, d, r);
    CoreParts(img, r);
    Whole(img, r);
  }

  lemma FrontierAtEnd<S>(img: Image<S>, s: State<S>)
    requires AddedOk(s) && img.maxOffset <= s.offset && !(img.isArm && IsStrict(s))
    ensures FrontierSettled(img, s)
  {
  }

  lemma EndOfRange<S>(img: Image<S>, s: State<S>, stops: bool)
    requires Constructed(img, s) && Sane(s) && !Fresh(s) && s.needReset == stops && img.maxOffset <= s.offset
    ensures Inv(img, Finish(img, s, stops))
  {
    assert AddedOk(s);
    assert StartSettled(s);
    hide Core, Referenced, Flows, Sane, AddedOk, StartSettled, Fresh, Rollback, FrontierSettled;
    if stops {
      assert Finish(img, s, stops) == s;
    } else if img.isArm && IsStrict(s) {
      RollbackInv(img, s);
    } else {
      FrontierAtEnd(img, s);
      EndKeeps(img, s);
    }
  }

  lemma FinishKeeps<S>(img: Image<S>, s: State<S>, stops: bool)
    requires Constructed(img, s) && !Fresh(s) && s.needReset == stops
    ensures Sane(s) && Inv(img, Finish(img, s, stops))
  {
    CoreIsSane(img, s);
    hide Core, Referenced, Flows, Sane, Rollback;
    if img.maxOffset <= s.offset {
      EndOfRange(img, s, stops);
    }
  }
}
