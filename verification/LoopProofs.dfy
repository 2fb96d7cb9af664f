/** The whole loop: it terminates, and what one iteration keeps, a run keeps. */
module LoopProofs {
  import opened RouteModel
  import opened OwnerInvariant
  import opened OwnerProofs
  import opened SessionInvariant
  import opened ReferenceProofs
  import opened StepProofs

  // ------------------------------------------------------------------ taking a route from the stack

  lemma PopWaiting<S>(img: Image<S>, s: State<S>)
    requires Routes(img, s) && RouteEnded(img, s) && s.stack != []
    ensures var r := Pop(img, s);
            && (forall o: nat :: Queued(s, o) <==> Queued(r, o) || o == r.route.start)
            && (forall o | o in s.owner.slots :: Waiting(r, o) <==> Waiting(s, o))
            && !Queued(r, r.route.start)
  {
    var r, n := Pop(img, s), |s.stack| - 1;
    assert s.stack[n] == r.route;
    forall o: nat | Queued(s, o)
      ensures Queued(r, o) || o == r.route.start
    {
      var k :| 0 <= k < |s.stack| && s.stack[k].start == o;
      assert k < n ==> r.stack[k].start == o;
    }
    forall o: nat | Queued(r, o)
      ensures Queued(s, o)
    {
      var k :| 0 <= k < |r.stack| && r.stack[k].start == o;
      assert s.stack[k].start == o;
    }
    assert Queued(s, r.route.start);
  }

  lemma PopRoutes<S>(img: Image<S>, s: State<S>)
    requires Routes(img, s) && Sized(s) && RouteEnded(img, s) && s.stack != []
    ensures Routes(img, Pop(img, s)) && Sized(Pop(img, s)) && Fresh(Pop(img, s)) && Pop(img, s).offset < img.maxOffset
  {
    var r := Pop(img, s);
    PopWaiting(img, s);
    assert StartOk(img, s.owner, s.stack[|s.stack| - 1]);
    assert StackOk(img, r) by {
      assert forall k | 0 <= k < |r.stack| :: StartOk(img, s.owner, s.stack[k]);
    }
    assert Counted(r) == Counted(s);
  }

  lemma PopFlows<S>(img: Image<S>, s: State<S>)
    requires Flows(img, s) && AddedOk(s) && Bounded(img, s) && RouteEnded(img, s) && s.stack != []
    ensures Flows(img, Pop(img, s))
  {
    forall o | o in s.owner.decodings && o in s.owner.slots && !s.owner.slots[o].invalid
      ensures Flow(img, Pop(img, s), o)
    {
      assert Flow(img, s, o);
    }
  }

  lemma PopInv<S>(img: Image<S>, s: State<S>)
    requires Inv(img, s) && RouteEnded(img, s) && s.stack != []
    ensures Inv(img, Pop(img, s)) && Fresh(Pop(img, s)) && Pop(img, s).offset < img.maxOffset
  {
    Parts(img, s);
    RoutesAdded(img, s);
    PopRoutes(img, s);
    PopFlows(img, s);
    hide Referenced, OwnerInv, Routes, Sized, Flows;
    Whole(img, Pop(img, s));
  }

  // ------------------------------------------------------------------ one word

  lemma FreshStart<S>(img: Image<S>, s: State<S>)
    requires Routes(img, s) && Provenance(s.owner) && !s.needReset
    requires !s.route.questionable
    ensures StartSettled(s)
  {
  }

  /** The route ends at an entry that is not loading, or at one that a root route does not need. */
  lemma EndsAtEntry<S>(img: Image<S>, s: State<S>)
    requires Routes(img, s) && Provenance(s.owner) && !s.needReset && s.offset in s.owner.slots
    requires if s.owner.slots[s.offset].invalid then !s.route.questionable else !s.owner.slots[s.offset].loading
    ensures StartSettled(s) && (s.offset < img.maxOffset ==> FrontierSettled(img, s))
  {
  }

  /** The route stops at a word that is no code, and does not have to prove it is. */
  lemma FrontierAtBadWord<S>(img: Image<S>, s: State<S>)
    requires AddedOk(s) && !s.needReset && !IsStrict(s)
    requires !IsAligned(img, s.offset, s.track) || img.decode(s.offset, s.track, false).Bad?
    ensures FrontierSettled(img, s)
  {
  }

  /** A root route skips a word that is no code. */
  lemma SkipInv<S>(img: Image<S>, s: State<S>, step: positive, track: S)
    requires Inv(img, s) && !s.needReset && !IsStrict(s) && img.decode(s.offset, s.track, false).Bad?
    ensures Inv(img, s.(offset := s.offset + step, track := track))
  {
    var r := s.(offset := s.offset + step, track := track);
    Parts(img, s);
    RoutesAdded(img, s);
    FreshStart(img, s);
    FrontierAtBadWord(img, s);
    assert !Fresh(r) && !IsStrict(r) && s.route.start <= s.offset;
    hide Routes, Sized, Referenced, Flows, OwnerInv, StartSettled, FrontierSettled;
    MovesOn(img, s, r);
    MovesOnFlows(img, s, r);
    Whole(img, r);
  }

  lemma EndInv<S>(img: Image<S>, s: State<S>)
    requires Constructed(img, s) && StartSettled(s) && FrontierSettled(img, s) && Sane(s)
    ensures Inv(img, EndRoute(s, false))
  {
    EndKeeps(img, s);
  }

  /** A strict route can roll back at any word. */
  lemma StrictCanRollBack<S>(s: State<S>)
    requires !s.needReset && IsStrict(s)
    ensures CanRollBack(s)
  {
  }

  lemma ProcessInv<S>(img: Image<S>, s: State<S>)
    requires Inv(img, s) && !s.needReset && s.offset < img.maxOffset
    ensures Sane(s) && Inv(img, Process(img, s))
  {
    Parts(img, s);
    RoutesAdded(img, s);
    assert s.route.questionable ==> IsStrict(s);
    assert s.offset in s.owner.slots && !s.owner.slots[s.offset].invalid && s.owner.slots[s.offset].loading ==> CanDecode(img, s);
    assert s.offset !in s.owner.slots ==> CanDecode(img, s);
    hide Constructed, Core, Routes, Provenance, Sane, Referenced, Flows, OwnerInv, Sized, AddedOk, Rollback, EndRoute, Finish,
         Construct, IsStrict, IsAligned, CanDecode, StartSettled, FrontierSettled, CanRollBack;
    ProcessCases(img, s);
  }

  lemma ProcessCases<S>(img: Image<S>, s: State<S>)
    requires Inv(img, s) && !s.needReset && s.offset < img.maxOffset && Sane(s)
    requires Routes(img, s) && Provenance(s.owner) && AddedOk(s) && (s.route.questionable ==> IsStrict(s))
    requires (s.offset in s.owner.slots ==> !s.owner.slots[s.offset].invalid && s.owner.slots[s.offset].loading) ==> CanDecode(img, s)
    ensures Inv(img, Process(img, s))
  {
    hide Constructed, Routes, Provenance, Sane, AddedOk, Rollback, EndRoute, Finish, Construct, IsStrict, IsAligned,
         CanDecode, StartSettled, FrontierSettled, CanRollBack;
    var o, strict := s.offset, IsStrict(s);
    var out := img.decode(o, s.track, strict);
    if strict {
      StrictCanRollBack(s);
    }
    if !IsAligned(img, o, s.track) {
      if strict {
        RollbackInv(img, s);
      } else {
        FreshStart(img, s);
        FrontierAtBadWord(img, s);
        EndInv(img, s);
      }
    } else if out.Bad? {
      if strict {
        RollbackInv(img, s);
      } else {
        SkipInv(img, s, RouteAlignment(img, s.track), out.next);
      }
    } else if o in s.owner.slots && (s.owner.slots[o].invalid || !s.owner.slots[o].loading) {
      if s.owner.slots[o].invalid && s.route.questionable {
        RollbackInv(img, s);
      } else {
        EndsAtEntry(img, s);
        EndInv(img, s);
      }
    } else {
      ConstructKeeps(img, s, out);
      FinishKeeps(img, Construct(img, s, out), out.stops);
    }
  }

  lemma StepInv<S>(img: Image<S>, s: State<S>)
    requires Inv(img, s) && !IsDone(img, s)
    ensures Sane(s) && Inv(img, Step(img, s))
  {
    Parts(img, s);
    if RouteEnded(img, s) {
      PopInv(img, s);
      hide Inv;
      ProcessInv(img, Pop(img, s));
    } else {
      hide Inv;
      ProcessInv(img, s);
    }
  }
}
