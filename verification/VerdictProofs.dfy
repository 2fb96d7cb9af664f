/** What an iteration does to the route it works on, and why a whole analysis keeps or rejects code: an instruction is
    rejected only for what it falls through to. */
module VerdictProofs {
  import opened RouteModel
  import opened OwnerInvariant
  import opened OwnerProofs
  import opened SessionInvariant
  import opened ReferenceProofs
  import opened StepProofs
  import opened LoopProofs
  import opened RunProofs
  import opened FinalityProofs

  // ------------------------------------------------------------------ one iteration

  function WordAt<S>(img: Image<S>, s: State<S>): Outcome<S> {
    img.decode(s.offset, s.track, s.route.questionable || s.breakOnInvalid)
  }

  /** The word is at an instruction address, and the decoder accepts it. */
  predicate IsCode<S>(img: Image<S>, s: State<S>) {
    (img.isArm ==> (img.imageBase + s.offset) % img.align(s.track) == 0) && WordAt(img, s).Good?
  }

  /** The word joins the route: there is no entry at the offset, or one that waits to be decoded. */
  predicate Joins<S>(img: Image<S>, s: State<S>) {
    && IsCode(img, s)
    && (s.offset in s.owner.slots ==> s.owner.slots[s.offset].loading && !s.owner.slots[s.offset].invalid)
  }

  /** The three reasons to take a route back. */
  predicate Rejects<S>(img: Image<S>, s: State<S>) {
    var strict := s.route.questionable || s.breakOnInvalid;
    || (strict && !IsCode(img, s))
    || (s.route.questionable && s.offset in s.owner.slots && s.owner.slots[s.offset].invalid)
    || (img.isArm && strict && Joins(img, s) && !WordAt(img, s).stops && img.maxOffset <= s.offset + WordAt(img, s).size)
  }

  /** An entry the current route answers for: an instruction of it, or its start before it is decoded. */
  predicate IsOfRoute<S>(s: State<S>, o: nat) {
    o in s.owner.slots && (o in s.added || (o == s.route.start == s.offset && s.owner.slots[o].loading))
  }

  lemma CodeExactly<S>(img: Image<S>, s: State<S>)
    ensures IsStrict(s) <==> s.route.questionable || s.breakOnInvalid
    ensures WordAt(img, s) == img.decode(s.offset, s.track, IsStrict(s))
    ensures IsCode(img, s) <==> IsAligned(img, s.offset, s.track) && WordAt(img, s).Good?
  {
  }

  lemma NoCode<S>(img: Image<S>, s: State<S>)
    requires Sane(s) && !IsCode(img, s)
    ensures var out := WordAt(img, s);
            Process(img, s) ==
            if IsStrict(s) then EndRoute(s, true)
            else if IsAligned(img, s.offset, s.track) then
              s.(offset := s.offset + (if img.isArm then img.align(s.track) else 1), track := out.next)
            else EndRoute(s, false)
  {
    CodeExactly(img, s);
    hide EndRoute, Construct, Finish, Sane, IsAligned, IsStrict, IsCode, WordAt;
  }

  lemma OldEntry<S>(img: Image<S>, s: State<S>)
    requires Sane(s) && IsCode(img, s) && !Joins(img, s)
    ensures Process(img, s) == EndRoute(s, s.route.questionable && s.offset in s.owner.slots && s.owner.slots[s.offset].invalid)
  {
    CodeExactly(img, s);
    hide EndRoute, Construct, Finish, Sane, IsAligned, IsStrict, IsCode, WordAt;
  }

  lemma NewEntry<S>(img: Image<S>, s: State<S>)
    requires Sane(s) && Joins(img, s)
    ensures var out := WordAt(img, s);
            Sane(Construct(img, s, out)) && Process(img, s) == Finish(img, Construct(img, s, out), out.stops)
  {
    CodeExactly(img, s);
    ConstructIsSane(img, s, WordAt(img, s));
    hide EndRoute, Construct, Finish, Sane, IsAligned, IsStrict, IsCode, WordAt;
  }

  lemma ProcessByCase<S>(img: Image<S>, s: State<S>)
    requires Sane(s) && !s.needReset && s.offset < img.maxOffset
    ensures var out := WordAt(img, s);
            var r := Process(img, s);
            if Joins(img, s) then
              CanDecode(img, s) && out == img.decode(s.offset, s.track, IsStrict(s)) && Sane(Construct(img, s, out))
              && r == Finish(img, Construct(img, s, out), out.stops)
            else if Rejects(img, s) then CanRollBack(s) && r == EndRoute(s, true)
            else if !IsStrict(s) && IsAligned(img, s.offset, s.track) && out.Bad? then
              r == s.(offset := s.offset + (if img.isArm then img.align(s.track) else 1), track := out.next)
            else r == EndRoute(s, false)
  {
    CodeExactly(img, s);
    if Joins(img, s) {
      NewEntry(img, s);
    } else if IsCode(img, s) {
      OldEntry(img, s);
    } else {
      NoCode(img, s);
    }
    hide Process, EndRoute, Construct, Finish, Sane, IsAligned, IsStrict, WordAt, IsCode;
  }

  lemma RejectedRoute<S>(img: Image<S>, s: State<S>, o: nat)
    requires Constructed(img, s) && Sane(s) && CanRollBack(s) && IsOfRoute(s, o)
    ensures var r := EndRoute(s, true); o in r.owner.slots && r.owner.slots[o].invalid
  {
    Parts(img, s);
    RollbackKeeps(s);
    RollbackEnds(s);
    assert o in Victims(s);
    hide OwnerInv, Constructed, Sane, Core, Rollback, Victims, CanRollBack;
    RolledBackEffect(s.owner, Victims(s), Rollback(s).owner);
  }

  lemma FinishIs<S>(img: Image<S>, s: State<S>, stops: bool)
    requires Sane(s)
    ensures Finish(img, s, stops) ==
            if s.offset < img.maxOffset then s else EndRoute(s, img.isArm && !stops && (s.route.questionable || s.breakOnInvalid))
  {
    hide EndRoute, Sane;
  }

  /** A word that joins the route leaves it valid unless the route is rejected. */
  lemma JoinedRoute<S>(img: Image<S>, s: State<S>, o: nat)
    requires Inv(img, s) && CanDecode(img, s) && AllValid(s) && Joins(img, s)
    requires WordAt(img, s) == img.decode(s.offset, s.track, IsStrict(s))
    requires o in s.added || o == s.offset
    ensures Sane(Construct(img, s, WordAt(img, s)))
    ensures var r := Finish(img, Construct(img, s, WordAt(img, s)), WordAt(img, s).stops);
            o in r.owner.slots && (r.owner.slots[o].invalid <==> Rejects(img, s))
  {
    var out := WordAt(img, s);
    var c := Construct(img, s, out);
    ConstructKeeps(img, s, out);
    ConstructEffect(img, s, out);
    Parts(img, c);
    ConstructRoute(img, s, out);
    FinishIs(img, c, out.stops);
    assert o in c.added && IsValid(c.owner, o);
    if img.maxOffset <= c.offset {
      EndRouteEffect(img, c, img.isArm && !out.stops && (s.route.questionable || s.breakOnInvalid));
    }
    hide Construct, Constructed, Inv, EndRoute, Finish, Sane, Forward, Stable, AllValid, Core, Routes, OwnerInv, Flows, Referenced;
  }

  lemma ConstructRoute<S>(img: Image<S>, s: State<S>, out: Outcome<S>)
    requires out.Good?
    ensures var c := Construct(img, s, out);
            c.route == s.route && c.breakOnInvalid == s.breakOnInvalid && c.track == out.next && c.offset == s.offset + out.size
            && c.needReset == out.stops && c.added == s.added + [s.offset]
  {
    var d := Decode(s, out.size, out.info, out.stops, out.next);
    ConstructIs(img, s, out);
    ActAllRoute(img, d, s.offset, out.actions);
    ActAllFrame(img, d, s.offset, out.actions);
    hide Construct, ActAll;
  }

  lemma {:induction false} ActAllRoute<S>(img: Image<S>, s: State<S>, source: nat, actions: seq<Action<S>>)
    requires source in s.owner.slots
    ensures var r := ActAll(img, s, source, actions);
            r.route == s.route && r.breakOnInvalid == s.breakOnInvalid && r.track == s.track
    decreases |actions|
  {
    if |actions| != 0 {
      ActKeepsSlots(img, s, source, actions[0]);
      ActRoute(img, s, source, actions[0]);
      hide Act;
      ActAllRoute(img, Act(img, s, source, actions[0]), source, actions[1..]);
    }
  }

  lemma ActRoute<S>(img: Image<S>, s: State<S>, source: nat, action: Action<S>)
    requires source in s.owner.slots
    ensures var r := Act(img, s, source, action);
            r.route == s.route && r.breakOnInvalid == s.breakOnInvalid && r.track == s.track
  {
  }

  /** An iteration takes an entry of its route back exactly for one of the three reasons. */
  lemma RejectsExactly<S>(img: Image<S>, s: State<S>, o: nat)
    requires Inv(img, s) && !s.needReset && s.offset < img.maxOffset && IsOfRoute(s, o) && !s.owner.slots[o].invalid
    ensures Sane(s) && o in Step(img, s).owner.slots && (Step(img, s).owner.slots[o].invalid <==> Rejects(img, s))
  {
    Parts(img, s);
    RoutesAdded(img, s);
    ActiveIsValid(s);
    ProcessByCase(img, s);
    StepLooks(img, s);
    hide Process, EndRoute, Construct, Finish, Sane, Inv, Constructed, Core, Routes, OwnerInv, Flows, Referenced, CanRollBack;
    if Joins(img, s) {
      JoinedRoute(img, s, o);
    } else if Rejects(img, s) {
      RejectedRoute(img, s, o);
    } else {
      EndKeepsRoute(s);
    }
  }

  lemma EndKeepsRoute<S>(s: State<S>)
    requires Sane(s)
    ensures EndRoute(s, false) == s.(needReset := true)
  {
  }

  /** The word is no code, on a route that does not have to prove that it is. */
  predicate Skips<S>(img: Image<S>, s: State<S>) {
    && !s.route.questionable && !s.breakOnInvalid && WordAt(img, s).Bad?
    && (img.isArm ==> (img.imageBase + s.offset) % img.align(s.track) == 0)
  }

  /** The route has one instruction more. */
  ghost predicate HasJoined<S>(img: Image<S>, s: State<S>, r: State<S>)
    requires Joins(img, s)
  {
    var word := WordAt(img, s);
    && r.route == s.route && r.breakOnInvalid == s.breakOnInvalid
    && r.added == s.added + [s.offset] && r.offset == s.offset + word.size && r.track == word.next
    && (r.needReset <==> word.stops || img.maxOffset <= r.offset)
    && r.owner.decodings ==
       s.owner.decodings[s.offset := Decoding(s.track, s.route.questionable || s.breakOnInvalid, s.route.questionable)]
  }

  /** Where an iteration leaves its route: at the next word with one instruction more, at the next word that could be code,
      or at its end. */
  lemma GoesOnExactly<S>(img: Image<S>, s: State<S>)
    requires Inv(img, s) && !s.needReset && s.offset < img.maxOffset
    ensures Sane(s)
    ensures var r := Step(img, s);
            if Joins(img, s) then HasJoined(img, s, r)
            else if Skips(img, s) then
              r == s.(offset := s.offset + (if img.isArm then img.align(s.track) else 1), track := WordAt(img, s).next)
            else r == s.(owner := r.owner, needReset := true) && r.owner.decodings == s.owner.decodings
                 && (r.owner == s.owner || Rejects(img, s))
  {
    Parts(img, s);
    RoutesAdded(img, s);
    ActiveIsValid(s);
    ProcessByCase(img, s);
    EndKeepsRoute(s);
    EndRouteRoute(s, true);
    StepLooks(img, s);
    SkipsExactly(img, s);
    hide *;
    if Joins(img, s) {
      JoinedGoesOn(img, s);
    }
  }

  lemma StepLooks<S>(img: Image<S>, s: State<S>)
    requires Sane(s) && !s.needReset && s.offset < img.maxOffset
    ensures !IsDone(img, s) && Step(img, s) == Process(img, s)
  {
    hide Process, Sane;
  }

  lemma SkipsExactly<S>(img: Image<S>, s: State<S>)
    ensures Skips(img, s) <==> !IsStrict(s) && IsAligned(img, s.offset, s.track) && WordAt(img, s).Bad?
    ensures Skips(img, s) ==> !Joins(img, s) && !Rejects(img, s)
  {
  }

  lemma EndRouteRoute<S>(s: State<S>, rollback: bool)
    requires Sane(s)
    ensures var r := EndRoute(s, rollback);
            && r == s.(owner := r.owner, needReset := true) && r.owner.decodings == s.owner.decodings
  {
    hide InRange;
    if rollback {
      RollbackDecodings(s);
    }
  }

  lemma {:induction false} MarkAllDecodings<S>(ow: Owner<S>, victims: seq<nat>)
    requires forall v | v in victims :: v in ow.slots
    ensures MarkAll(ow, victims).decodings == ow.decodings
    decreases |victims|
  {
    if |victims| != 0 {
      MarkAllDecodings(RouteMarker(ow, victims[0]), victims[1..]);
    }
  }

  lemma {:induction false} KeepIdsDecodings<S>(ow: Owner<S>, ids: seq<nat>)
    requires InRange(ow) && forall i | i in ids :: i < |ow.xrefs|
    ensures KeepIds(ow, ids).decodings == ow.decodings
    decreases |ids|
  {
    if |ids| != 0 {
      assert ids[0] in ids && forall i | i in ids[1..] :: i in ids;
      KeepIdsDecodings(KeepOne(ow, ids[0]), ids[1..]);
    }
  }

  lemma {:induction false} KeepAllDecodings<S>(ow: Owner<S>, victims: seq<nat>)
    requires InRange(ow) && forall v | v in victims :: v in ow.slots
    ensures KeepAll(ow, victims).decodings == ow.decodings
    decreases |victims|
  {
    if |victims| != 0 {
      KeepIdsDecodings(ow, ow.slots[victims[0]].refsTo);
      KeepAllDecodings(KeepIds(ow, ow.slots[victims[0]].refsTo), victims[1..]);
    }
  }

  lemma RollbackDecodings<S>(s: State<S>)
    requires Sane(s)
    ensures Rollback(s).owner.decodings == s.owner.decodings
  {
    MarkAllInRange(s.owner, Victims(s));
    MarkAllDecodings(s.owner, Victims(s));
    KeepAllDecodings(MarkAll(s.owner, Victims(s)), Victims(s));
  }

  lemma JoinedGoesOn<S>(img: Image<S>, s: State<S>)
    requires Inv(img, s) && CanDecode(img, s) && AllValid(s) && Joins(img, s)
    requires WordAt(img, s) == img.decode(s.offset, s.track, IsStrict(s))
    ensures Sane(Construct(img, s, WordAt(img, s)))
    ensures HasJoined(img, s, Finish(img, Construct(img, s, WordAt(img, s)), WordAt(img, s).stops))
  {
    var out := WordAt(img, s);
    var c := Construct(img, s, out);
    ConstructKeeps(img, s, out);
    Parts(img, c);
    ConstructRoute(img, s, out);
    FinishIs(img, c, out.stops);
    EndRouteRoute(c, img.isArm && !out.stops && (s.route.questionable || s.breakOnInvalid));
    JoinedDecodings(img, s, out);
    hide Construct, Constructed, Inv, EndRoute, Finish, Sane, Core, Routes, OwnerInv, Flows, Referenced;
  }

  lemma JoinedDecodings<S>(img: Image<S>, s: State<S>, out: Outcome<S>)
    requires Constructed(img, s) && CanDecode(img, s) && out.Good?
    ensures Construct(img, s, out).owner.decodings ==
            s.owner.decodings[s.offset := Decoding(s.track, s.route.questionable || s.breakOnInvalid, s.route.questionable)]
  {
    var d := Decode(s, out.size, out.info, out.stops, out.next);
    Parts(img, s);
    DecodeCore(img, s, out.size, out.info, out.stops, out.next);
    ConstructIs(img, s, out);
    hide Decode, ActAll, Construct, Core, Constructed, Referenced, Flows, Extends, Routes, OwnerInv, Sized, CanDecode;
    ActAllKeeps(img, d, s.offset, out.actions);
  }

  /** When a route has ended, the one that was queued last is walked next, from its start and with nothing decoded. */
  lemma LastQueuedIsNext<S>(img: Image<S>, s: State<S>, rest: seq<Route<S>>, top: Route<S>)
    requires Sane(s) && (img.maxOffset <= s.offset || s.needReset) && s.stack == rest + [top]
    ensures var p := s.(stack := rest, route := top, added := [], offset := top.start, track := img.resume(s.track, top.entry),
                        needReset := false);
            Sane(p) && (top.start < img.maxOffset ==> Step(img, s) == Step(img, p))
  {
    assert s.stack[..|s.stack| - 1] == rest;
    hide Process, InRange;
  }

  /** A route that comes to a valid instruction is code: it stays valid to the end of the run. */
  lemma ComesToCode<S>(img: Image<S>, s: State<S>, o: nat)
    requires Inv(img, s) && !s.needReset && s.offset < img.maxOffset && IsCode(img, s) && o in s.added
    requires s.offset in s.owner.slots && !s.owner.slots[s.offset].loading && !s.owner.slots[s.offset].invalid
    ensures Sane(s) && IsValid(s.owner, o) && Stable(s.owner, Run(img, s).owner, o)
  {
    Parts(img, s);
    RoutesAdded(img, s);
    ActiveIsValid(s);
    ProcessByCase(img, s);
    EndKeepsRoute(s);
    StepLooks(img, s);
    hide Process, Sane, Inv, Constructed, Core, Routes, OwnerInv, Flows, Referenced;
    RunsOn(img, s);
    EndedStays(img, Step(img, s), o);
  }

  // ------------------------------------------------------------------ the verdict on strict code

  /** Why the instruction at `o` is rejected: what it falls through to is no code, is known not to be code, or is not there. */
  ghost predicate IsBlamed<S>(img: Image<S>, ow: Owner<S>, o: nat)
    requires o in ow.decodings && OutcomeOf(img, ow, o).Good?
  {
    var out := OutcomeOf(img, ow, o);
    var next := o + out.size;
    !out.stops
    && if img.maxOffset <= next then img.isArm
       else !IsAligned(img, next, out.next) || img.decode(next, out.next, true).Bad? || (next in ow.slots && ow.slots[next].invalid)
  }

  /** What the instruction at `o` falls through to is code on a strict route. */
  ghost predicate IsCleared<S>(img: Image<S>, ow: Owner<S>, o: nat)
    requires o in ow.decodings && OutcomeOf(img, ow, o).Good?
  {
    var out := OutcomeOf(img, ow, o);
    var next := o + out.size;
    out.stops || img.maxOffset <= next || (IsAligned(img, next, out.next) && img.decode(next, out.next, true).Good?)
  }

  ghost predicate IsFrontier<S>(img: Image<S>, s: State<S>, o: nat)
    requires o in s.owner.decodings && OutcomeOf(img, s.owner, o).Good?
  {
    var out := OutcomeOf(img, s.owner, o);
    AtFrontier(s, o, o + out.size, out.next)
  }

  ghost predicate IsJudged<S>(img: Image<S>, s: State<S>, o: nat)
    requires o in s.owner.decodings
  {
    && OutcomeOf(img, s.owner, o).Good? && o in s.owner.slots
    && (s.owner.decodings[o].questionable ==> s.owner.decodings[o].strict)
    && (s.owner.decodings[o].strict ==>
          if s.owner.slots[o].invalid then IsBlamed(img, s.owner, o) else IsFrontier(img, s, o) || IsCleared(img, s.owner, o))
  }

  ghost predicate Judged<S>(img: Image<S>, s: State<S>) {
    forall o | o in s.owner.decodings :: IsJudged(img, s, o)
  }

  /** Each instruction of a strict route falls through to the next one, and the last to the word the route looks at. */
  ghost predicate IsChained<S>(img: Image<S>, s: State<S>, k: nat)
    requires k < |s.added|
  {
    && s.added[k] in s.owner.decodings && OutcomeOf(img, s.owner, s.added[k]).Good? && s.added[k] < img.maxOffset
    && (var out := OutcomeOf(img, s.owner, s.added[k]);
        && !out.stops
        && (k + 1 < |s.added| ==> s.added[k] + out.size == s.added[k + 1])
        && (k + 1 == |s.added| ==> s.added[k] + out.size == s.offset && out.next == s.track))
  }

  ghost predicate Chained<S>(img: Image<S>, s: State<S>) {
    !s.needReset && IsStrict(s) ==> forall k | 0 <= k < |s.added| :: IsChained(img, s, k)
  }

  ghost predicate Verdicts<S>(img: Image<S>, s: State<S>) {
    Judged(img, s) && Chained(img, s)
  }

  /** Blame stays: what is invalid stays invalid. */
  lemma BlameStays<S>(img: Image<S>, a: Owner<S>, b: Owner<S>, o: nat)
    requires Forward(a, b) && o in a.decodings && OutcomeOf(img, a, o).Good?
    ensures o in b.decodings && OutcomeOf(img, b, o).Good?
    ensures IsBlamed(img, a, o) ==> IsBlamed(img, b, o)
    ensures IsCleared(img, a, o) ==> IsCleared(img, b, o)
  {
  }

  /** A route that ends at a word that is code, or at the end of the range, was right about its last instruction. */
  lemma EndJudged<S>(img: Image<S>, s: State<S>)
    requires Judged(img, s) && AddedOk(s)
    requires IsStrict(s) && !s.needReset && s.offset < img.maxOffset ==>
               IsAligned(img, s.offset, s.track) && img.decode(s.offset, s.track, true).Good?
    ensures Judged(img, s.(needReset := true)) && Chained(img, s.(needReset := true))
  {
    var r := s.(needReset := true);
    forall o | o in r.owner.decodings
      ensures IsJudged(img, r, o)
    {
      assert IsJudged(img, s, o);
      FrontierIsAdded(img, s, o);
    }
  }

  /** Taking the whole route back: each instruction is to blame for the next one, the last for the word at the offset. */
  lemma RollbackJudged<S>(img: Image<S>, s: State<S>, ow: Owner<S>)
    requires Judged(img, s) && Chained(img, s) && !s.needReset && IsStrict(s)
    requires Forward(s.owner, ow) && ow.decodings == s.owner.decodings
    requires forall o | IsValid(s.owner, o) && o !in s.added :: Stable(s.owner, ow, o)
    requires forall o | o in s.added :: o in ow.slots && ow.slots[o].invalid
    requires if img.maxOffset <= s.offset then img.isArm
             else !IsAligned(img, s.offset, s.track) || img.decode(s.offset, s.track, true).Bad?
                  || (s.offset in s.owner.slots && s.owner.slots[s.offset].invalid)
    ensures var r := s.(owner := ow, needReset := true); Judged(img, r) && Chained(img, r)
  {
    var r := s.(owner := ow, needReset := true);
    forall o | o in r.owner.decodings
      ensures IsJudged(img, r, o)
    {
      assert IsJudged(img, s, o);
      if o in s.added {
        var k :| 0 <= k < |s.added| && s.added[k] == o;
        assert IsChained(img, s, k) && (k + 1 < |s.added| ==> IsChained(img, s, k + 1));
        ChainedIsBlamed(img, s, ow, k);
      } else {
        hide Forward, IsBlamed, IsCleared;
        BlameStays(img, s.owner, ow, o);
        KeepsVerdict(s.owner, ow, o);
        FrontierIsAdded(img, s, o);
      }
    }
  }

  lemma FrontierIsAdded<S>(img: Image<S>, s: State<S>, o: nat)
    requires o in s.owner.decodings && OutcomeOf(img, s.owner, o).Good?
    ensures IsFrontier(img, s, o) ==> o in s.added
  {
  }

  lemma KeepsVerdict<S>(a: Owner<S>, b: Owner<S>, o: nat)
    requires Forward(a, b) && o in a.slots && o in a.decodings && (IsValid(a, o) ==> Stable(a, b, o))
    ensures o in b.slots && b.slots[o].invalid == a.slots[o].invalid
  {
  }

  lemma ChainedIsBlamed<S>(img: Image<S>, s: State<S>, ow: Owner<S>, k: nat)
    requires k < |s.added| && IsChained(img, s, k) && (k + 1 < |s.added| ==> IsChained(img, s, k + 1)) && Forward(s.owner, ow)
    requires forall o | o in s.added :: o in ow.slots && ow.slots[o].invalid
    requires if img.maxOffset <= s.offset then img.isArm
             else !IsAligned(img, s.offset, s.track) || img.decode(s.offset, s.track, true).Bad?
                  || (s.offset in s.owner.slots && s.owner.slots[s.offset].invalid)
    ensures s.added[k] in ow.decodings && OutcomeOf(img, ow, s.added[k]).Good? && IsBlamed(img, ow, s.added[k])
  {
    if k + 1 < |s.added| {
      assert s.added[k + 1] in s.added;
    }
  }

  /** An instruction joins a strict route when its predecessor falls through to it: that one was right. */
  lemma JoinedJudged<S>(img: Image<S>, s: State<S>, c: State<S>)
    requires Judged(img, s) && Chained(img, s) && AddedOk(s) && Joins(img, s) && CanDecode(img, s)
    requires s.offset !in s.owner.decodings && Forward(s.owner, c.owner)
    requires forall o | IsValid(s.owner, o) :: o != s.offset && Stable(s.owner, c.owner, o)
    requires IsValid(c.owner, s.offset)
    requires c.owner.decodings ==
             s.owner.decodings[s.offset := Decoding(s.track, s.route.questionable || s.breakOnInvalid, s.route.questionable)]
    requires c.added == s.added + [s.offset] && c.offset == s.offset + WordAt(img, s).size && c.track == WordAt(img, s).next
    requires c.needReset == WordAt(img, s).stops && IsStrict(c) == IsStrict(s)
    ensures Judged(img, c) && Chained(img, c)
  {
    forall o | o in c.owner.decodings
      ensures IsJudged(img, c, o)
    {
      if o == s.offset {
        assert OutcomeOf(img, c.owner, o) == WordAt(img, s);
      } else {
        OthersJudged(img, s, c, o);
      }
    }
    JoinedChained(img, s, c);
  }

  lemma OthersJudged<S>(img: Image<S>, s: State<S>, c: State<S>, o: nat)
    requires o in s.owner.decodings && IsJudged(img, s, o) && AddedOk(s) && IsCode(img, s) && !s.needReset
    requires o in c.owner.decodings && c.owner.decodings[o] == s.owner.decodings[o] && Forward(s.owner, c.owner)
    requires IsValid(s.owner, o) ==> Stable(s.owner, c.owner, o)
    ensures IsJudged(img, c, o)
  {
    BlameStays(img, s.owner, c.owner, o);
    FrontierIsAdded(img, s, o);
    KeepsVerdict(s.owner, c.owner, o);
    hide IsBlamed, Forward, Stable, FromIndexed;
  }

  lemma JoinedChained<S>(img: Image<S>, s: State<S>, c: State<S>)
    requires Chained(img, s) && Joins(img, s) && CanDecode(img, s)
    requires c.owner.decodings ==
             s.owner.decodings[s.offset := Decoding(s.track, s.route.questionable || s.breakOnInvalid, s.route.questionable)]
    requires s.offset !in s.owner.decodings
    requires c.added == s.added + [s.offset] && c.offset == s.offset + WordAt(img, s).size && c.track == WordAt(img, s).next
    requires c.needReset == WordAt(img, s).stops && IsStrict(c) == IsStrict(s)
    ensures Chained(img, c)
  {
    if !c.needReset && IsStrict(c) {
      forall k | 0 <= k < |c.added|
        ensures IsChained(img, c, k)
      {
        if k < |s.added| {
          assert IsChained(img, s, k);
        }
      }
    }
  }

  lemma NotDecodedYet<S>(img: Image<S>, s: State<S>)
    requires Provenance(s.owner) && CanDecode(img, s)
    ensures s.offset !in s.owner.decodings
  {
  }

  lemma LastIsValid<S>(s: State<S>, added: seq<nat>, o: nat)
    requires AllValid(s) && s.added == added + [o]
    ensures IsValid(s.owner, o)
  {
    assert s.added[|added|] == o;
  }

  lemma SameStrictness<S>(s: State<S>, r: State<S>)
    requires r.route == s.route && r.breakOnInvalid == s.breakOnInvalid
    ensures IsStrict(r) == IsStrict(s) == (s.route.questionable || s.breakOnInvalid)
  {
  }

  lemma ConstructVerdicts<S>(img: Image<S>, s: State<S>, out: Outcome<S>)
    requires Inv(img, s) && AllValid(s) && AddedOk(s) && Verdicts(img, s) && Joins(img, s) && CanDecode(img, s)
    requires out == WordAt(img, s) && out.Good?
    ensures Verdicts(img, Construct(img, s, out))
  {
    var c := Construct(img, s, out);
    Parts(img, s);
    NotDecodedYet(img, s);
    ConstructEffect(img, s, out);
    ConstructRoute(img, s, out);
    JoinedDecodings(img, s, out);
    LastIsValid(c, s.added, s.offset);
    SameStrictness(s, c);
    hide Construct, Constructed, Inv, Sane, Core, Routes, OwnerInv, Flows, Referenced, Joins, Judged, Chained, Forward, AddedOk,
         AllValid, CanDecode, Stable;
    JoinedJudged(img, s, c);
  }

  lemma RejectVerdicts<S>(img: Image<S>, s: State<S>)
    requires Constructed(img, s) && Sane(s) && CanRollBack(s) && Verdicts(img, s) && (IsStrict(s) || s.added == [])
    requires if img.maxOffset <= s.offset then img.isArm
             else !IsAligned(img, s.offset, s.track) || img.decode(s.offset, s.track, true).Bad?
                  || (s.offset in s.owner.slots && s.owner.slots[s.offset].invalid)
    requires IsStrict(s) && !s.needReset
    ensures Verdicts(img, EndRoute(s, true))
  {
    RollbackEffect(img, s);
    EndRouteRoute(s, true);
    var ow := EndRoute(s, true).owner;
    assert forall o | IsValid(s.owner, o) && o !in s.added :: IsFinal(s, o);
    hide Construct, Constructed, Sane, Forward, Stable, EndRoute, Judged, Chained, IsAligned;
    RollbackJudged(img, s, ow);
  }

  lemma EndVerdicts<S>(img: Image<S>, s: State<S>)
    requires AddedOk(s) && Sane(s) && Verdicts(img, s)
    requires IsStrict(s) && !s.needReset && s.offset < img.maxOffset ==>
               IsAligned(img, s.offset, s.track) && img.decode(s.offset, s.track, true).Good?
    ensures Verdicts(img, EndRoute(s, false))
  {
    EndKeepsRoute(s);
    EndJudged(img, s);
  }

  lemma FinishVerdicts<S>(img: Image<S>, s: State<S>, stops: bool)
    requires Constructed(img, s) && Sane(s) && !Fresh(s) && s.needReset == stops && Verdicts(img, s) && AddedOk(s)
    ensures Verdicts(img, Finish(img, s, stops))
  {
    FinishIs(img, s, stops);
    hide Constructed, Sane, Verdicts, AddedOk, EndRoute, Finish;
    if img.maxOffset <= s.offset {
      if img.isArm && !stops && IsStrict(s) {
        RejectVerdicts(img, s);
      } else {
        EndVerdicts(img, s);
      }
    }
  }

  /** A route that does not have to prove that it is code has no instruction that does. */
  lemma SkipVerdicts<S>(img: Image<S>, s: State<S>, step: positive, track: S)
    requires AddedOk(s) && Verdicts(img, s) && !IsStrict(s)
    ensures Verdicts(img, s.(offset := s.offset + step, track := track))
  {
    var r := s.(offset := s.offset + step, track := track);
    forall o | o in r.owner.decodings
      ensures IsJudged(img, r, o)
    {
      assert IsJudged(img, s, o);
      FrontierIsAdded(img, s, o);
    }
  }

  lemma ProcessVerdicts<S>(img: Image<S>, s: State<S>)
    requires Inv(img, s) && !s.needReset && s.offset < img.maxOffset && Verdicts(img, s)
    ensures Sane(s) && Verdicts(img, Process(img, s))
  {
    Parts(img, s);
    hide *;
    RoutesAdded(img, s);
    ActiveIsValid(s);
    ProcessByCase(img, s);
    CaseFacts(img, s);
    var out := WordAt(img, s);
    if Joins(img, s) {
      ConstructVerdicts(img, s, out);
      ConstructKeeps(img, s, out);
      var c := Construct(img, s, out);
      Parts(img, c);
      RoutesAdded(img, c);
      FinishVerdicts(img, c, out.stops);
    } else if Rejects(img, s) {
      RejectVerdicts(img, s);
    } else if !IsStrict(s) && IsAligned(img, s.offset, s.track) && out.Bad? {
      SkipVerdicts(img, s, if img.isArm then img.align(s.track) else 1, out.next);
    } else {
      EndVerdicts(img, s);
    }
  }

  lemma CaseFacts<S>(img: Image<S>, s: State<S>)
    ensures Joins(img, s) ==> WordAt(img, s).Good?
    ensures WordAt(img, s) == img.decode(s.offset, s.track, IsStrict(s))
    ensures Rejects(img, s) ==> IsStrict(s)
    ensures Rejects(img, s) && !Joins(img, s) ==>
              !IsAligned(img, s.offset, s.track) || img.decode(s.offset, s.track, true).Bad?
              || (s.offset in s.owner.slots && s.owner.slots[s.offset].invalid)
    ensures IsStrict(s) && !Joins(img, s) && !Rejects(img, s) ==>
              IsAligned(img, s.offset, s.track) && img.decode(s.offset, s.track, true).Good?
  {
  }

  lemma PopVerdicts<S>(img: Image<S>, s: State<S>)
    requires Verdicts(img, s) && AddedOk(s) && RouteEnded(img, s) && s.stack != []
    ensures Verdicts(img, Pop(img, s))
  {
    EndJudged(img, s);
    var r := Pop(img, s);
    forall o | o in r.owner.decodings
      ensures IsJudged(img, r, o)
    {
      assert IsJudged(img, s.(needReset := true), o);
    }
  }

  lemma StepVerdicts<S>(img: Image<S>, s: State<S>)
    requires Inv(img, s) && !IsDone(img, s) && Verdicts(img, s)
    ensures Sane(s) && Verdicts(img, Step(img, s))
  {
    Parts(img, s);
    RoutesAdded(img, s);
    hide Inv, Process, Sane, Constructed, Core, Referenced, Flows, Routes, OwnerInv, Sized, Provenance, AddedOk, Verdicts;
    if RouteEnded(img, s) {
      PopInv(img, s);
      PopVerdicts(img, s);
      ProcessVerdicts(img, Pop(img, s));
    } else {
      ProcessVerdicts(img, s);
    }
  }

  lemma {:induction false} RunVerdicts<S>(img: Image<S>, s: State<S>)
    requires Inv(img, s) && Verdicts(img, s)
    ensures Sane(s) && Verdicts(img, Run(img, s))
    decreases |Absent(img, s)|, |s.stack|, Left(img, s)
  {
    hide Inv, Step, Sane, Verdicts, Core, Run;
    if IsDone(img, s) {
      InvIsSane(img, s);
      RunEnds(img, s);
    } else {
      RunsOn(img, s);
      StepVerdicts(img, s);
      StepIsSmaller(img, s);
      RunVerdicts(img, Step(img, s));
    }
  }

  // ------------------------------------------------------------------ between two calls

  /** Strict code that is valid falls through to code, and strict code that is not is to blame for what it falls through to. */
  ghost predicate IsSettled<S>(img: Image<S>, ow: Owner<S>, o: nat)
    requires o in ow.decodings
  {
    && OutcomeOf(img, ow, o).Good? && o in ow.slots && (ow.decodings[o].questionable ==> ow.decodings[o].strict)
    && (ow.decodings[o].strict ==> if ow.slots[o].invalid then IsBlamed(img, ow, o) else IsCleared(img, ow, o))
  }

  ghost predicate Settled<S>(img: Image<S>, ow: Owner<S>) {
    forall o | o in ow.decodings :: IsSettled(img, ow, o)
  }

  lemma StartVerdicts<S>(img: Image<S>, ow: Owner<S>, seed: Seed<S>)
    requires Settled(img, ow)
    ensures Verdicts(img, Start(ow, seed))
  {
    var s := Start(ow, seed);
    forall o | o in s.owner.decodings
      ensures IsJudged(img, s, o)
    {
      assert IsSettled(img, ow, o);
    }
  }

  lemma DoneSettled<S>(img: Image<S>, s: State<S>)
    requires Verdicts(img, s) && AddedOk(s) && IsDone(img, s)
    ensures Settled(img, s.owner)
  {
    EndJudged(img, s);
    forall o | o in s.owner.decodings
      ensures IsSettled(img, s.owner, o)
    {
      assert IsJudged(img, s.(needReset := true), o);
    }
  }
}
