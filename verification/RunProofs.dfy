/** Termination of the main loop, and the run it defines. */
module RunProofs {
  import opened RouteModel
  import opened OwnerInvariant
  import opened OwnerProofs
  import opened SessionInvariant
  import opened ReferenceProofs
  import opened StepProofs
  import opened LoopProofs

  // ------------------------------------------------------------------ routes are pushed for new entries only

  /** `r` has the routes of `s` and routes to entries that `s` did not have. */
  ghost predicate Pushes<S>(img: Image<S>, s: State<S>, r: State<S>) {
    && |s.stack| <= |r.stack| && r.stack[..|s.stack|] == s.stack
    && (forall k | |s.stack| <= k < |r.stack| ::
          r.stack[k].start < img.maxOffset && r.stack[k].start !in s.owner.slots && r.stack[k].start in r.owner.slots)
    && (forall o | o in s.owner.slots :: o in r.owner.slots)
  }

  lemma PushesTransitive<S>(img: Image<S>, a: State<S>, b: State<S>, c: State<S>)
    requires Pushes(img, a, b) && Pushes(img, b, c)
    ensures Pushes(img, a, c)
  {
    forall k | |a.stack| <= k < |c.stack|
      ensures c.stack[k].start < img.maxOffset && c.stack[k].start !in a.owner.slots && c.stack[k].start in c.owner.slots
    {
      if k < |b.stack| {
        assert c.stack[k] == c.stack[..|b.stack|][k] == b.stack[k];
      }
    }
    assert c.stack[..|a.stack|] == c.stack[..|b.stack|][..|a.stack|];
  }

  lemma ActPushes<S>(img: Image<S>, s: State<S>, source: nat, action: Action<S>)
    requires source in s.owner.slots
    ensures Pushes(img, s, Act(img, s, source, action))
  {
    ActKeepsSlots(img, s, source, action);
  }

  lemma {:induction false} ActAllPushes<S>(img: Image<S>, s: State<S>, source: nat, actions: seq<Action<S>>)
    requires source in s.owner.slots
    ensures Pushes(img, s, ActAll(img, s, source, actions))
    decreases |actions|
  {
    if |actions| != 0 {
      ActPushes(img, s, source, actions[0]);
      ActKeepsSlots(img, s, source, actions[0]);
      hide Act, Pushes;
      ActAllPushes(img, Act(img, s, source, actions[0]), source, actions[1..]);
      PushesTransitive(img, s, Act(img, s, source, actions[0]), ActAll(img, s, source, actions));
    } else {
      assert s.stack[..|s.stack|] == s.stack;
    }
  }

  // ------------------------------------------------------------------ the measure

  ghost function Absent<S>(img: Image<S>, s: State<S>): set<nat> {
    set o: nat | o < img.maxOffset && o !in s.owner.slots
  }

  /** The bytes left on the route, and the end of the route itself. */
  function Left<S>(img: Image<S>, s: State<S>): nat {
    if s.needReset then 0 else if s.offset < img.maxOffset then 1 + img.maxOffset - s.offset else 1
  }

  /** (|Absent|, |stack|, Left) gets smaller. */
  ghost predicate Smaller<S>(img: Image<S>, r: State<S>, s: State<S>) {
    || |Absent(img, r)| < |Absent(img, s)|
    || (|Absent(img, r)| == |Absent(img, s)| &&
        (|r.stack| < |s.stack| || (|r.stack| == |s.stack| && Left(img, r) < Left(img, s))))
  }

  lemma SmallerSet(a: set<nat>, b: set<nat>)
    requires a <= b
    ensures |a| <= |b| && (a != b ==> |a| < |b|)
  {
    assert b == a + (b - a);
    if a != b {
      assert b - a != {};
    }
  }

  lemma PushesAbsent<S>(img: Image<S>, s: State<S>, r: State<S>)
    requires Pushes(img, s, r)
    ensures |Absent(img, r)| <= |Absent(img, s)|
    ensures r.stack == s.stack || |Absent(img, r)| < |Absent(img, s)|
  {
    assert Absent(img, r) <= Absent(img, s);
    if |r.stack| == |s.stack| {
      assert r.stack == r.stack[..|s.stack|];
    } else {
      assert r.stack[|s.stack|].start in Absent(img, s) - Absent(img, r);
    }
    SmallerSet(Absent(img, r), Absent(img, s));
  }

  lemma EndRouteFrame<S>(s: State<S>, rollback: bool)
    requires Sane(s)
    ensures var r := EndRoute(s, rollback);
            r.owner.slots.Keys == s.owner.slots.Keys && r.stack == s.stack && r.needReset && r.offset == s.offset
            && r.added == s.added
  {
    MarkAllInRange(s.owner, Victims(s));
  }

  lemma ConstructPushes<S>(img: Image<S>, s: State<S>, out: Outcome<S>)
    requires out.Good? && Sane(s)
    ensures Sane(Construct(img, s, out)) && Pushes(img, s, Finish(img, Construct(img, s, out), out.stops))
    ensures s.offset < img.maxOffset ==> Left(img, Finish(img, Construct(img, s, out), out.stops)) <
                                         (if s.needReset then 1 + img.maxOffset - s.offset else Left(img, s))
  {
    var d := Decode(s, out.size, out.info, out.stops, out.next);
    var c := Construct(img, s, out);
    ConstructIsSane(img, s, out);
    ActAllPushes(img, d, s.offset, out.actions);
    ActAllFrame(img, d, s.offset, out.actions);
    assert c == ActAll(img, d, s.offset, out.actions);
    EndRouteFrame(c, img.isArm && !out.stops && IsStrict(c));
    hide ActAll, EndRoute, Sane, Act;
    assert Pushes(img, s, d) by {
      assert s.stack[..|s.stack|] == s.stack;
    }
    PushesTransitive(img, s, d, c);
    var r := Finish(img, c, out.stops);
    assert Pushes(img, c, r) by {
      assert c.stack[..|c.stack|] == c.stack;
      assert forall o | o in c.owner.slots :: o in r.owner.slots;
    }
    PushesTransitive(img, s, c, r);
  }

  lemma {:induction false} ActAllFrame<S>(img: Image<S>, s: State<S>, source: nat, actions: seq<Action<S>>)
    requires source in s.owner.slots
    ensures var r := ActAll(img, s, source, actions);
            r.offset == s.offset && r.needReset == s.needReset && r.added == s.added
    decreases |actions|
  {
    if |actions| != 0 {
      ActKeepsSlots(img, s, source, actions[0]);
      ActFrame(img, s, source, actions[0]);
      hide Act;
      ActAllFrame(img, Act(img, s, source, actions[0]), source, actions[1..]);
    }
  }

  lemma ActFrame<S>(img: Image<S>, s: State<S>, source: nat, action: Action<S>)
    requires source in s.owner.slots
    ensures var r := Act(img, s, source, action);
            r.offset == s.offset && r.needReset == s.needReset && r.added == s.added
  {
  }

  lemma ProcessPushes<S>(img: Image<S>, s: State<S>)
    requires Sane(s) && !s.needReset
    ensures Pushes(img, s, Process(img, s))
    ensures s.offset < img.maxOffset ==> Left(img, Process(img, s)) < Left(img, s)
  {
    var out := img.decode(s.offset, s.track, IsStrict(s));
    EndRouteFrame(s, true);
    EndRouteFrame(s, false);
    if out.Good? {
      ConstructPushes(img, s, out);
    }
    hide EndRoute, Construct, Finish, Sane;
    assert s.stack[..|s.stack|] == s.stack;
    var r := Process(img, s);
    if r.owner.slots.Keys == s.owner.slots.Keys && r.stack == s.stack {
      assert forall o | o in s.owner.slots :: o in r.owner.slots;
      assert Pushes(img, s, r);
    }
  }

  lemma StepIsSmaller<S>(img: Image<S>, s: State<S>)
    requires Sane(s) && !IsDone(img, s)
    ensures Smaller(img, Step(img, s), s)
  {
    var p := if RouteEnded(img, s) then Pop(img, s) else s;
    ProcessPushes(img, p);
    PushesAbsent(img, p, Step(img, s));
    assert Absent(img, p) == Absent(img, s);
  }

  /** An iteration queues only offsets that had no entry before it, and they have one after it: an offset is queued at
      most once for an owner. */
  lemma QueuedOnce<S>(img: Image<S>, s: State<S>)
    requires Sane(s) && !IsDone(img, s)
    ensures Pushes(img, if RouteEnded(img, s) then Pop(img, s) else s, Step(img, s))
  {
    ProcessPushes(img, if RouteEnded(img, s) then Pop(img, s) else s);
  }

  lemma ProcessIsSane<S>(img: Image<S>, s: State<S>)
    requires Sane(s)
    ensures Sane(Process(img, s))
  {
    var out := img.decode(s.offset, s.track, IsStrict(s));
    EndRouteIsSane(s, true);
    EndRouteIsSane(s, false);
    if out.Good? {
      ConstructIsSane(img, s, out);
      EndRouteIsSane(Construct(img, s, out), img.isArm && !out.stops && IsStrict(Construct(img, s, out)));
    }
    hide EndRoute, Construct, InRange;
  }

  lemma EndRouteIsSane<S>(s: State<S>, rollback: bool)
    requires Sane(s)
    ensures Sane(EndRoute(s, rollback))
  {
    MarkAllInRange(s.owner, Victims(s));
  }

  lemma StepIsSane<S>(img: Image<S>, s: State<S>)
    requires Sane(s) && !IsDone(img, s)
    ensures Sane(Step(img, s))
  {
    ProcessIsSane(img, if RouteEnded(img, s) then Pop(img, s) else s);
  }

  // ------------------------------------------------------------------ the run

  /** Diana_AnalyzeCodeImpl from a state of its loop: iterations until the stack is empty. */
  ghost function Run<S>(img: Image<S>, s: State<S>): State<S>
    requires Sane(s)
    decreases |Absent(img, s)|, |s.stack|, Left(img, s)
  {
    if IsDone(img, s) then s
    else
      StepIsSane(img, s);
      StepIsSmaller(img, s);
      Run(img, Step(img, s))
  }

  lemma InvIsSane<S>(img: Image<S>, s: State<S>)
    requires Inv(img, s)
    ensures Sane(s)
  {
    CoreIsSane(img, s);
  }

  lemma RunsOn<S>(img: Image<S>, s: State<S>)
    requires Inv(img, s) && !IsDone(img, s)
    ensures Sane(s) && Inv(img, Step(img, s)) && Sane(Step(img, s)) && Run(img, s) == Run(img, Step(img, s))
  {
    hide Step, Core;
    CoreIsSane(img, s);
    StepInv(img, s);
    CoreIsSane(img, Step(img, s));
  }

  lemma RunEnds<S>(img: Image<S>, s: State<S>)
    requires Sane(s) && IsDone(img, s)
    ensures Run(img, s) == s
  {
  }

  lemma {:induction false} RunInv<S>(img: Image<S>, s: State<S>)
    requires Inv(img, s)
    ensures Sane(s) && Inv(img, Run(img, s)) && IsDone(img, Run(img, s))
    decreases |Absent(img, s)|, |s.stack|, Left(img, s)
  {
    CoreIsSane(img, s);
    if !IsDone(img, s) {
      StepInv(img, s);
      StepIsSmaller(img, s);
      hide Inv, Step;
      RunInv(img, Step(img, s));
    }
  }

  // ------------------------------------------------------------------ the pool has room

  /** Every entry is in the analyzed range. */
  ghost predicate Within<S>(img: Image<S>, ow: Owner<S>) {
    forall o | o in ow.slots :: o < img.maxOffset
  }

  lemma {:induction false} Below(n: nat, os: set<nat>)
    requires forall o | o in os :: o < n
    ensures |os| <= n
  {
    if n == 0 {
      assert os == {};
    } else {
      Below(n - 1, os - {n - 1});
      assert os <= (os - {n - 1}) + {n - 1};
      SmallerSet(os, (os - {n - 1}) + {n - 1});
    }
  }

  /** The pool has an entry for every offset that has none yet. */
  lemma PoolHasRoom<S>(img: Image<S>, ow: Owner<S>, o: nat)
    requires Within(img, ow) && ow.usedSize == |ow.slots| && o !in ow.slots && o < img.maxOffset
    ensures ow.usedSize < img.maxOffset
  {
    Below(img.maxOffset, ow.slots.Keys + {o});
    assert |ow.slots.Keys + {o}| == |ow.slots.Keys| + 1;
    assert |ow.slots| == |ow.slots.Keys|;
  }

  lemma {:induction false} ActAllWithin<S>(img: Image<S>, s: State<S>, source: nat, actions: seq<Action<S>>)
    requires source in s.owner.slots && Within(img, s.owner)
    ensures Within(img, ActAll(img, s, source, actions).owner)
    decreases |actions|
  {
    if |actions| != 0 {
      ActKeepsSlots(img, s, source, actions[0]);
      hide Act;
      ActAllWithin(img, Act(img, s, source, actions[0]), source, actions[1..]);
    }
  }

  lemma SameKeysWithin<S>(img: Image<S>, a: Owner<S>, b: Owner<S>)
    requires Within(img, a) && b.slots.Keys == a.slots.Keys
    ensures Within(img, b)
  {
    assert forall o | o in b.slots :: o in a.slots;
  }

  lemma ProcessWithin<S>(img: Image<S>, s: State<S>)
    requires Sane(s) && s.offset < img.maxOffset && Within(img, s.owner)
    ensures Within(img, Process(img, s).owner)
  {
    var out := img.decode(s.offset, s.track, IsStrict(s));
    EndRouteFrame(s, true);
    EndRouteFrame(s, false);
    SameKeysWithin(img, s.owner, EndRoute(s, true).owner);
    SameKeysWithin(img, s.owner, EndRoute(s, false).owner);
    if out.Good? {
      var d := Decode(s, out.size, out.info, out.stops, out.next);
      var c := Construct(img, s, out);
      ConstructIsSane(img, s, out);
      ActAllWithin(img, d, s.offset, out.actions);
      assert c == ActAll(img, d, s.offset, out.actions);
      EndRouteFrame(c, img.isArm && !out.stops && IsStrict(c));
      SameKeysWithin(img, c.owner, EndRoute(c, img.isArm && !out.stops && IsStrict(c)).owner);
    }
    hide EndRoute, Construct, Sane, Within, ActAll, IsAligned;
  }

  lemma StepWithin<S>(img: Image<S>, s: State<S>)
    requires Inv(img, s) && !IsDone(img, s) && Within(img, s.owner)
    ensures Sane(s) && Within(img, Step(img, s).owner)
  {
    CoreIsSane(img, s);
    if RouteEnded(img, s) {
      PopInv(img, s);
    }
    hide Inv, Process, Within, Sane;
    ProcessWithin(img, if RouteEnded(img, s) then Pop(img, s) else s);
  }
}
