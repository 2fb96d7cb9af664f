/** What a rollback adds: for each address that valid code has taken of the route one data reference, and nothing else. */
module RollbackProofs {
  import opened RouteModel
  import opened OwnerInvariant
  import opened OwnerProofs
  import opened SessionInvariant
  import opened StepProofs

  /** The xref is an address of the presence table that a valid instruction takes. */
  predicate IsSurvivor<S>(ow: Owner<S>, id: nat) {
    && id < |ow.xrefs|
    && (var x := ow.xrefs[id];
        x.addressTaken && !x.data && x.source in ow.slots && !ow.slots[x.source].invalid && HasTarget(ow, x.target))
  }

  function Survivors<S>(ow: Owner<S>, ids: seq<nat>): seq<nat> {
    if |ids| == 0 then [] else (if IsSurvivor(ow, ids[0]) then [ids[0]] else []) + Survivors(ow, ids[1..])
  }

  function AllSurvivors<S>(ow: Owner<S>, victims: seq<nat>): seq<nat>
    requires forall v | v in victims :: v in ow.slots
  {
    if |victims| == 0 then [] else Survivors(ow, ow.slots[victims[0]].refsTo) + AllSurvivors(ow, victims[1..])
  }

  /** The same references as data, to new entries from `first` on. */
  ghost predicate AreDataOf<S>(ow: Owner<S>, ids: seq<nat>, b: Owner<S>) {
    && |b.xrefs| == |ow.xrefs| + |ids| && |b.outside| == |ow.outside| + |ids|
    && b.xrefs[..|ow.xrefs|] == ow.xrefs
    && forall j | 0 <= j < |ids| :: IsDataOf(ow, ids[j], b, j)
  }

  ghost predicate IsDataOf<S>(ow: Owner<S>, id: nat, b: Owner<S>, j: nat) {
    && IsSurvivor(ow, id) && |ow.xrefs| + j < |b.xrefs| && |ow.outside| + j < |b.outside|
    && b.xrefs[|ow.xrefs| + j] == XRef(ow.xrefs[id].source, Outside(|ow.outside| + j), false, false, true, true)
    && b.outside[|ow.outside| + j].offset == TargetOffset(ow, ow.xrefs[id].target)
  }

  lemma KeepOneExactly<S>(ow: Owner<S>, id: nat)
    requires Linked(ow) && id < |ow.xrefs|
    ensures ow.xrefs[id].source in ow.slots && HasTarget(ow, ow.xrefs[id].target)
    ensures Linked(KeepOne(ow, id)) && Appends(ow, KeepOne(ow, id))
    ensures AreDataOf(ow, if IsSurvivor(ow, id) then [id] else [], KeepOne(ow, id))
  {
    KeepOneKeeps(ow, id);
    hide Linked, SaveDataXRef, Appends, AreDataOf, HasLiveTaken, Extends, Conserved;
    if IsKept(ow, id) {
      KeptIsData(ow, id);
    } else {
      NothingAdded(ow);
    }
  }

  lemma KeptIsData<S>(ow: Owner<S>, id: nat)
    requires Linked(ow) && id < |ow.xrefs| && ow.xrefs[id].source in ow.slots && HasTarget(ow, ow.xrefs[id].target)
    requires IsKept(ow, id)
    ensures IsSurvivor(ow, id)
    ensures AreDataOf(ow, [id], SaveDataXRef(ow, ow.xrefs[id].source, TargetOffset(ow, ow.xrefs[id].target), true))
  {
    KeptSource(ow, id);
    hide Linked, SaveDataXRef, Appends, Conserved, HasLiveTaken;
    SaveDataXRefAppends(ow, ow.xrefs[id].source, TargetOffset(ow, ow.xrefs[id].target), true);
    AppendsPrefix(ow, SaveDataXRef(ow, ow.xrefs[id].source, TargetOffset(ow, ow.xrefs[id].target), true));
  }

  lemma KeptSource<S>(ow: Owner<S>, id: nat)
    requires Linked(ow) && id < |ow.xrefs|
    ensures ow.xrefs[id].source in ow.decodings
  {
  }

  lemma AppendsPrefix<S>(a: Owner<S>, b: Owner<S>)
    requires Appends(a, b)
    ensures |a.xrefs| <= |b.xrefs| && a.xrefs == b.xrefs[..|a.xrefs|]
  {
  }

  /** What survives does not change while data is added. */
  lemma SurvivesOn<S>(a: Owner<S>, b: Owner<S>, id: nat)
    requires Appends(a, b) && id < |a.xrefs| && (IsSurvivor(b, id) ==> HasTarget(a, a.xrefs[id].target))
    ensures IsSurvivor(a, id) <==> IsSurvivor(b, id)
    ensures b.xrefs[id] == a.xrefs[id]
    ensures IsSurvivor(a, id) ==> TargetOffset(b, b.xrefs[id].target) == TargetOffset(a, a.xrefs[id].target)
  {
    assert b.xrefs[..|a.xrefs|][id] == b.xrefs[id];
  }

  lemma {:induction false} SurvivorsOn<S>(a: Owner<S>, b: Owner<S>, ids: seq<nat>)
    requires Appends(a, b) && forall i | i in ids :: i < |a.xrefs| && HasTarget(a, a.xrefs[i].target)
    ensures Survivors(a, ids) == Survivors(b, ids)
    decreases |ids|
  {
    hide Appends, IsSurvivor;
    if |ids| != 0 {
      assert ids[0] in ids && forall i | i in ids[1..] :: i in ids;
      SurvivesOn(a, b, ids[0]);
      SurvivorsOn(a, b, ids[1..]);
    }
  }

  lemma {:induction false} SurvivorsAre<S>(ow: Owner<S>, ids: seq<nat>)
    ensures forall i | i in Survivors(ow, ids) :: i in ids && IsSurvivor(ow, i)
    ensures forall i | i in ids && IsSurvivor(ow, i) :: i in Survivors(ow, ids)
    ensures Increasing(ids) ==> Increasing(Survivors(ow, ids))
    decreases |ids|
  {
    hide IsSurvivor, Increasing;
    if |ids| != 0 {
      var rest := ids[1..];
      SurvivorsAre(ow, rest);
      assert forall i | i in ids :: i == ids[0] || i in rest;
      assert ids[0] in ids && forall i | i in rest :: i in ids;
      if Increasing(ids) {
        IncreasingRest(ids);
        IncreasingWith(ids[0], Survivors(ow, rest));
        assert [] + Survivors(ow, rest) == Survivors(ow, rest);
      }
    } else {
      NoneIncreasing();
    }
  }

  lemma NoneIncreasing()
    ensures Increasing([])
  {
  }

  lemma IncreasingRest(ids: seq<nat>)
    requires Increasing(ids) && ids != []
    ensures Increasing(ids[1..]) && forall i | i in ids[1..] :: ids[0] < i
  {
  }

  lemma IncreasingWith(first: nat, rest: seq<nat>)
    requires Increasing(rest) && forall i | i in rest :: first < i
    ensures Increasing([first] + rest)
  {
    assert forall k | 0 <= k < |rest| :: rest[k] in rest;
  }

  lemma DataComposes<S>(a: Owner<S>, first: seq<nat>, b: Owner<S>, rest: seq<nat>, c: Owner<S>)
    requires AreDataOf(a, first, b) && AreDataOf(b, rest, c) && Appends(a, b) && Appends(b, c)
    requires forall i | i in rest :: i < |a.xrefs| && HasTarget(a, a.xrefs[i].target)
    ensures AreDataOf(a, first + rest, c)
  {
    assert c.xrefs[..|a.xrefs|] == c.xrefs[..|b.xrefs|][..|a.xrefs|];
    forall j | 0 <= j < |first + rest|
      ensures IsDataOf(a, (first + rest)[j], c, j)
    {
      if j < |first| {
        EarlierData(a, first, b, rest, c, j);
      } else {
        assert rest[j - |first|] in rest;
        assert IsDataOf(b, rest[j - |first|], c, j - |first|);
        SurvivesOn(a, b, rest[j - |first|]);
      }
    }
  }

  lemma EarlierData<S>(a: Owner<S>, first: seq<nat>, b: Owner<S>, rest: seq<nat>, c: Owner<S>, j: nat)
    requires AreDataOf(a, first, b) && AreDataOf(b, rest, c) && j < |first|
    requires |b.outside| <= |c.outside| && forall k | 0 <= k < |b.outside| :: c.outside[k].offset == b.outside[k].offset
    ensures IsDataOf(a, first[j], c, j)
  {
    assert IsDataOf(a, first[j], b, j);
    assert c.xrefs[..|b.xrefs|][|a.xrefs| + j] == b.xrefs[|a.xrefs| + j];
  }

  lemma NothingAdded<S>(ow: Owner<S>)
    ensures AreDataOf(ow, [], ow)
  {
    assert ow.xrefs[..|ow.xrefs|] == ow.xrefs;
  }

  lemma TargetsOf<S>(ow: Owner<S>)
    requires Linked(ow)
    ensures forall i | 0 <= i < |ow.xrefs| :: HasTarget(ow, ow.xrefs[i].target)
  {
    assert forall i | 0 <= i < |ow.xrefs| :: IsConsistent(ow, ow.xrefs[i]);
  }

  lemma {:induction false} KeepIdsExactly<S>(ow: Owner<S>, ids: seq<nat>)
    requires Linked(ow) && InRange(ow) && forall i | i in ids :: i < |ow.xrefs|
    ensures AreDataOf(ow, Survivors(ow, ids), KeepIds(ow, ids))
    decreases |ids|
  {
    hide Linked, Appends, AreDataOf, IsSurvivor, KeepOne, Kept, InRange;
    if |ids| == 0 {
      NothingAdded(ow);
    } else {
      var id, rest := ids[0], ids[1..];
      assert id in ids && forall k | k in rest :: k in ids;
      KeepOneExactly(ow, id);
      var a := KeepOne(ow, id);
      LinkedIsInRange(a);
      AppendsLonger(ow, a);
      TargetsOf(ow);
      KeepIdsExactly(a, rest);
      KeepIdsKeeps(a, rest);
      SurvivorsOn(ow, a, rest);
      SurvivorsAre(ow, rest);
      DataComposes(ow, if IsSurvivor(ow, id) then [id] else [], a, Survivors(ow, rest), KeepIds(a, rest));
    }
  }

  lemma AppendsLonger<S>(a: Owner<S>, b: Owner<S>)
    requires Appends(a, b)
    ensures |a.xrefs| <= |b.xrefs| && forall o | o in a.slots :: o in b.slots && b.slots[o].refsTo == a.slots[o].refsTo
  {
  }

  lemma ListedInRange<S>(ow: Owner<S>, v: nat)
    requires InRange(ow) && v in ow.slots
    ensures forall i | i in ow.slots[v].refsTo :: i < |ow.xrefs|
  {
  }

  lemma {:induction false} AllSurvivorsOn<S>(a: Owner<S>, b: Owner<S>, victims: seq<nat>)
    requires Appends(a, b) && Linked(a) && InRange(a) && forall v | v in victims :: v in a.slots && v in b.slots
    ensures AllSurvivors(a, victims) == AllSurvivors(b, victims)
    decreases |victims|
  {
    hide Appends, Linked, InRange, Survivors;
    if |victims| != 0 {
      var v, rest := victims[0], victims[1..];
      assert v in victims && forall w | w in rest :: w in victims;
      TargetsOf(a);
      ListedInRange(a, v);
      AppendsLonger(a, b);
      SurvivorsOn(a, b, a.slots[v].refsTo);
      AllSurvivorsOn(a, b, rest);
    }
  }

  lemma {:induction false} AllSurvivorsAre<S>(ow: Owner<S>, victims: seq<nat>)
    requires forall v | v in victims :: v in ow.slots
    ensures forall i | i in AllSurvivors(ow, victims) :: IsSurvivor(ow, i) && exists v | v in victims :: i in ow.slots[v].refsTo
    ensures forall v, i | v in victims && i in ow.slots[v].refsTo && IsSurvivor(ow, i) :: i in AllSurvivors(ow, victims)
    decreases |victims|
  {
    hide IsSurvivor, Survivors;
    if |victims| != 0 {
      var v, rest := victims[0], victims[1..];
      assert v in victims && forall w | w in rest :: w in victims;
      assert forall w | w in victims :: w == v || w in rest;
      SurvivorsAre(ow, ow.slots[v].refsTo);
      AllSurvivorsAre(ow, rest);
    }
  }

  lemma {:induction false} KeepAllExactly<S>(ow: Owner<S>, victims: seq<nat>)
    requires Linked(ow) && InRange(ow) && forall v | v in victims :: v in ow.slots
    ensures AreDataOf(ow, AllSurvivors(ow, victims), KeepAll(ow, victims))
    decreases |victims|
  {
    hide Linked, Appends, AreDataOf, IsSurvivor, KeepIds, Kept, InRange, Survivors;
    if |victims| == 0 {
      NothingAdded(ow);
    } else {
      var v, rest := victims[0], victims[1..];
      assert v in victims && forall w | w in rest :: w in victims;
      ListedInRange(ow, v);
      var ids := ow.slots[v].refsTo;
      KeepIdsExactly(ow, ids);
      KeepIdsKeeps(ow, ids);
      var a := KeepIds(ow, ids);
      AppendsLonger(ow, a);
      KeepAllExactly(a, rest);
      KeepAllKeeps(a, rest);
      AllSurvivorsOn(ow, a, rest);
      RestInRange(ow, rest);
      DataComposes(ow, Survivors(ow, ids), a, AllSurvivors(ow, rest), KeepAll(a, rest));
    }
  }

  lemma RestInRange<S>(ow: Owner<S>, victims: seq<nat>)
    requires Linked(ow) && forall v | v in victims :: v in ow.slots
    ensures forall i | i in AllSurvivors(ow, victims) :: i < |ow.xrefs| && HasTarget(ow, ow.xrefs[i].target)
  {
    AllSurvivorsAre(ow, victims);
    TargetsOf(ow);
    hide Linked, AllSurvivors;
  }

  /** The addresses that valid code has taken of the victims, each once. */
  ghost predicate AreTheAddresses<S>(ow: Owner<S>, victims: seq<nat>, ids: seq<nat>) {
    && Distinct(ids)
    && forall i: nat :: i in ids <==>
         && i < |ow.xrefs| && ow.xrefs[i].addressTaken && ow.xrefs[i].target.Code? && ow.xrefs[i].target.offset in victims
         && ow.xrefs[i].source in ow.slots && !ow.slots[ow.xrefs[i].source].invalid
  }

  lemma {:induction false} SurvivorsAreDistinct<S>(ow: Owner<S>, victims: seq<nat>)
    requires Linked(ow) && Distinct(victims) && forall v | v in victims :: v in ow.slots
    ensures Distinct(AllSurvivors(ow, victims))
    decreases |victims|
  {
    hide Linked, Survivors, IsSurvivor;
    if |victims| != 0 {
      var v, rest := victims[0], victims[1..];
      assert v in victims && forall w | w in rest :: w in victims;
      assert v !in rest;
      SurvivorsAreDistinct(ow, rest);
      SurvivorsAre(ow, ow.slots[v].refsTo);
      AllSurvivorsAre(ow, rest);
      Listed(ow, v);
      forall w | w in rest
        ensures forall i | i in ow.slots[w].refsTo :: i !in ow.slots[v].refsTo
      {
        Listed(ow, w);
      }
      DistinctSum(Survivors(ow, ow.slots[v].refsTo), AllSurvivors(ow, rest));
    }
  }

  lemma DistinctSum(a: seq<nat>, b: seq<nat>)
    requires Increasing(a) && Distinct(b) && forall i | i in b :: i !in a
    ensures Distinct(a + b)
  {
    forall j, k | 0 <= j < k < |a + b|
      ensures (a + b)[j] != (a + b)[k]
    {
      if j < |a| <= k {
        assert a[j] in a && b[k - |a|] in b;
      }
    }
  }

  lemma Listed<S>(ow: Owner<S>, v: nat)
    requires Linked(ow) && v in ow.slots
    ensures Increasing(ow.slots[v].refsTo)
    ensures forall i: nat :: i in ow.slots[v].refsTo <==> i < |ow.xrefs| && ow.xrefs[i].target == Code(v)
  {
    assert HasTarget(ow, Code(v)) && RefsTo(ow, Code(v)) == ow.slots[v].refsTo;
    assert ListsTo(RefsTo(ow, Code(v)), ow.xrefs, Code(v));
  }

  lemma SurvivorsAreTheAddresses<S>(ow: Owner<S>, victims: seq<nat>)
    requires Linked(ow) && Distinct(victims) && forall v | v in victims :: v in ow.slots
    ensures AreTheAddresses(ow, victims, AllSurvivors(ow, victims))
  {
    SurvivorsAreDistinct(ow, victims);
    AllSurvivorsAre(ow, victims);
    TargetsOf(ow);
    assert forall i | 0 <= i < |ow.xrefs| :: IsConsistent(ow, ow.xrefs[i]);
    hide Linked, Consistent, FromIndexed, ToIndexed, Provenance, AllSurvivors;
    forall i: nat
      ensures i in AllSurvivors(ow, victims) <==>
              && i < |ow.xrefs| && ow.xrefs[i].addressTaken && ow.xrefs[i].target.Code? && ow.xrefs[i].target.offset in victims
              && ow.xrefs[i].source in ow.slots && !ow.slots[ow.xrefs[i].source].invalid
    {
      if i < |ow.xrefs| && ow.xrefs[i].target.Code? && ow.xrefs[i].target.offset in victims {
        Listed(ow, ow.xrefs[i].target.offset);
      }
      if i in AllSurvivors(ow, victims) {
        var v :| v in victims && i in ow.slots[v].refsTo;
        Listed(ow, v);
      }
    }
  }

  /** A rollback marks what it takes back, and adds one data reference for each address of it that valid code has taken. */
  lemma RollbackAddsExactly<S>(img: Image<S>, s: State<S>)
    requires Constructed(img, s) && CanRollBack(s)
    ensures Sane(s)
    ensures exists m, ids ::
              && Marked(s.owner, Victims(s), m) && AreTheAddresses(m, Victims(s), ids) && AreDataOf(m, ids, EndRoute(s, true).owner)
  {
    Parts(img, s);
    VictimsAreCounted(img, s);
    var m := MarkAll(s.owner, Victims(s));
    VictimsAreThere(s);
    MarkAllMarks(s.owner, Victims(s));
    LinkedIsInRange(m);
    MarkAllInRange(s.owner, Victims(s));
    KeepAllExactly(m, Victims(s));
    SurvivorsAreTheAddresses(m, Victims(s));
    RollbackIs(s);
    hide *;
    assert AreDataOf(m, AllSurvivors(m, Victims(s)), EndRoute(s, true).owner);
  }

  lemma VictimsAreThere<S>(s: State<S>)
    requires Sane(s)
    ensures forall v | v in Victims(s) :: v in s.owner.slots
  {
  }

  lemma RollbackIs<S>(s: State<S>)
    requires Sane(s)
    ensures forall v | v in Victims(s) :: v in s.owner.slots
    ensures InRange(MarkAll(s.owner, Victims(s))) && MarkAll(s.owner, Victims(s)).slots.Keys == s.owner.slots.Keys
    ensures EndRoute(s, true).owner == KeepAll(MarkAll(s.owner, Victims(s)), Victims(s))
  {
    MarkAllInRange(s.owner, Victims(s));
  }
}
