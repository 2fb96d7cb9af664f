/** Every operation on the owner keeps its invariant; a rollback breaks the conservation of
    address-taken references when it marks the route and mends it when it keeps them as data. */
module OwnerProofs {
  import opened RouteModel
  import opened OwnerInvariant

  // ------------------------------------------------------------------ slots

  /** The entries change but for their xref lists; no decoded instruction changes its validity. */
  lemma ReslotKeeps<S>(ow: Owner<S>, a: Owner<S>)
    requires Linked(ow) && Provenance(a) && a.xrefs == ow.xrefs && a.outside == ow.outside
    requires forall o | o in ow.slots ::
               o in a.slots && a.slots[o].refsFrom == ow.slots[o].refsFrom && a.slots[o].refsTo == ow.slots[o].refsTo
               && (ow.slots[o].invalid ==> a.slots[o].invalid)
               && (o in ow.decodings ==> a.slots[o].invalid == ow.slots[o].invalid)
    requires forall o | o in a.slots && o !in ow.slots :: a.slots[o].refsFrom == [] && a.slots[o].refsTo == []
    ensures Linked(a) && (Conserved(ow) ==> Conserved(a))
  {
    assert forall t: Target | HasTarget(ow, t) :: HasTarget(a, t) && RefsTo(a, t) == RefsTo(ow, t) && TargetOffset(a, t) == TargetOffset(ow, t);
    forall t: Target | HasTarget(a, t)
      ensures ListsTo(RefsTo(a, t), a.xrefs, t)
    {
      if HasTarget(ow, t) {
        assert ListsTo(RefsTo(ow, t), ow.xrefs, t);
      } else {
        assert RefsTo(a, t) == [];
      }
    }
    assert FromIndexed(a);
    forall i | 0 <= i < |a.xrefs|
      ensures IsConsistent(a, a.xrefs[i]) && (Conserved(ow) ==> IsConserved(a, a.xrefs[i]))
    {
      var x := a.xrefs[i];
      assert IsConsistent(ow, ow.xrefs[i]);
      assert x.source in ow.decodings;
      if Conserved(ow) && x.addressTaken && !a.slots[x.source].invalid {
        assert IsConserved(ow, ow.xrefs[i]);
        LiveTakenGrows(ow, a, x.source, TargetOffset(ow, x.target));
      }
    }
  }

  lemma NewSlotKeeps<S>(ow: Owner<S>, o: nat, entry: Instruction)
    requires OwnerInv(ow) && o !in ow.slots && entry.refsFrom == [] && entry.refsTo == []
    requires if entry.data then entry.invalid && !entry.loading else entry.loading
    ensures OwnerInv(QueryOrAllocate(ow, o, entry)) && Extends(ow, QueryOrAllocate(ow, o, entry))
  {
    var a := QueryOrAllocate(ow, o, entry);
    assert Provenance(a);
    ReslotKeeps(ow, a);
  }

  lemma SetRootKeeps<S>(ow: Owner<S>, o: nat)
    requires OwnerInv(ow) && o in ow.slots
    ensures var a := ow.(slots := ow.slots[o := ow.slots[o].(root := true)]);
            OwnerInv(a) && Extends(ow, a)
  {
    ReslotKeeps(ow, ow.(slots := ow.slots[o := ow.slots[o].(root := true)]));
  }

  lemma TargetedKeeps<S>(ow: Owner<S>, target: nat, questionable: bool)
    requires OwnerInv(ow)
    ensures OwnerInv(Targeted(ow, target, questionable)) && Extends(ow, Targeted(ow, target, questionable))
  {
    var entry := NewInstruction(true, false, false, 0);
    if target !in ow.slots {
      NewSlotKeeps(ow, target, entry);
    }
    if !questionable {
      SetRootKeeps(QueryOrAllocate(ow, target, entry), target);
    }
  }

  lemma InvalidateKeeps<S>(ow: Owner<S>, o: nat)
    requires OwnerInv(ow) && o in ow.slots && ow.slots[o].loading
    ensures OwnerInv(Invalidate(ow, o)) && Extends(ow, Invalidate(ow, o))
  {
    ReslotKeeps(ow, Invalidate(ow, o));
  }

  lemma DecodeSlotEntries<S>(ow: Owner<S>, o: nat, info: nat, decoding: Decoding<S>)
    requires Provenance(ow) && (o in ow.slots ==> ow.slots[o].loading && !ow.slots[o].invalid)
    ensures var r := DecodeSlot(ow, o, info, decoding);
            && o !in ow.decodings && Provenance(r) && r.xrefs == ow.xrefs && r.outside == ow.outside
            && (forall p | p in ow.slots && p != o :: p in r.slots && r.slots[p] == ow.slots[p])
            && o in r.slots && !r.slots[o].invalid
            && r.slots[o].refsFrom == (if o in ow.slots then ow.slots[o].refsFrom else [])
            && r.slots[o].refsTo == (if o in ow.slots then ow.slots[o].refsTo else [])
            && r.slots.Keys == ow.slots.Keys + {o}
  {
  }

  lemma DecodeSlotKeeps<S>(ow: Owner<S>, o: nat, info: nat, decoding: Decoding<S>)
    requires OwnerInv(ow) && (o in ow.slots ==> ow.slots[o].loading && !ow.slots[o].invalid)
    ensures OwnerInv(DecodeSlot(ow, o, info, decoding))
  {
    DecodeSlotEntries(ow, o, info, decoding);
    ReslotKeeps(ow, DecodeSlot(ow, o, info, decoding));
  }

  lemma DecodeSlotExtends<S>(ow: Owner<S>, o: nat, info: nat, decoding: Decoding<S>)
    requires o !in ow.decodings
    ensures Extends(ow, DecodeSlot(ow, o, info, decoding))
  {
  }

  // ------------------------------------------------------------------ marking a route

  predicate Touches(x: XRef, o: nat) {
    x.source == o || x.target == Code(o)
  }

  lemma RouteMarkerXRefs<S>(ow: Owner<S>, o: nat)
    requires Linked(ow) && o in ow.slots
    ensures var r := RouteMarker(ow, o);
            |r.xrefs| == |ow.xrefs|
            && forall i | 0 <= i < |ow.xrefs| ::
                 r.xrefs[i] == ow.xrefs[i].(invalid := ow.xrefs[i].invalid || Touches(ow.xrefs[i], o))
  {
    var i := ow.slots[o];
    assert ListsFrom(i.refsFrom, ow.xrefs, o);
    assert HasTarget(ow, Code(o)) && RefsTo(ow, Code(o)) == i.refsTo && ListsTo(i.refsTo, ow.xrefs, Code(o));
    assert forall k: nat :: k in i.refsTo + i.refsFrom <==> k in i.refsTo || k in i.refsFrom;
  }

  predicate TouchesAny(x: XRef, victims: seq<nat>) {
    x.source in victims || (x.target.Code? && x.target.offset in victims)
  }

  /** What marking all of a route does: exactly the victims and the xrefs at them become invalid. */
  ghost predicate Marked<S>(ow: Owner<S>, victims: seq<nat>, r: Owner<S>) {
    && r.slots.Keys == ow.slots.Keys
    && (forall o | o in ow.slots :: r.slots[o] == ow.slots[o].(invalid := ow.slots[o].invalid || o in victims))
    && |r.xrefs| == |ow.xrefs|
    && (forall i | 0 <= i < |ow.xrefs| ::
          r.xrefs[i] == ow.xrefs[i].(invalid := ow.xrefs[i].invalid || TouchesAny(ow.xrefs[i], victims)))
    && r.outside == ow.outside && r.usedSize == ow.usedSize && r.decodings == ow.decodings
    && r.actualSize == ow.actualSize - |victims|
  }

  lemma MarkerMarks<S>(ow: Owner<S>, v: nat)
    requires Linked(ow) && v in ow.slots
    ensures Marked(ow, [v], RouteMarker(ow, v))
  {
    RouteMarkerXRefs(ow, v);
    assert forall o: nat :: o in [v] <==> o == v;
    assert forall x: XRef :: TouchesAny(x, [v]) == Touches(x, v);
  }

  lemma MarkedIndexed<S>(ow: Owner<S>, victims: seq<nat>, r: Owner<S>)
    requires Linked(ow) && Marked(ow, victims, r)
    ensures FromIndexed(r) && ToIndexed(r)
  {
    forall o | o in r.slots
      ensures ListsFrom(r.slots[o].refsFrom, r.xrefs, o)
    {
      assert ListsFrom(ow.slots[o].refsFrom, ow.xrefs, o);
    }
    assert forall t: Target :: HasTarget(r, t) <==> HasTarget(ow, t);
    forall t: Target | HasTarget(r, t)
      ensures ListsTo(RefsTo(r, t), r.xrefs, t)
    {
      assert RefsTo(r, t) == RefsTo(ow, t) && ListsTo(RefsTo(ow, t), ow.xrefs, t);
    }
  }

  lemma MarkedLinked<S>(ow: Owner<S>, victims: seq<nat>, r: Owner<S>)
    requires Linked(ow) && Marked(ow, victims, r)
    ensures Linked(r)
  {
    MarkedIndexed(ow, victims, r);
    forall i | 0 <= i < |r.xrefs|
      ensures IsConsistent(r, r.xrefs[i])
    {
      assert IsConsistent(ow, ow.xrefs[i]);
    }
  }

  lemma MarkedCompose<S>(a: Owner<S>, v: nat, b: Owner<S>, rest: seq<nat>, c: Owner<S>)
    requires Marked(a, [v], b) && Marked(b, rest, c)
    ensures Marked(a, [v] + rest, c)
  {
    assert forall o: nat :: o in [v] + rest <==> o == v || o in rest;
  }

  lemma {:induction false} MarkAllMarks<S>(ow: Owner<S>, victims: seq<nat>)
    requires Linked(ow) && forall v | v in victims :: v in ow.slots
    ensures Marked(ow, victims, MarkAll(ow, victims)) && Linked(MarkAll(ow, victims))
    decreases |victims|
  {
    if |victims| != 0 {
      var v, rest := victims[0], victims[1..];
      assert victims == [v] + rest;
      assert v in victims;
      MarkerMarks(ow, v);
      MarkedLinked(ow, [v], RouteMarker(ow, v));
      MarkAllMarks(RouteMarker(ow, v), rest);
      MarkedCompose(ow, v, RouteMarker(ow, v), rest, MarkAll(ow, victims));
    }
  }

  // ------------------------------------------------------------------ keeping the addresses taken

  /** Xrefs and outside entries are only appended, the instructions keep their flags. */
  ghost predicate Appends<S>(a: Owner<S>, b: Owner<S>) {
    && Quiet(a, b) && Extends(a, b) && a.xrefs == b.xrefs[..|a.xrefs|]
    && (forall i | |a.xrefs| <= i < |b.xrefs| :: !b.xrefs[i].invalid && b.xrefs[i].target.Outside?)
    && (forall t: Target | HasTarget(a, t) :: HasTarget(b, t) && TargetOffset(b, t) == TargetOffset(a, t))
    && (forall o | o in a.slots :: o in b.slots && a.slots[o].refsTo == b.slots[o].refsTo)
  }

  lemma AppendsTransitive<S>(a: Owner<S>, b: Owner<S>, c: Owner<S>)
    requires Appends(a, b) && Appends(b, c)
    ensures Appends(a, c)
  {
    assert a.xrefs == b.xrefs[..|a.xrefs|] == c.xrefs[..|a.xrefs|];
    assert forall i | |a.xrefs| <= i < |b.xrefs| :: c.xrefs[i] == b.xrefs[i];
  }

  lemma SaveDataXRefAppends<S>(ow: Owner<S>, source: nat, offset: nat, addressTaken: bool)
    requires Linked(ow) && source in ow.decodings && source in ow.slots && !ow.slots[source].invalid
    ensures var r := SaveDataXRef(ow, source, offset, addressTaken);
            && Linked(r) && (Conserved(ow) ==> Conserved(r)) && Appends(ow, r)
            && |r.xrefs| == |ow.xrefs| + 1 && |r.outside| == |ow.outside| + 1
            && r.xrefs[|ow.xrefs|] == XRef(source, Outside(|ow.outside|), false, false, true, addressTaken)
            && r.outside[|ow.outside|].offset == offset && !r.outside[|ow.outside|].external
            && r.outside[|ow.outside|].data
            && (addressTaken ==> HasLiveTaken(r, source, offset))
  {
    hide Linked, Conserved, AddOutside;
    var entry := OutsideEntry(offset, false, true, []);
    var x := XRef(source, Outside(|ow.outside|), false, false, true, addressTaken);
    AddOutsideKeeps(ow, entry, x);
    var r := SaveDataXRef(ow, source, offset, addressTaken);
    forall o | o in ow.slots
      ensures ow.slots[o].refsTo == r.slots[o].refsTo
    {
      assert HasTarget(ow, Code(o)) && RefsTo(r, Code(o)) == RefsTo(ow, Code(o));
    }
    if addressTaken {
      assert IsTaken(r, r.xrefs[|ow.xrefs|], source, offset);
    }
  }

  lemma KeepOneKeeps<S>(ow: Owner<S>, id: nat)
    requires Linked(ow) && id < |ow.xrefs|
    ensures ow.xrefs[id].source in ow.slots && HasTarget(ow, ow.xrefs[id].target)
    ensures Linked(KeepOne(ow, id)) && Appends(ow, KeepOne(ow, id))
    ensures IsKept(ow, id) ==> HasLiveTaken(KeepOne(ow, id), ow.xrefs[id].source, TargetOffset(ow, ow.xrefs[id].target))
  {
    assert IsConsistent(ow, ow.xrefs[id]);
    if IsKept(ow, id) {
      SaveDataXRefAppends(ow, ow.xrefs[id].source, TargetOffset(ow, ow.xrefs[id].target), true);
    }
  }

  /** The reference of xref `id` of `ow` is live in `r`, if it has to be. */
  ghost predicate Kept<S>(ow: Owner<S>, id: nat, r: Owner<S>) {
    id < |ow.xrefs| && ow.xrefs[id].source in ow.slots && HasTarget(ow, ow.xrefs[id].target) && IsKept(ow, id)
    ==> HasLiveTaken(r, ow.xrefs[id].source, TargetOffset(ow, ow.xrefs[id].target))
  }

  lemma KeptGrows<S>(ow: Owner<S>, id: nat, a: Owner<S>, b: Owner<S>)
    requires Kept(ow, id, a) && Appends(a, b)
    ensures Kept(ow, id, b)
  {
    if id < |ow.xrefs| && ow.xrefs[id].source in ow.slots && HasTarget(ow, ow.xrefs[id].target) && IsKept(ow, id) {
      LiveTakenGrows(a, b, ow.xrefs[id].source, TargetOffset(ow, ow.xrefs[id].target));
    }
  }

  lemma KeptEarlier<S>(a: Owner<S>, b: Owner<S>, id: nat, r: Owner<S>)
    requires Appends(a, b) && Kept(b, id, r)
    ensures Kept(a, id, r)
  {
    if id < |a.xrefs| {
      assert a.xrefs[id] == b.xrefs[id];
    }
  }

  lemma {:induction false} KeepIdsKeeps<S>(ow: Owner<S>, ids: seq<nat>)
    requires Linked(ow) && InRange(ow) && forall i | i in ids :: i < |ow.xrefs|
    ensures Linked(KeepIds(ow, ids)) && Appends(ow, KeepIds(ow, ids))
    ensures forall id | id in ids :: Kept(ow, id, KeepIds(ow, ids))
    decreases |ids|
  {
    if |ids| != 0 {
      var id, rest := ids[0], ids[1..];
      assert ids == [id] + rest && id in ids && forall k | k in rest :: k in ids;
      KeepOneKeeps(ow, id);
      var a := KeepOne(ow, id);
      LinkedIsInRange(a);
      KeepIdsKeeps(a, rest);
      var r := KeepIds(a, rest);
      AppendsTransitive(ow, a, r);
      assert Kept(ow, id, a);
      KeptGrows(ow, id, a, r);
      forall k | k in rest
        ensures Kept(ow, k, r)
      {
        KeptEarlier(ow, a, k, r);
      }
    }
  }

  lemma {:induction false} KeepAllKeeps<S>(ow: Owner<S>, victims: seq<nat>)
    requires Linked(ow) && InRange(ow) && forall v | v in victims :: v in ow.slots
    ensures Linked(KeepAll(ow, victims)) && Appends(ow, KeepAll(ow, victims))
    ensures forall v, id | v in victims && id in ow.slots[v].refsTo :: Kept(ow, id, KeepAll(ow, victims))
    decreases |victims|
  {
    if |victims| != 0 {
      var v, rest := victims[0], victims[1..];
      assert victims == [v] + rest;
      KeepIdsKeeps(ow, ow.slots[v].refsTo);
      var a := KeepIds(ow, ow.slots[v].refsTo);
      KeepAllKeeps(a, rest);
      var r := KeepAll(a, rest);
      AppendsTransitive(ow, a, r);
      forall w, id | w in victims && id in ow.slots[w].refsTo
        ensures Kept(ow, id, r)
      {
        if w == v {
          KeptGrows(ow, id, a, r);
        } else {
          assert id in a.slots[w].refsTo;
          KeptEarlier(ow, a, id, r);
        }
      }
    }
  }

  // ------------------------------------------------------------------ rollback

  /** After the marking, a reference is live, or it leads to a victim and the keeper sees it. */
  lemma MarkedWitness<S>(ow: Owner<S>, victims: seq<nat>, m: Owner<S>, r: Owner<S>, x: XRef)
    requires OwnerInv(ow) && Marked(ow, victims, m) && Linked(m) && Appends(m, r) && x in ow.xrefs
    requires forall v, id | v in victims && v in m.slots && id in m.slots[v].refsTo :: Kept(m, id, r)
    requires x.source in ow.slots && HasTarget(ow, x.target) && x.addressTaken && !m.slots[x.source].invalid
    ensures HasLiveTaken(r, x.source, TargetOffset(ow, x.target))
  {
    hide OwnerInv, Linked, Marked, Appends, Kept, IsTaken;
    var offset := TargetOffset(ow, x.target);
    MarkedValid(ow, victims, m, x.source);
    var j := LiveWitness(ow, x);
    MarkedTaken(ow, victims, m, j, x.source, offset);
    var y := m.xrefs[j];
    if y.target.Code? && y.target.offset in victims {
      ListedAt(m, j);
      KeptIsLive(m, j, r, x.source, offset);
    } else {
      MarkedLive(ow, victims, m, j, x.source, offset);
      AppendsKeepTargets(m, r);
      LiveTakenGrows(m, r, x.source, offset);
    }
  }

  lemma LiveWitness<S>(ow: Owner<S>, x: XRef) returns (j: nat)
    requires OwnerInv(ow) && x in ow.xrefs && x.source in ow.slots && HasTarget(ow, x.target) && x.addressTaken
    requires !ow.slots[x.source].invalid
    ensures j < |ow.xrefs| && IsTaken(ow, ow.xrefs[j], x.source, TargetOffset(ow, x.target)) && !ow.xrefs[j].invalid
    ensures IsConsistent(ow, ow.xrefs[j])
  {
    hide FromIndexed, ToIndexed, Provenance, IsTaken;
    var i :| 0 <= i < |ow.xrefs| && ow.xrefs[i] == x;
    assert IsConserved(ow, ow.xrefs[i]);
    j :| 0 <= j < |ow.xrefs| && IsTaken(ow, ow.xrefs[j], x.source, TargetOffset(ow, x.target)) && !ow.xrefs[j].invalid;
  }

  /** Marking changes no xref but its invalid flag. */
  lemma MarkedTaken<S>(ow: Owner<S>, victims: seq<nat>, m: Owner<S>, j: nat, source: nat, offset: nat)
    requires Marked(ow, victims, m) && j < |ow.xrefs| && IsTaken(ow, ow.xrefs[j], source, offset)
    ensures j < |m.xrefs| && m.xrefs[j].source == source && IsTaken(m, m.xrefs[j], source, offset)
    ensures m.xrefs[j].target == ow.xrefs[j].target
  {
  }

  lemma MarkedValid<S>(ow: Owner<S>, victims: seq<nat>, m: Owner<S>, o: nat)
    requires Marked(ow, victims, m) && o in ow.slots
    ensures o in m.slots && (!m.slots[o].invalid ==> !ow.slots[o].invalid)
  {
  }

  lemma MarkedLive<S>(ow: Owner<S>, victims: seq<nat>, m: Owner<S>, j: nat, source: nat, offset: nat)
    requires Marked(ow, victims, m) && j < |ow.xrefs| && IsTaken(m, m.xrefs[j], source, offset) && !ow.xrefs[j].invalid
    requires source in m.slots && !m.slots[source].invalid && m.xrefs[j].target == ow.xrefs[j].target
    requires m.xrefs[j].target.Code? ==> m.xrefs[j].target.offset !in victims
    ensures HasLiveTaken(m, source, offset)
  {
  }

  lemma ListedAt<S>(ow: Owner<S>, j: nat)
    requires Linked(ow) && j < |ow.xrefs|
    ensures var x := ow.xrefs[j];
            && x.source in ow.slots && HasTarget(ow, x.target)
            && (x.target.Code? ==> j in ow.slots[x.target.offset].refsTo && !x.data)
  {
    var x := ow.xrefs[j];
    assert IsConsistent(ow, x);
    assert ListsTo(RefsTo(ow, x.target), ow.xrefs, x.target);
  }

  lemma KeptIsLive<S>(m: Owner<S>, j: nat, r: Owner<S>, source: nat, offset: nat)
    requires j < |m.xrefs| && Kept(m, j, r) && IsTaken(m, m.xrefs[j], source, offset) && !m.xrefs[j].data
    requires source in m.slots && !m.slots[source].invalid
    ensures HasLiveTaken(r, source, offset)
  {
  }

  lemma AppendsKeepTargets<S>(a: Owner<S>, b: Owner<S>)
    requires Appends(a, b)
    ensures |a.xrefs| <= |b.xrefs| && a.xrefs == b.xrefs[..|a.xrefs|]
    ensures forall t: Target | HasTarget(a, t) :: HasTarget(b, t) && TargetOffset(b, t) == TargetOffset(a, t)
  {
  }

  lemma RollbackConserves<S>(ow: Owner<S>, victims: seq<nat>, m: Owner<S>, r: Owner<S>, i: nat)
    requires OwnerInv(ow) && Marked(ow, victims, m) && Linked(m) && Linked(r) && Appends(m, r) && i < |r.xrefs|
    requires forall v, id | v in victims && v in m.slots && id in m.slots[v].refsTo :: Kept(m, id, r)
    requires i < |m.xrefs| || !r.xrefs[i].invalid
    ensures IsConserved(r, r.xrefs[i])
  {
    var x := r.xrefs[i];
    assert IsConsistent(r, x);
    if x.addressTaken && !r.slots[x.source].invalid {
      if i < |m.xrefs| {
        assert m.xrefs[i] == x;
        assert IsConsistent(ow, ow.xrefs[i]);
        MarkedWitness(ow, victims, m, r, ow.xrefs[i]);
      } else {
        assert IsTaken(r, x, x.source, TargetOffset(r, x.target));
      }
    }
  }

  /** What a rollback does to the owner. */
  ghost predicate RolledBack<S>(ow: Owner<S>, victims: seq<nat>, r: Owner<S>) {
    && Extends(ow, r) && r.slots.Keys == ow.slots.Keys && r.decodings == ow.decodings
    && r.usedSize == ow.usedSize && r.actualSize == ow.actualSize - |victims|
    && (forall o | o in ow.slots ::
          o in r.slots && SameFlags(r.slots[o], ow.slots[o].(invalid := ow.slots[o].invalid || o in victims)))
    && (forall i | 0 <= i < |ow.xrefs| :: r.xrefs[i].invalid == (ow.xrefs[i].invalid || TouchesAny(ow.xrefs[i], victims)))
    && (forall i | |ow.xrefs| <= i < |r.xrefs| :: r.xrefs[i].target.Outside?)
  }

  lemma RollbackKeeps<S>(s: State<S>)
    requires OwnerInv(s.owner) && Sane(s)
    ensures OwnerInv(Rollback(s).owner) && RolledBack(s.owner, Victims(s), Rollback(s).owner)
  {
    var ow, victims := s.owner, Victims(s);
    var m := MarkAll(ow, victims);
    MarkAllMarks(ow, victims);
    LinkedIsInRange(m);
    KeepAllKeeps(m, victims);
    var r := Rollback(s).owner;
    MarkedAppends(ow, victims, m, r);
    forall i | 0 <= i < |r.xrefs|
      ensures IsConserved(r, r.xrefs[i])
    {
      RollbackConserves(ow, victims, m, r, i);
    }
  }

  lemma MarkedAppends<S>(ow: Owner<S>, victims: seq<nat>, m: Owner<S>, r: Owner<S>)
    requires Marked(ow, victims, m) && Appends(m, r)
    ensures RolledBack(ow, victims, r)
  {
    assert Extends(ow, m);
    ExtendsTransitive(ow, m, r);
  }
}
