/** What every operation of the analyzer keeps true of the owner: the two xref indexes agree, an
    invalid source has no live xref, and an address taken by a valid instruction is never lost. */
module OwnerInvariant {
  import opened RouteModel

  ghost predicate Increasing(ids: seq<nat>) {
    forall j, k | 0 <= j < k < |ids| :: ids[j] < ids[k]
  }

  function RefsTo<S>(ow: Owner<S>, target: Target): seq<nat>
    requires HasTarget(ow, target)
  {
    match target
    case Code(o) => ow.slots[o].refsTo
    case Outside(i) => ow.outside[i].refsTo
  }

  /** `ids` is the xrefs with the source `o`, each once, in creation order. */
  ghost predicate ListsFrom(ids: seq<nat>, xs: seq<XRef>, o: nat) {
    Increasing(ids) && forall i: nat :: i in ids <==> i < |xs| && xs[i].source == o
  }

  /** `ids` is the xrefs with the target `t`, each once, in creation order. */
  ghost predicate ListsTo(ids: seq<nat>, xs: seq<XRef>, t: Target) {
    Increasing(ids) && forall i: nat :: i in ids <==> i < |xs| && xs[i].target == t
  }

  ghost predicate FromIndexed<S>(ow: Owner<S>) {
    && (forall o | o in ow.slots :: ListsFrom(ow.slots[o].refsFrom, ow.xrefs, o))
    && (forall i | 0 <= i < |ow.xrefs| :: ow.xrefs[i].source in ow.slots)
  }

  ghost predicate ToIndexed<S>(ow: Owner<S>) {
    && (forall t: Target | HasTarget(ow, t) :: ListsTo(RefsTo(ow, t), ow.xrefs, t))
    && (forall i | 0 <= i < |ow.xrefs| :: HasTarget(ow, ow.xrefs[i].target))
  }

  /** A slot is loading, decoded, or marked as data; only decoded instructions make references. */
  ghost predicate Provenance<S>(ow: Owner<S>) {
    && (forall o | o in ow.decodings :: o in ow.slots && !ow.slots[o].loading && !ow.slots[o].data)
    && (forall o | o in ow.slots && o !in ow.decodings ::
          if ow.slots[o].data then ow.slots[o].invalid && !ow.slots[o].loading else ow.slots[o].loading)
    && (forall i | 0 <= i < |ow.xrefs| :: ow.xrefs[i].source in ow.decodings)
  }

  ghost predicate IsConsistent<S>(ow: Owner<S>, x: XRef) {
    && x.source in ow.slots && HasTarget(ow, x.target)
    && (ow.slots[x.source].invalid ==> x.invalid)
    && (x.invalid ==> ow.slots[x.source].invalid || (x.target.Code? && ow.slots[x.target.offset].invalid))
    && (x.target.Code? ==> !x.data && !x.external)
  }

  ghost predicate Consistent<S>(ow: Owner<S>) {
    forall i | 0 <= i < |ow.xrefs| :: IsConsistent(ow, ow.xrefs[i])
  }

  ghost predicate IsTaken<S>(ow: Owner<S>, x: XRef, source: nat, offset: nat) {
    x.source == source && x.addressTaken && HasTarget(ow, x.target) && TargetOffset(ow, x.target) == offset
  }

  /** `source` has a live address-taken xref to `offset`, as code or as data. */
  ghost predicate HasLiveTaken<S>(ow: Owner<S>, source: nat, offset: nat) {
    exists i | 0 <= i < |ow.xrefs| :: IsTaken(ow, ow.xrefs[i], source, offset) && !ow.xrefs[i].invalid
  }

  ghost predicate IsConserved<S>(ow: Owner<S>, x: XRef) {
    x.source in ow.slots && HasTarget(ow, x.target) && x.addressTaken && !ow.slots[x.source].invalid
    ==> HasLiveTaken(ow, x.source, TargetOffset(ow, x.target))
  }

  /** The address-taken references of valid instructions are conserved. */
  ghost predicate Conserved<S>(ow: Owner<S>) {
    forall i | 0 <= i < |ow.xrefs| :: IsConserved(ow, ow.xrefs[i])
  }

  ghost predicate Linked<S>(ow: Owner<S>) {
    FromIndexed(ow) && ToIndexed(ow) && Provenance(ow) && Consistent(ow)
  }

  ghost predicate OwnerInv<S>(ow: Owner<S>) {
    Linked(ow) && Conserved(ow)
  }

  // ------------------------------------------------------------------ what only grows

  predicate SameXRef(x: XRef, y: XRef) {
    x == y.(invalid := x.invalid)
  }

  /** Nothing recorded is forgotten: an xref can only become invalid. */
  ghost predicate Extends<S>(a: Owner<S>, b: Owner<S>) {
    && (forall o | o in a.slots :: o in b.slots)
    && (forall o | o in a.decodings :: o in b.decodings && b.decodings[o] == a.decodings[o])
    && |a.xrefs| <= |b.xrefs| && (forall i | 0 <= i < |a.xrefs| :: SameXRef(a.xrefs[i], b.xrefs[i]))
    && |a.outside| <= |b.outside|
    && (forall i | 0 <= i < |a.outside| ::
          a.outside[i].offset == b.outside[i].offset && a.outside[i].external == b.outside[i].external
          && a.outside[i].data == b.outside[i].data)
  }

  predicate SameFlags(x: Instruction, y: Instruction) {
    x.loading == y.loading && x.invalid == y.invalid && x.root == y.root && x.data == y.data && x.info == y.info
  }

  /** The same instructions with the same flags; xrefs may be added, none becomes invalid. */
  ghost predicate Quiet<S>(a: Owner<S>, b: Owner<S>) {
    && (forall o | o in b.slots :: o in a.slots)
    && (forall o | o in a.slots :: o in b.slots && SameFlags(a.slots[o], b.slots[o]))
    && a.decodings == b.decodings && a.usedSize == b.usedSize && a.actualSize == b.actualSize
  }

  lemma ExtendsTransitive<S>(a: Owner<S>, b: Owner<S>, c: Owner<S>)
    requires Extends(a, b) && Extends(b, c)
    ensures Extends(a, c)
  {
  }

  lemma LinkedIsInRange<S>(ow: Owner<S>)
    requires Linked(ow)
    ensures InRange(ow)
  {
    forall o, i | o in ow.slots && i in ow.slots[o].refsTo
      ensures i < |ow.xrefs|
    {
      assert HasTarget(ow, Code(o)) && RefsTo(ow, Code(o)) == ow.slots[o].refsTo;
      assert ListsTo(RefsTo(ow, Code(o)), ow.xrefs, Code(o));
    }
  }

  // ------------------------------------------------------------------ adding an xref

  /** An xref a valid decoded instruction can make. */
  ghost predicate CanAdd<S>(ow: Owner<S>, x: XRef) {
    && x.source in ow.decodings && x.source in ow.slots && !ow.slots[x.source].invalid
    && HasTarget(ow, x.target) && !x.invalid && (x.target.Code? ==> !x.data && !x.external)
  }

  lemma CreateXRefIsQuiet<S>(ow: Owner<S>, x: XRef)
    requires x.source in ow.slots && HasTarget(ow, x.target)
    ensures var r := CreateXRef(ow, x);
            && Quiet(ow, r) && r.xrefs == ow.xrefs + [x] && |r.outside| == |ow.outside|
            && (forall i | 0 <= i < |ow.outside| ::
                  ow.outside[i].offset == r.outside[i].offset && ow.outside[i].external == r.outside[i].external
                  && ow.outside[i].data == r.outside[i].data)
            && Extends(ow, r)
  {
    var id := |ow.xrefs|;
    var a := ow.(xrefs := ow.xrefs + [x]);
    AddRefToIsQuiet(a, x.target, id);
    var b := AddRefTo(a, x.target, id);
    assert Quiet(ow, b) && b.decodings == ow.decodings;
    AddRefFromIsQuiet(b, x.source, id);
  }

  lemma AddRefToIsQuiet<S>(ow: Owner<S>, target: Target, id: nat)
    requires HasTarget(ow, target)
    ensures var r := AddRefTo(ow, target, id);
            && Quiet(ow, r) && r.xrefs == ow.xrefs && |r.outside| == |ow.outside|
            && (forall i | 0 <= i < |ow.outside| ::
                  ow.outside[i].offset == r.outside[i].offset && ow.outside[i].external == r.outside[i].external
                  && ow.outside[i].data == r.outside[i].data)
  {
  }

  lemma AddRefFromIsQuiet<S>(ow: Owner<S>, o: nat, id: nat)
    requires o in ow.slots
    ensures var r := AddRefFrom(ow, o, id); Quiet(ow, r) && r.xrefs == ow.xrefs && r.outside == ow.outside
  {
  }

  lemma IncreasingAppend(ids: seq<nat>, id: nat)
    requires Increasing(ids) && forall i | i in ids :: i < id
    ensures Increasing(ids + [id])
  {
    assert forall k | 0 <= k < |ids| :: ids[k] in ids;
  }

  lemma ListsFromAppend(ids: seq<nat>, xs: seq<XRef>, o: nat, x: XRef)
    requires ListsFrom(ids, xs, o)
    ensures ListsFrom(if x.source == o then ids + [|xs|] else ids, xs + [x], o)
  {
    IncreasingAppend(ids, |xs|);
  }

  lemma ListsToAppend(ids: seq<nat>, xs: seq<XRef>, t: Target, x: XRef)
    requires ListsTo(ids, xs, t)
    ensures ListsTo(if x.target == t then ids + [|xs|] else ids, xs + [x], t)
  {
    IncreasingAppend(ids, |xs|);
  }

  lemma CreateXRefFrom<S>(ow: Owner<S>, x: XRef)
    requires FromIndexed(ow) && x.source in ow.slots && HasTarget(ow, x.target)
    ensures FromIndexed(CreateXRef(ow, x))
  {
    CreateXRefIsQuiet(ow, x);
    var r := CreateXRef(ow, x);
    forall o | o in r.slots
      ensures ListsFrom(r.slots[o].refsFrom, r.xrefs, o)
    {
      ListsFromAppend(ow.slots[o].refsFrom, ow.xrefs, o, x);
    }
  }

  lemma CreateXRefTargets<S>(ow: Owner<S>, x: XRef)
    requires x.source in ow.slots && HasTarget(ow, x.target)
    ensures var r := CreateXRef(ow, x);
            && (forall t: Target :: HasTarget(r, t) <==> HasTarget(ow, t))
            && (forall t: Target | HasTarget(ow, t) ::
                  RefsTo(r, t) == (if t == x.target then RefsTo(ow, t) + [|ow.xrefs|] else RefsTo(ow, t))
                  && TargetOffset(r, t) == TargetOffset(ow, t))
  {
  }

  lemma CreateXRefTo<S>(ow: Owner<S>, x: XRef)
    requires ToIndexed(ow) && x.source in ow.slots && HasTarget(ow, x.target)
    ensures ToIndexed(CreateXRef(ow, x))
  {
    CreateXRefIsQuiet(ow, x);
    CreateXRefTargets(ow, x);
    var r := CreateXRef(ow, x);
    forall t: Target | HasTarget(r, t)
      ensures ListsTo(RefsTo(r, t), r.xrefs, t)
    {
      ListsToAppend(RefsTo(ow, t), ow.xrefs, t, x);
    }
  }

  lemma CreateXRefLinked<S>(ow: Owner<S>, x: XRef)
    requires Linked(ow) && CanAdd(ow, x)
    ensures Linked(CreateXRef(ow, x))
  {
    CreateXRefIsQuiet(ow, x);
    CreateXRefFrom(ow, x);
    CreateXRefTo(ow, x);
    CreateXRefTargets(ow, x);
    var r := CreateXRef(ow, x);
    assert Provenance(r);
    forall i | 0 <= i < |r.xrefs|
      ensures IsConsistent(r, r.xrefs[i])
    {
      if i < |ow.xrefs| {
        assert IsConsistent(ow, ow.xrefs[i]);
      }
    }
  }

  lemma LiveTakenGrows<S>(a: Owner<S>, b: Owner<S>, source: nat, offset: nat)
    requires HasLiveTaken(a, source, offset) && |a.xrefs| <= |b.xrefs| && a.xrefs == b.xrefs[..|a.xrefs|]
    requires forall t: Target | HasTarget(a, t) :: HasTarget(b, t) && TargetOffset(b, t) == TargetOffset(a, t)
    ensures HasLiveTaken(b, source, offset)
  {
    var i :| 0 <= i < |a.xrefs| && IsTaken(a, a.xrefs[i], source, offset) && !a.xrefs[i].invalid;
    assert b.xrefs[i] == a.xrefs[i];
    assert IsTaken(b, b.xrefs[i], source, offset);
  }

  /** A new live xref is its own witness. */
  lemma CreateXRefConserved<S>(ow: Owner<S>, x: XRef)
    requires Conserved(ow) && Linked(ow) && CanAdd(ow, x)
    ensures Conserved(CreateXRef(ow, x))
  {
    CreateXRefIsQuiet(ow, x);
    CreateXRefTargets(ow, x);
    var r := CreateXRef(ow, x);
    forall i | 0 <= i < |r.xrefs|
      ensures IsConserved(r, r.xrefs[i])
    {
      var y := r.xrefs[i];
      if i < |ow.xrefs| {
        assert IsConserved(ow, ow.xrefs[i]) && IsConsistent(ow, ow.xrefs[i]);
        if y.addressTaken && !r.slots[y.source].invalid {
          LiveTakenGrows(ow, r, y.source, TargetOffset(ow, y.target));
        }
      } else if y.addressTaken {
        assert IsTaken(r, r.xrefs[i], y.source, TargetOffset(r, y.target));
      }
    }
  }

  lemma TargetsKept<S>(ow: Owner<S>, a: Owner<S>)
    requires Linked(ow) && a.slots == ow.slots && a.xrefs == ow.xrefs && a.decodings == ow.decodings
    requires forall t: Target | HasTarget(ow, t) :: HasTarget(a, t) && TargetOffset(a, t) == TargetOffset(ow, t) && RefsTo(a, t) == RefsTo(ow, t)
    requires forall t: Target | HasTarget(a, t) && !HasTarget(ow, t) :: ListsTo(RefsTo(a, t), a.xrefs, t)
    ensures Linked(a) && (Conserved(ow) ==> Conserved(a))
  {
    assert ToIndexed(a);
    forall i | 0 <= i < |a.xrefs|
      ensures IsConsistent(a, a.xrefs[i]) && (Conserved(ow) ==> IsConserved(a, a.xrefs[i]))
    {
      assert IsConsistent(ow, ow.xrefs[i]);
      if Conserved(ow) && a.xrefs[i].addressTaken && !a.slots[a.xrefs[i].source].invalid {
        assert IsConserved(ow, ow.xrefs[i]);
        LiveTakenGrows(ow, a, a.xrefs[i].source, TargetOffset(ow, a.xrefs[i].target));
      }
    }
  }

  lemma NewOutsideKeeps<S>(ow: Owner<S>, entry: OutsideEntry)
    requires Linked(ow) && entry.refsTo == []
    ensures var a := ow.(outside := ow.outside + [entry]);
            && Linked(a) && (Conserved(ow) ==> Conserved(a)) && HasTarget(a, Outside(|ow.outside|))
            && (forall t: Target | HasTarget(ow, t) :: HasTarget(a, t) && TargetOffset(a, t) == TargetOffset(ow, t)
                                                       && RefsTo(a, t) == RefsTo(ow, t))
  {
    var a := ow.(outside := ow.outside + [entry]);
    var t := Outside(|ow.outside|);
    assert ListsTo(RefsTo(a, t), a.xrefs, t) by {
      assert RefsTo(a, t) == [];
      assert forall i | 0 <= i < |a.xrefs| :: HasTarget(ow, ow.xrefs[i].target);
    }
    assert forall u: Target | HasTarget(a, u) && !HasTarget(ow, u) :: u == t;
    TargetsKept(ow, a);
  }

  lemma AddOutsideKeeps<S>(ow: Owner<S>, entry: OutsideEntry, x: XRef)
    requires Linked(ow) && x.source in ow.decodings && x.source in ow.slots && !ow.slots[x.source].invalid
    requires !x.invalid && x.target == Outside(|ow.outside|) && entry.refsTo == []
    ensures var r := AddOutside(ow, entry, x);
            && Linked(r) && (Conserved(ow) ==> Conserved(r)) && Quiet(ow, r) && Extends(ow, r)
            && r.xrefs == ow.xrefs + [x] && |r.outside| == |ow.outside| + 1
            && r.outside[|ow.outside|] == entry.(refsTo := [|ow.xrefs|])
            && (forall t: Target | HasTarget(ow, t) :: HasTarget(r, t) && TargetOffset(r, t) == TargetOffset(ow, t)
                                                       && RefsTo(r, t) == RefsTo(ow, t))
  {
    hide Linked, Conserved, Quiet, Extends, RefsTo, TargetOffset;
    var a := ow.(outside := ow.outside + [entry]);
    NewOutsideKeeps(ow, entry);
    AddOutsideIsQuiet(ow, entry, x);
    CreateXRefTargets(a, x);
    CreateXRefLinked(a, x);
    if Conserved(ow) {
      CreateXRefConserved(a, x);
    }
  }

  lemma AddOutsideIsQuiet<S>(ow: Owner<S>, entry: OutsideEntry, x: XRef)
    requires x.source in ow.slots && x.target == Outside(|ow.outside|) && entry.refsTo == []
    ensures var r := AddOutside(ow, entry, x);
            && Quiet(ow, r) && Extends(ow, r) && r.xrefs == ow.xrefs + [x] && |r.outside| == |ow.outside| + 1
            && r.outside[|ow.outside|] == entry.(refsTo := [|ow.xrefs|])
  {
    var a := ow.(outside := ow.outside + [entry]);
    CreateXRefIsQuiet(a, x);
    var b := AddRefTo(a.(xrefs := a.xrefs + [x]), x.target, |ow.xrefs|);
    assert b.outside[|ow.outside|] == entry.(refsTo := [] + [|ow.xrefs|]);
  }
}
