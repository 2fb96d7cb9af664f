/** What each kind of reference leaves behind, in full: the xref, the entry it leads to, and the route it queues. */
module ActionProofs {
  import opened RouteModel
  import opened OwnerInvariant

  /** An address of an instruction, under the route state it is entered with. */
  predicate IsCodeAddress<S>(img: Image<S>, target: nat, entry: S) {
    target < img.maxOffset && (img.isArm ==> (img.imageBase + target) % img.align(entry) == 0)
  }

  /** One xref more, to a new entry outside the presence table, and nothing else. */
  ghost predicate AddsOutside<S>(s: State<S>, r: State<S>, x: XRef, entry: OutsideEntry) {
    && r == s.(owner := r.owner) && r.owner.decodings == s.owner.decodings
    && x.target == Outside(|s.owner.outside|) && r.owner.xrefs == s.owner.xrefs + [x]
    && r.owner.outside == s.owner.outside + [entry.(refsTo := [|s.owner.xrefs|])]
    && r.owner.slots.Keys == s.owner.slots.Keys
  }

  ghost predicate KeepsEntries<S>(a: Owner<S>, b: Owner<S>) {
    forall o | o in a.slots :: o in b.slots && SameFlags(a.slots[o], b.slots[o])
  }

  /** One xref more, to an entry that is made and queued if there was none, and that is a root if a root leads to it. */
  ghost predicate AddsCode<S>(s: State<S>, r: State<S>, x: XRef, target: nat, entry: S, questionable: bool) {
    && r.owner.xrefs == s.owner.xrefs + [x] && x.target == Code(target)
    && r.owner.outside == s.owner.outside && r.owner.decodings == s.owner.decodings
    && r.stack == (if target in s.owner.slots then s.stack else s.stack + [Route(target, questionable, entry)])
    && r.owner.slots.Keys == s.owner.slots.Keys + {target}
    && (forall o | o in s.owner.slots && o != target :: SameFlags(r.owner.slots[o], s.owner.slots[o]))
    && (var was := if target in s.owner.slots then s.owner.slots[target] else Instruction(true, false, false, false, 0, [], []);
        SameFlags(r.owner.slots[target], was.(root := was.root || !questionable)))
  }

  lemma OneOutside<S>(ow: Owner<S>, entry: OutsideEntry, x: XRef)
    requires x.source in ow.slots && x.target == Outside(|ow.outside|) && entry.refsTo == []
    ensures var r := AddOutside(ow, entry, x);
            && r.decodings == ow.decodings && r.xrefs == ow.xrefs + [x] && r.slots.Keys == ow.slots.Keys
            && r.outside == ow.outside + [entry.(refsTo := [|ow.xrefs|])] && KeepsEntries(ow, r)
  {
    var a := ow.(outside := ow.outside + [entry]);
    CreateXRefIsQuiet(a, x);
    assert [] + [|ow.xrefs|] == [|ow.xrefs|];
    assert CreateXRef(a, x).outside == a.outside[|ow.outside| := entry.(refsTo := [|ow.xrefs|])];
  }

  lemma Enqueued<S>(s: State<S>, target: nat, entry: S, questionable: bool)
    ensures var a := Enqueue(s, target, entry, questionable);
            && a == s.(owner := a.owner, stack := a.stack)
            && a.owner.xrefs == s.owner.xrefs && a.owner.outside == s.owner.outside && a.owner.decodings == s.owner.decodings
            && a.stack == (if target in s.owner.slots then s.stack else s.stack + [Route(target, questionable, entry)])
            && a.owner.slots.Keys == s.owner.slots.Keys + {target}
            && (forall o | o in s.owner.slots && o != target :: a.owner.slots[o] == s.owner.slots[o])
            && (var was := if target in s.owner.slots then s.owner.slots[target] else Instruction(true, false, false, false, 0, [], []);
                a.owner.slots[target] == was.(root := was.root || !questionable))
  {
  }

  lemma OneCode<S>(ow: Owner<S>, x: XRef)
    requires x.source in ow.slots && x.target.Code? && x.target.offset in ow.slots
    ensures var r := CreateXRef(ow, x);
            && r.xrefs == ow.xrefs + [x] && r.outside == ow.outside && r.decodings == ow.decodings
            && r.slots.Keys == ow.slots.Keys && KeepsEntries(ow, r)
  {
    CreateXRefIsQuiet(ow, x);
    assert CreateXRef(ow, x).outside == ow.outside;
    hide CreateXRef;
  }

  lemma CodeXRef<S>(s: State<S>, source: nat, target: nat, entry: S, questionable: bool, addressTaken: bool)
    requires source in s.owner.slots
    ensures var a := Enqueue(s, target, entry, questionable);
            var x := XRef(source, Code(target), false, false, false, addressTaken);
            target in a.owner.slots && source in a.owner.slots
            && AddsCode(s, a.(owner := CreateXRef(a.owner, x)), x, target, entry, questionable)
  {
    var a := Enqueue(s, target, entry, questionable);
    var x := XRef(source, Code(target), false, false, false, addressTaken);
    Enqueued(s, target, entry, questionable);
    hide Enqueue, CreateXRef;
    OneCode(a.owner, x);
  }

  /** A branch leaves nothing unless it leads to an instruction address of the range. Its target is as questionable as its
      route. */
  lemma JumpSaves<S>(img: Image<S>, s: State<S>, source: nat, target: nat, entry: S)
    requires source in s.owner.slots
    ensures var r := Act(img, s, source, Jump(target, entry));
            if IsCodeAddress(img, target, entry) then
              AddsCode(s, r, XRef(source, Code(target), false, false, false, false), target, entry, s.route.questionable)
            else r == s
  {
    CodeXRef(s, source, target, entry, s.route.questionable, false);
    hide Enqueue, CreateXRef, AddsCode;
  }

  /** An address taken leads to code that is questionable; it is data where there is no instruction or none any more. */
  lemma TakeAddressSaves<S>(img: Image<S>, s: State<S>, source: nat, target: nat, entry: S)
    requires source in s.owner.slots
    ensures var r := Act(img, s, source, TakeAddress(target, entry));
            if img.maxOffset <= target then r == s
            else if IsCodeAddress(img, target, entry) && (target in s.owner.slots ==> !s.owner.slots[target].invalid) then
              AddsCode(s, r, XRef(source, Code(target), false, false, false, true), target, entry, true)
            else
              AddsOutside(s, r, XRef(source, Outside(|s.owner.outside|), false, false, true, true), OutsideEntry(target, false, true, []))
              && KeepsEntries(s.owner, r.owner)
  {
    CodeXRef(s, source, target, entry, true, true);
    OneOutside(s.owner, OutsideEntry(target, false, true, []), XRef(source, Outside(|s.owner.outside|), false, false, true, true));
    hide Enqueue, CreateXRef, AddsCode, AddOutside, KeepsEntries;
  }

  lemma TakeDataAddressSaves<S>(img: Image<S>, s: State<S>, source: nat, target: nat)
    requires source in s.owner.slots
    ensures var r := Act(img, s, source, TakeDataAddress(target));
            AddsOutside(s, r, XRef(source, Outside(|s.owner.outside|), false, false, true, true), OutsideEntry(target, false, true, []))
            && KeepsEntries(s.owner, r.owner)
  {
    OneOutside(s.owner, OutsideEntry(target, false, true, []), XRef(source, Outside(|s.owner.outside|), false, false, true, true));
    hide AddOutside, KeepsEntries;
  }

  /** Data that is read: a start that only a questionable route waits for is no code, on ARM. */
  lemma ReadDataSaves<S>(img: Image<S>, s: State<S>, source: nat, target: nat)
    requires source in s.owner.slots
    ensures var r := Act(img, s, source, ReadData(target));
            && AddsOutside(s, r, XRef(source, Outside(|s.owner.outside|), false, false, true, false), OutsideEntry(target, false, true, []))
            && forall o | o in s.owner.slots ::
                 var was := s.owner.slots[o];
                 var pending := img.isArm && o == target < img.maxOffset && was.loading && !was.root;
                 SameFlags(r.owner.slots[o], was.(invalid := was.invalid || pending))
  {
    var a := if IsPendingData(img, s.owner, target) then Invalidate(s.owner, target) else s.owner;
    OneOutside(a, OutsideEntry(target, false, true, []), XRef(source, Outside(|a.outside|), false, false, true, false));
    hide AddOutside;
  }

  /** What lies outside the module has an xref unless it is below what the caller asks for, or no 32-bit address. */
  lemma ExternalSaves<S>(img: Image<S>, s: State<S>, source: nat, address: nat, linksToData: bool, data: bool, addressTaken: bool)
    requires source in s.owner.slots
    ensures var r := Act(img, s, source, External(address, linksToData, data, addressTaken));
            if (img.minimalExternal == 0 || img.minimalExternal <= address) && (img.mode32 ==> address < 0xFFFF_FFFF) then
              AddsOutside(s, r, XRef(source, Outside(|s.owner.outside|), false, true, data, addressTaken),
                          OutsideEntry(address, true, linksToData, []))
              && KeepsEntries(s.owner, r.owner)
            else r == s
  {
    hide AddOutside, KeepsEntries;
    OneOutside(s.owner, OutsideEntry(address, true, linksToData, []),
               XRef(source, Outside(|s.owner.outside|), false, true, data, addressTaken));
  }

  predicate IsEven(n: int) {
    n % 2 == 0
  }

  lemma EvenDistance(a: int, b: int)
    requires IsEven(a)
    ensures IsEven(b - a) <==> IsEven(b)
  {
  }

  predicate IsHalfword(o: int, end: nat, p: nat) {
    o <= p < end && IsEven(p - o)
  }

  lemma HalfwordsOf(o: nat, end: nat)
    requires o < end
    ensures forall p: nat :: IsHalfword(o, end, p) <==> p == o || IsHalfword(o + 2, end, p)
  {
    forall p: nat
      ensures IsHalfword(o, end, p) <==> p == o || IsHalfword(o + 2, end, p)
    {
      EvenDistance(2, p - o);
    }
  }

  ghost predicate HasData<S>(a: Owner<S>, b: Owner<S>, o: int, end: nat, elements: nat) {
    && (forall p: nat :: p in b.slots <==> p in a.slots || IsHalfword(o, end, p))
    && (forall p | p in b.slots :: b.slots[p] ==
          if p in a.slots then a.slots[p] else Instruction(false, true, false, true, elements, [], []))
    && b.actualSize == a.actualSize && b.xrefs == a.xrefs && b.outside == a.outside && b.decodings == a.decodings
  }

  lemma OneDatum<S>(ow: Owner<S>, o: nat, elements: nat)
    requires o !in ow.slots
    ensures var r := DataSlot(ow, o, elements);
            && r == ow.(slots := r.slots, usedSize := ow.usedSize + 1)
            && r.slots == ow.slots[o := Instruction(false, true, false, true, elements, [], [])]
  {
  }

  lemma {:induction false} MarkDataEntries<S>(ow: Owner<S>, o: nat, end: nat, elements: nat)
    ensures HasData(ow, MarkDataFrom(ow, o, end, elements), o, end, elements)
    decreases end - o
  {
    hide DataSlot, IsHalfword;
    if o < end {
      HalfwordsOf(o, end);
      if o in ow.slots {
        MarkDataEntries(ow, o + 2, end, elements);
      } else {
        OneDatum(ow, o, elements);
        MarkDataEntries(DataSlot(ow, o, elements), o + 2, end, elements);
      }
    } else {
      NoHalfwords(o, end);
    }
  }

  lemma NoHalfwords(o: nat, end: nat)
    requires end <= o
    ensures forall p: nat :: !IsHalfword(o, end, p)
  {
  }

  /** The halfwords of the data: those at even addresses, from the one that `target` is in. */
  predicate IsDatum<S>(img: Image<S>, target: nat, size: nat, p: nat) {
    && (img.imageBase + target) % 2 <= target < img.maxOffset && p < img.maxOffset
    && target - (img.imageBase + target) % 2 <= p < target + size && IsEven(img.imageBase + p)
  }

  lemma DataHalfwords<S>(img: Image<S>, target: nat, size: nat)
    requires (img.imageBase + target) % 2 <= target < img.maxOffset
    ensures forall p: nat :: IsHalfword(target - (img.imageBase + target) % 2, DataEnd(img, target, size), p) <==>
                             IsDatum(img, target, size, p)
  {
    forall p: nat
      ensures IsHalfword(target - (img.imageBase + target) % 2, DataEnd(img, target, size), p) <==> IsDatum(img, target, size, p)
    {
      EvenDistance(img.imageBase + target - (img.imageBase + target) % 2, img.imageBase + p);
    }
  }

  /** AArch32 data after the code: an entry for each halfword of it that has none, and no more. */
  lemma MarkDataSaves<S>(img: Image<S>, s: State<S>, source: nat, target: nat, size: nat, elements: nat)
    requires source in s.owner.slots
    ensures var r := Act(img, s, source, MarkData(target, size, elements));
            && r == s.(owner := r.owner) && r.owner.xrefs == s.owner.xrefs && r.owner.outside == s.owner.outside
            && r.owner.decodings == s.owner.decodings && r.owner.actualSize == s.owner.actualSize
            && (forall p: nat :: p in r.owner.slots <==> p in s.owner.slots || IsDatum(img, target, size, p))
            && forall p | p in r.owner.slots :: r.owner.slots[p] ==
                 if p in s.owner.slots then s.owner.slots[p] else Instruction(false, true, false, true, elements, [], [])
  {
    hide MarkDataFrom, DataEnd, IsHalfword;
    var odd := (img.imageBase + target) % 2;
    if odd <= target < img.maxOffset {
      MarkDataEntries(s.owner, target - odd, DataEnd(img, target, size), elements);
      DataHalfwords(img, target, size);
      hide IsDatum;
    }
  }

  /** A decoded word: what it waited for is forgotten, its references stay, and only a route that is not questionable makes
      it a root. */
  lemma DecodeSaves<S>(s: State<S>, size: positive, info: nat, stops: bool, next: S)
    ensures var r := Decode(s, size, info, stops, next);
            var o := s.offset;
            && r.owner.slots.Keys == s.owner.slots.Keys + {o}
            && (forall p | p in s.owner.slots && p != o :: r.owner.slots[p] == s.owner.slots[p])
            && r.owner.slots[o] == Instruction(false, false, !s.route.questionable, false, info,
                                               if o in s.owner.slots then s.owner.slots[o].refsFrom else [],
                                               if o in s.owner.slots then s.owner.slots[o].refsTo else [])
            && r.owner.xrefs == s.owner.xrefs && r.owner.outside == s.owner.outside
            && r.stack == s.stack && r.route == s.route && r.breakOnInvalid == s.breakOnInvalid
  {
  }
}
