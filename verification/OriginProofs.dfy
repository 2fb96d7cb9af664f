/** Where things come from. No xref is invented: each is made by an action of its source, as its source was decoded. And a
    property of offsets and route states that seeds have and decoding hands on is one of every decoded instruction. */
module OriginProofs {
  import opened RouteModel
  import opened OwnerInvariant
  import opened OwnerProofs
  import opened SessionInvariant
  import opened ReferenceProofs
  import opened StepProofs
  import opened LoopProofs
  import opened RunProofs
  import opened FinalityProofs

  // ------------------------------------------------------------------ properties of route states

  predicate Holds<S>(p: (nat, S) -> bool, o: nat, track: S) {
    p(o, track)
  }

  /** Whatever state a route is resumed from. */
  ghost predicate Resumes<S(!new)>(img: Image<S>, p: (nat, S) -> bool, target: nat, entry: S) {
    forall o: nat, track: S | Holds(p, o, track) :: p(target, img.resume(track, entry))
  }

  ghost predicate Enters<S(!new)>(img: Image<S>, p: (nat, S) -> bool, action: Action<S>) {
    match action
    case Jump(target, entry) => Resumes(img, p, target, entry)
    case TakeAddress(target, entry) => Resumes(img, p, target, entry)
    case _ => true
  }

  ghost predicate HandsOn<S(!new)>(img: Image<S>, p: (nat, S) -> bool, o: nat, track: S, strict: bool) {
    match img.decode(o, track, strict)
    case Bad(next) => p(o + RouteAlignment(img, track), next)
    case Good(size, _, actions, _, next) => p(o + size, next) && forall a | a in actions :: Enters(img, p, a)
  }

  /** What holds at an instruction holds at the next one, and where its references lead. */
  ghost predicate HandedOn<S(!new)>(img: Image<S>, p: (nat, S) -> bool) {
    forall o: nat, track: S, strict: bool | p(o, track) :: HandsOn(img, p, o, track, strict)
  }

  ghost predicate Decoded<S(!new)>(p: (nat, S) -> bool, ow: Owner<S>) {
    forall o | o in ow.decodings :: p(o, ow.decodings[o].track)
  }

  ghost predicate Traced<S(!new)>(img: Image<S>, p: (nat, S) -> bool, s: State<S>) {
    && Decoded(p, s.owner) && p(s.offset, s.track)
    && (forall k | 0 <= k < |s.stack| :: Resumes(img, p, s.stack[k].start, s.stack[k].entry))
  }

  // ------------------------------------------------------------------ who made an xref

  ghost predicate IsDataAt<S>(ow: Owner<S>, x: XRef, offset: nat, addressTaken: bool) {
    && x.target.Outside? && x.target.index < |ow.outside| && ow.outside[x.target.index].offset == offset
    && x.data && !x.external && x.addressTaken == addressTaken
  }

  /** The action makes such an xref, at once or, for an address taken that turns out to be data, in a rollback. */
  ghost predicate MadeBy<S>(ow: Owner<S>, x: XRef, action: Action<S>) {
    match action
    case Jump(target, _) => x.target == Code(target) && !x.addressTaken && !x.data && !x.external
    case TakeAddress(target, _) =>
      || (x.target == Code(target) && x.addressTaken && !x.data && !x.external)
      || IsDataAt(ow, x, target, true)
    case TakeDataAddress(target) => IsDataAt(ow, x, target, true)
    case ReadData(target) => IsDataAt(ow, x, target, false)
    case External(address, _, data, addressTaken) =>
      && x.target.Outside? && x.target.index < |ow.outside| && ow.outside[x.target.index].offset == address
      && x.external && x.data == data && x.addressTaken == addressTaken
    case MarkData(_, _, _) => false
  }

  ghost predicate MadeByOne<S>(ow: Owner<S>, x: XRef, actions: seq<Action<S>>) {
    exists k | 0 <= k < |actions| :: MadeBy(ow, x, actions[k])
  }

  ghost predicate IsMade<S>(img: Image<S>, ow: Owner<S>, x: XRef) {
    && x.source in ow.decodings && OutcomeOf(img, ow, x.source).Good?
    && MadeByOne(ow, x, OutcomeOf(img, ow, x.source).actions)
  }

  ghost predicate AllMade<S>(img: Image<S>, ow: Owner<S>) {
    forall i | 0 <= i < |ow.xrefs| :: IsMade(img, ow, ow.xrefs[i])
  }

  /** Who made an xref does not change as the owner grows. */
  lemma MadeStays<S>(a: Owner<S>, b: Owner<S>, x: XRef, y: XRef, actions: seq<Action<S>>)
    requires Extends(a, b) && SameXRef(x, y) && MadeByOne(a, x, actions)
    ensures MadeByOne(b, y, actions)
  {
    var k :| 0 <= k < |actions| && MadeBy(a, x, actions[k]);
    assert MadeBy(b, y, actions[k]);
  }

  lemma IsMadeStays<S>(img: Image<S>, a: Owner<S>, b: Owner<S>, x: XRef, y: XRef)
    requires Extends(a, b) && SameXRef(x, y) && IsMade(img, a, x)
    ensures IsMade(img, b, y)
  {
    MadeStays(a, b, x, y, OutcomeOf(img, a, x.source).actions);
    hide MadeByOne;
  }

  lemma MadeGrows<S>(img: Image<S>, a: Owner<S>, b: Owner<S>)
    requires Extends(a, b) && AllMade(img, a)
    requires forall i | |a.xrefs| <= i < |b.xrefs| :: IsMade(img, b, b.xrefs[i])
    ensures AllMade(img, b)
  {
    forall i | 0 <= i < |b.xrefs|
      ensures IsMade(img, b, b.xrefs[i])
    {
      if i < |a.xrefs| {
        IsMadeStays(img, a, b, a.xrefs[i], b.xrefs[i]);
      }
    }
  }

  // ------------------------------------------------------------------ one action

  /** What is new after an action: xrefs that it makes, and the route that it leads to. */
  ghost predicate Makes<S>(s: State<S>, r: State<S>, source: nat, actions: seq<Action<S>>) {
    && |s.owner.xrefs| <= |r.owner.xrefs|
    && forall i | |s.owner.xrefs| <= i < |r.owner.xrefs| ::
         r.owner.xrefs[i].source == source && MadeByOne(r.owner, r.owner.xrefs[i], actions)
  }

  ghost predicate Leads<S>(s: State<S>, r: State<S>, actions: seq<Action<S>>) {
    forall k | 0 <= k < |r.stack| ::
      || (k < |s.stack| && r.stack[k] == s.stack[k])
      || Jump(r.stack[k].start, r.stack[k].entry) in actions || TakeAddress(r.stack[k].start, r.stack[k].entry) in actions
  }

  lemma NewXRef<S>(ow: Owner<S>, x: XRef, action: Action<S>)
    requires x.source in ow.slots && HasTarget(ow, x.target) && MadeBy(ow, x, action)
    ensures var r := CreateXRef(ow, x); r.xrefs == ow.xrefs + [x] && MadeBy(r, x, action)
  {
    CreateXRefIsQuiet(ow, x);
    hide CreateXRef;
  }

  lemma NewOutside<S>(ow: Owner<S>, entry: OutsideEntry, x: XRef, action: Action<S>)
    requires x.source in ow.slots && x.target == Outside(|ow.outside|)
    requires MadeBy(ow.(outside := ow.outside + [entry]), x, action)
    ensures var r := AddOutside(ow, entry, x); r.xrefs == ow.xrefs + [x] && MadeBy(r, x, action)
  {
    NewXRef(ow.(outside := ow.outside + [entry]), x, action);
  }

  lemma OneMakes<S>(s: State<S>, r: State<S>, x: XRef, action: Action<S>)
    requires r.owner.xrefs == s.owner.xrefs + [x] && MadeBy(r.owner, x, action)
    ensures Makes(s, r, x.source, [action])
  {
    assert [action][0] == action;
  }

  lemma SaveNewRouteMakes<S>(img: Image<S>, s: State<S>, source: nat, target: nat, entry: S, questionable: bool,
                             addressTaken: bool)
    requires source in s.owner.slots
    ensures var action := if addressTaken then TakeAddress(target, entry) else Jump(target, entry);
            var r := SaveNewRoute(img, s, source, target, entry, questionable, addressTaken);
            Makes(s, r, source, [action]) && Leads(s, r, [action])
  {
    hide CreateXRef, AddOutside, Makes;
    var action := if addressTaken then TakeAddress(target, entry) else Jump(target, entry);
    var r := SaveNewRoute(img, s, source, target, entry, questionable, addressTaken);
    if r == s {
      NothingMakes(s, source, [action]);
    } else if r == s.(owner := SaveDataXRef(s.owner, source, target, addressTaken)) && addressTaken {
      DataMakes(s, s.owner, source, target, true, action);
    } else {
      var a := Enqueue(s, target, entry, questionable);
      var x := XRef(source, Code(target), false, false, false, addressTaken);
      NewXRef(a.owner, x, action);
      OneMakes(s, r, x, action);
    }
  }

  lemma NothingMakes<S>(s: State<S>, source: nat, actions: seq<Action<S>>)
    ensures Makes(s, s, source, actions) && Leads(s, s, actions)
  {
  }

  lemma DataMakes<S>(s: State<S>, ow: Owner<S>, source: nat, target: nat, addressTaken: bool, action: Action<S>)
    requires source in ow.slots && ow.xrefs == s.owner.xrefs
    requires match action
             case TakeAddress(t, _) => t == target && addressTaken
             case TakeDataAddress(t) => t == target && addressTaken
             case ReadData(t) => t == target && !addressTaken
             case _ => false
    ensures var r := s.(owner := SaveDataXRef(ow, source, target, addressTaken));
            Makes(s, r, source, [action]) && Leads(s, r, [action])
  {
    hide Makes, AddOutside;
    var x := XRef(source, Outside(|ow.outside|), false, false, true, addressTaken);
    NewOutside(ow, OutsideEntry(target, false, true, []), x, action);
    OneMakes(s, s.(owner := SaveDataXRef(ow, source, target, addressTaken)), x, action);
  }

  lemma ExternalMakes<S>(img: Image<S>, s: State<S>, source: nat, action: Action<S>)
    requires source in s.owner.slots && action.External?
    ensures Makes(s, Act(img, s, source, action), source, [action]) && Leads(s, Act(img, s, source, action), [action])
  {
    hide Makes, AddOutside;
    if IsSkippedExternal(img, action.address) {
      NothingMakes(s, source, [action]);
    } else {
      var x := XRef(source, Outside(|s.owner.outside|), false, true, action.data, action.addressTaken);
      NewOutside(s.owner, OutsideEntry(action.address, true, action.linksToData, []), x, action);
      OneMakes(s, Act(img, s, source, action), x, action);
    }
  }

  lemma {:induction false} MarkDataMakesNothing<S>(ow: Owner<S>, o: nat, end: nat, elements: nat)
    ensures MarkDataFrom(ow, o, end, elements).xrefs == ow.xrefs
    decreases end - o
  {
    if o < end {
      MarkDataMakesNothing(if o in ow.slots then ow else DataSlot(ow, o, elements), o + 2, end, elements);
    }
  }

  lemma ActMakes<S>(img: Image<S>, s: State<S>, source: nat, action: Action<S>)
    requires source in s.owner.slots
    ensures var r := Act(img, s, source, action); Makes(s, r, source, [action]) && Leads(s, r, [action])
  {
    hide Makes, SaveNewRoute, SaveDataXRef, Leads, SaveNewExternalRoute, MarkDataFrom;
    match action
    case Jump(target, entry) => SaveNewRouteMakes(img, s, source, target, entry, s.route.questionable, false);
    case TakeAddress(target, entry) => SaveNewRouteMakes(img, s, source, target, entry, true, true);
    case TakeDataAddress(target) => DataMakes(s, s.owner, source, target, true, action);
    case ReadData(target) =>
      var a := if IsPendingData(img, s.owner, target) then Invalidate(s.owner, target) else s.owner;
      DataMakes(s, a, source, target, false, action);
    case External(_, _, _, _) => ExternalMakes(img, s, source, action);
    case MarkData(target, size, elements) => MarkDataMakes(img, s, source, action);
  }

  lemma MarkDataMakes<S>(img: Image<S>, s: State<S>, source: nat, action: Action<S>)
    requires source in s.owner.slots && action.MarkData?
    ensures Makes(s, Act(img, s, source, action), source, [action]) && Leads(s, Act(img, s, source, action), [action])
  {
    var odd := (img.imageBase + action.target) % 2;
    if !(img.maxOffset <= action.target || action.target < odd) {
      MarkDataMakesNothing(s.owner, action.target - odd, DataEnd(img, action.target, action.size), action.elements);
    }
  }

  // ------------------------------------------------------------------ all actions of an instruction

  lemma MakesCompose<S>(a: State<S>, b: State<S>, c: State<S>, source: nat, first: Action<S>, rest: seq<Action<S>>)
    requires Makes(a, b, source, [first]) && Makes(b, c, source, rest) && Extends(b.owner, c.owner)
    requires Leads(a, b, [first]) && Leads(b, c, rest)
    ensures Makes(a, c, source, [first] + rest) && Leads(a, c, [first] + rest)
  {
    var all := [first] + rest;
    assert forall x | x in rest || x == first :: x in all;
    forall i | |a.owner.xrefs| <= i < |c.owner.xrefs|
      ensures c.owner.xrefs[i].source == source && MadeByOne(c.owner, c.owner.xrefs[i], all)
    {
      if i < |b.owner.xrefs| {
        MadeStays(b.owner, c.owner, b.owner.xrefs[i], c.owner.xrefs[i], [first]);
        assert MadeBy(c.owner, c.owner.xrefs[i], all[0]);
      } else {
        var k :| 0 <= k < |rest| && MadeBy(c.owner, c.owner.xrefs[i], rest[k]);
        assert MadeBy(c.owner, c.owner.xrefs[i], all[k + 1]);
      }
    }
  }

  lemma {:induction false} ActAllMakes<S>(img: Image<S>, s: State<S>, source: nat, actions: seq<Action<S>>)
    requires Core(img, s) && CanRefer(s, source) && !Fresh(s)
    ensures var r := ActAll(img, s, source, actions); Makes(s, r, source, actions) && Leads(s, r, actions)
    decreases |actions|
  {
    hide Core, Act, Makes, Leads, ActionDone;
    if |actions| == 0 {
      NothingMakes(s, source, actions);
    } else {
      var first, rest := actions[0], actions[1..];
      var a := Act(img, s, source, first);
      ActKeeps(img, s, source, first);
      ActMakes(img, s, source, first);
      ActAllMakes(img, a, source, rest);
      ActAllKeeps(img, a, source, rest);
      MakesCompose(s, a, ActAll(img, a, source, rest), source, first, rest);
      assert actions == [first] + rest;
    }
  }

  // ------------------------------------------------------------------ the invariant

  ghost predicate Origin<S(!new)>(img: Image<S>, p: (nat, S) -> bool, s: State<S>) {
    Traced(img, p, s) && AllMade(img, s.owner)
  }

  lemma ConstructOrigin<S(!new)>(img: Image<S>, p: (nat, S) -> bool, s: State<S>, out: Outcome<S>)
    requires HandedOn(img, p) && Origin(img, p, s) && Constructed(img, s) && CanDecode(img, s)
    requires out == img.decode(s.offset, s.track, IsStrict(s)) && out.Good?
    ensures Origin(img, p, Construct(img, s, out))
  {
    hide Constructed, Decode, ActAll, Construct, Core, Referenced, Flows, Routes, OwnerInv, Sized, CanDecode, Makes, Leads,
         IsMade, AllMade, ActionsDone;
    var d := Decode(s, out.size, out.info, out.stops, out.next);
    Parts(img, s);
    DecodeCore(img, s, out.size, out.info, out.stops, out.next);
    DecodeMoves(s, out);
    ConstructIs(img, s, out);
    ActAllKeeps(img, d, s.offset, out.actions);
    ActAllMakes(img, d, s.offset, out.actions);
    var r := ActAll(img, d, s.offset, out.actions);
    assert HandsOn(img, p, s.offset, s.track, IsStrict(s));
    LeadsTraced(img, p, d, r, out.actions);
    MadeGrows(img, s.owner, d.owner);
    MakesMade(img, d, r, s.offset, out.actions);
  }

  lemma DecodeMoves<S>(s: State<S>, out: Outcome<S>)
    requires out.Good?
    ensures var d := Decode(s, out.size, out.info, out.stops, out.next);
            d.stack == s.stack && d.offset == s.offset + out.size && d.track == out.next && d.owner.xrefs == s.owner.xrefs
  {
  }

  lemma LeadsTraced<S(!new)>(img: Image<S>, p: (nat, S) -> bool, s: State<S>, r: State<S>, actions: seq<Action<S>>)
    requires Traced(img, p, s) && Leads(s, r, actions) && forall a | a in actions :: Enters(img, p, a)
    requires r.owner.decodings == s.owner.decodings && r.offset == s.offset && r.track == s.track
    ensures Traced(img, p, r)
  {
    hide Resumes;
    forall k | 0 <= k < |r.stack|
      ensures Resumes(img, p, r.stack[k].start, r.stack[k].entry)
    {
      var jump, take := Jump(r.stack[k].start, r.stack[k].entry), TakeAddress(r.stack[k].start, r.stack[k].entry);
      assert jump in actions ==> Enters(img, p, jump);
      assert take in actions ==> Enters(img, p, take);
    }
  }

  lemma MakesMade<S>(img: Image<S>, s: State<S>, r: State<S>, source: nat, actions: seq<Action<S>>)
    requires Makes(s, r, source, actions) && AllMade(img, s.owner) && Extends(s.owner, r.owner)
    requires source in r.owner.decodings && OutcomeOf(img, r.owner, source).Good?
    requires OutcomeOf(img, r.owner, source).actions == actions
    ensures AllMade(img, r.owner)
  {
    hide MadeByOne, Extends;
    MadeGrows(img, s.owner, r.owner);
  }

  // ------------------------------------------------------------------ rollback

  /** What a rollback keeps of an address taken is made by the same action. */
  lemma KeptIsMade<S>(img: Image<S>, ow: Owner<S>, id: nat)
    requires Linked(ow) && AllMade(img, ow) && id < |ow.xrefs| && ow.xrefs[id].target.Code?
    ensures ow.xrefs[id].source in ow.slots && HasTarget(ow, ow.xrefs[id].target) && AllMade(img, KeepOne(ow, id))
  {
    hide Linked, SaveDataXRef, Extends, Conserved, MadeByOne, Quiet;
    ListedAt(ow, id);
    var x := ow.xrefs[id];
    assert IsMade(img, ow, x);
    if IsKept(ow, id) {
      var offset := TargetOffset(ow, x.target);
      var r := SaveDataXRef(ow, x.source, offset, true);
      KeptIsAlive(ow, id);
      SaveDataXRefAppends(ow, x.source, offset, true);
      AppendsExtend(ow, r);
      KeptActionMakes(ow, r, x, r.xrefs[|ow.xrefs|], OutcomeOf(img, ow, x.source).actions);
      MadeGrows(img, ow, r);
    }
  }

  lemma KeptIsAlive<S>(ow: Owner<S>, id: nat)
    requires Linked(ow) && id < |ow.xrefs| && ow.xrefs[id].source in ow.slots && IsKept(ow, id)
    ensures ow.xrefs[id].source in ow.decodings && !ow.slots[ow.xrefs[id].source].invalid
  {
  }

  lemma AppendsExtend<S>(a: Owner<S>, b: Owner<S>)
    requires Appends(a, b)
    ensures Extends(a, b) && a.decodings == b.decodings && |a.xrefs| <= |b.xrefs| && a.xrefs == b.xrefs[..|a.xrefs|]
  {
  }

  lemma KeptActionMakes<S>(ow: Owner<S>, r: Owner<S>, x: XRef, y: XRef, actions: seq<Action<S>>)
    requires MadeByOne(ow, x, actions) && x.target.Code? && x.addressTaken && IsDataAt(r, y, x.target.offset, true)
    ensures MadeByOne(r, y, actions)
  {
    var k :| 0 <= k < |actions| && MadeBy(ow, x, actions[k]);
    assert MadeBy(r, y, actions[k]);
  }

  lemma {:induction false} KeepIdsMade<S>(img: Image<S>, ow: Owner<S>, ids: seq<nat>)
    requires Linked(ow) && InRange(ow) && AllMade(img, ow)
    requires forall i | i in ids :: i < |ow.xrefs| && ow.xrefs[i].target.Code?
    ensures AllMade(img, KeepIds(ow, ids))
    decreases |ids|
  {
    hide Linked, AllMade, KeepOne, Appends, InRange, Kept;
    if |ids| != 0 {
      var id, rest := ids[0], ids[1..];
      assert id in ids && forall k | k in rest :: k in ids;
      KeptIsMade(img, ow, id);
      KeepOneKeeps(ow, id);
      var a := KeepOne(ow, id);
      LinkedIsInRange(a);
      AppendsExtend(ow, a);
      forall k | k in rest
        ensures k < |a.xrefs| && a.xrefs[k].target.Code?
      {
        assert a.xrefs[k] == ow.xrefs[k];
      }
      KeepIdsMade(img, a, rest);
    }
  }

  lemma ListedIsCode<S>(ow: Owner<S>, v: nat)
    requires Linked(ow) && v in ow.slots
    ensures forall i | i in ow.slots[v].refsTo :: i < |ow.xrefs| && ow.xrefs[i].target == Code(v)
  {
    assert HasTarget(ow, Code(v)) && RefsTo(ow, Code(v)) == ow.slots[v].refsTo;
    assert ListsTo(RefsTo(ow, Code(v)), ow.xrefs, Code(v));
  }

  lemma {:induction false} KeepAllMade<S>(img: Image<S>, ow: Owner<S>, victims: seq<nat>)
    requires Linked(ow) && InRange(ow) && AllMade(img, ow) && forall v | v in victims :: v in ow.slots
    ensures AllMade(img, KeepAll(ow, victims))
    decreases |victims|
  {
    if |victims| != 0 {
      var v, rest := victims[0], victims[1..];
      assert v in victims && forall w | w in rest :: w in victims;
      ListedIsCode(ow, v);
      KeepIdsMade(img, ow, ow.slots[v].refsTo);
      KeepIdsKeeps(ow, ow.slots[v].refsTo);
      hide Linked, AllMade, KeepIds, Kept, Appends;
      KeepAllMade(img, KeepIds(ow, ow.slots[v].refsTo), rest);
    }
  }

  lemma MarkedMade<S>(img: Image<S>, ow: Owner<S>, victims: seq<nat>, m: Owner<S>)
    requires AllMade(img, ow) && Marked(ow, victims, m)
    ensures AllMade(img, m)
  {
    assert Extends(ow, m);
    hide Marked;
    MadeGrows(img, ow, m);
  }

  lemma RollbackOrigin<S(!new)>(img: Image<S>, p: (nat, S) -> bool, s: State<S>)
    requires OwnerInv(s.owner) && Sane(s) && Origin(img, p, s)
    ensures Origin(img, p, EndRoute(s, true))
  {
    var ow, victims := s.owner, Victims(s);
    var m := MarkAll(ow, victims);
    MarkAllMarks(ow, victims);
    RollbackKeeps(s);
    MarkedMade(img, ow, victims, m);
    LinkedIsInRange(m);
    KeepAllMade(img, m, victims);
    hide OwnerInv, AllMade, MarkAll, KeepAll;
    assert EndRoute(s, true).owner.decodings == s.owner.decodings;
  }

  // ------------------------------------------------------------------ the main loop

  lemma FinishOrigin<S(!new)>(img: Image<S>, p: (nat, S) -> bool, s: State<S>, stops: bool)
    requires OwnerInv(s.owner) && Sane(s) && Origin(img, p, s)
    ensures Origin(img, p, Finish(img, s, stops))
  {
    hide OwnerInv, Sane, Rollback, AllMade;
    RollbackOrigin(img, p, s);
  }

  lemma ProcessOrigin<S(!new)>(img: Image<S>, p: (nat, S) -> bool, s: State<S>)
    requires HandedOn(img, p) && Inv(img, s) && !s.needReset && s.offset < img.maxOffset && Origin(img, p, s)
    ensures Sane(s) && Origin(img, p, Process(img, s))
  {
    Parts(img, s);
    hide *;
    RollbackOrigin(img, p, s);
    EndOrigin(img, p, s);
    ProcessCases(img, s);
    var r := Process(img, s);
    var out := img.decode(s.offset, s.track, IsStrict(s));
    if out.Good? && CanDecode(img, s) && r != EndRoute(s, true) && r != EndRoute(s, false) {
      ConstructOrigin(img, p, s, out);
      ConstructKeeps(img, s, out);
      Parts(img, Construct(img, s, out));
      FinishOrigin(img, p, Construct(img, s, out), out.stops);
    } else if out.Bad? && r != EndRoute(s, true) && r != EndRoute(s, false) {
      SkipOrigin(img, p, s, out);
    }
  }

  /** What Process does, with where it goes on after a word that is no instruction. */
  lemma ProcessCases<S>(img: Image<S>, s: State<S>)
    requires Sane(s) && !s.needReset && s.offset < img.maxOffset
    ensures var out := img.decode(s.offset, s.track, IsStrict(s));
            var r := Process(img, s);
            || r == EndRoute(s, true) || r == EndRoute(s, false)
            || (out.Bad? && r == s.(offset := s.offset + RouteAlignment(img, s.track), track := out.next))
            || (CanDecode(img, s) && out.Good? && Sane(Construct(img, s, out))
                && r == Finish(img, Construct(img, s, out), out.stops))
  {
    var out := img.decode(s.offset, s.track, IsStrict(s));
    if out.Good? {
      ConstructIsSane(img, s, out);
    }
    hide EndRoute, Construct, Finish, Sane, IsAligned;
  }

  lemma SkipOrigin<S(!new)>(img: Image<S>, p: (nat, S) -> bool, s: State<S>, out: Outcome<S>)
    requires HandedOn(img, p) && Origin(img, p, s) && out == img.decode(s.offset, s.track, IsStrict(s)) && out.Bad?
    ensures Origin(img, p, s.(offset := s.offset + RouteAlignment(img, s.track), track := out.next))
  {
    hide AllMade, Resumes;
    assert HandsOn(img, p, s.offset, s.track, IsStrict(s));
  }

  lemma EndOrigin<S(!new)>(img: Image<S>, p: (nat, S) -> bool, s: State<S>)
    requires Sane(s) && Origin(img, p, s)
    ensures Origin(img, p, EndRoute(s, false))
  {
    hide AllMade, Resumes;
  }

  lemma StepOrigin<S(!new)>(img: Image<S>, p: (nat, S) -> bool, s: State<S>)
    requires HandedOn(img, p) && Inv(img, s) && !IsDone(img, s) && Origin(img, p, s)
    ensures Sane(s) && Origin(img, p, Step(img, s))
  {
    Parts(img, s);
    hide Inv, Process, Sane, Origin, Constructed, Core, Referenced, Flows, Routes, OwnerInv, Sized, Provenance, HandedOn;
    if RouteEnded(img, s) {
      PopInv(img, s);
      PopOrigin(img, p, s);
      ProcessOrigin(img, p, Pop(img, s));
    } else {
      ProcessOrigin(img, p, s);
    }
  }

  lemma PopOrigin<S(!new)>(img: Image<S>, p: (nat, S) -> bool, s: State<S>)
    requires Origin(img, p, s) && s.stack != []
    ensures Origin(img, p, Pop(img, s)) && !Pop(img, s).needReset
  {
    hide AllMade;
    var top := s.stack[|s.stack| - 1];
    assert Resumes(img, p, top.start, top.entry) && Holds(p, s.offset, s.track);
  }

  lemma {:induction false} RunOrigin<S(!new)>(img: Image<S>, p: (nat, S) -> bool, s: State<S>)
    requires HandedOn(img, p) && Inv(img, s) && Origin(img, p, s)
    ensures Sane(s) && Origin(img, p, Run(img, s))
    decreases |Absent(img, s)|, |s.stack|, Left(img, s)
  {
    hide Inv, Step, Sane, Origin, HandedOn, Core, Run;
    if IsDone(img, s) {
      InvIsSane(img, s);
      RunEnds(img, s);
    } else {
      RunsOn(img, s);
      StepOrigin(img, p, s);
      StepIsSmaller(img, s);
      RunOrigin(img, p, Step(img, s));
    }
  }
}
