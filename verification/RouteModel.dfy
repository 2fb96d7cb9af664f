/** The route analyzer as a transition system (diana_analyze.c).

    One analysis works on an owner (the presence table, the xrefs and the external list), a stack
    of routes that still have to be walked, and the route it walks now.  `Step` is one iteration of
    the main loop and `Run` the whole loop.

    `S` is the state a route carries from one instruction to the next: nothing for x86, the tracked
    registers and the compare bounds for AArch64, those and the A32/T32 mode and ITSTATE for AArch32.
    What of it belongs to the session and not to the route survives the end of a route: `resume`.
    What the decoder and the observer answer is an `Image`: all of it is a function of the offset, of
    that state and of the route being strict. */
module RouteModel {

  type positive = n: int | 0 < n witness 1

  /** A reference an instruction makes, after the observer has classified its address. */
  datatype Action<S> =
    | Jump(target: nat, entry: S)                // a branch: questionable if its source is
    | TakeAddress(target: nat, entry: S)         // an address taken: a questionable route
    | TakeDataAddress(target: nat)               // an address taken that is known to be data
    | ReadData(target: nat)                      // memory that is read or written
    | External(address: nat, linksToData: bool, data: bool, addressTaken: bool)
    | MarkData(target: nat, size: nat, elements: nat) // AArch32: literals and tables after the code

  /** A decoded word; `stops` says that nothing falls through to the next instruction. */
  datatype Outcome<S> =
    | Bad(next: S)
    | Good(size: positive, info: nat, actions: seq<Action<S>>, stops: bool, next: S)

  datatype Image<!S> = Image(
    isArm: bool,
    mode32: bool,
    minimalExternal: nat,
    imageBase: nat,
    maxOffset: nat,
    maxSize: nat,                                // the size of the presence table and of the pool
    align: S -> positive,
    resume: (S, S) -> S,                         // the state of the session, then the state of the popped route
    decode: (nat, S, bool) -> Outcome<S>)

  /** An entry of the presence table.  `info` holds the flags that only describe the instruction. */
  datatype Instruction = Instruction(
    loading: bool, invalid: bool, root: bool, data: bool, info: nat,
    refsFrom: seq<nat>, refsTo: seq<nat>)

  datatype Target = Code(offset: nat) | Outside(index: nat)

  datatype XRef = XRef(
    source: nat, target: Target,
    invalid: bool, external: bool, data: bool, addressTaken: bool)

  /** An entry of m_externalInstructionsList. */
  datatype OutsideEntry = OutsideEntry(offset: nat, external: bool, data: bool, refsTo: seq<nat>)

  /** How an instruction was decoded.  The program does not store it: it is what the results are about. */
  datatype Decoding<S> = Decoding(track: S, strict: bool, questionable: bool)

  datatype Owner<S> = Owner(
    slots: map<nat, Instruction>,
    xrefs: seq<XRef>,
    outside: seq<OutsideEntry>,
    usedSize: nat,
    actualSize: int,
    decodings: map<nat, Decoding<S>>)

  datatype Route<S> = Route(start: nat, questionable: bool, entry: S)

  /** A call of Diana_AnalyzeCodeEx2: AArch32 code is A32 or T32 from call to call. */
  datatype Seed<S> = Seed(offset: nat, entry: S, breakOnInvalid: bool)

  datatype State<S> = State(
    owner: Owner<S>,
    breakOnInvalid: bool,
    stack: seq<Route<S>>,
    route: Route<S>,
    added: seq<nat>,                             // the instruction list of the current route
    offset: nat,
    track: S,
    needReset: bool)

  // ------------------------------------------------------------------ the owner

  /** Every index the owner stores is in range. */
  ghost predicate InRange<S>(ow: Owner<S>) {
    && (forall i | 0 <= i < |ow.xrefs| :: ow.xrefs[i].source in ow.slots && HasTarget(ow, ow.xrefs[i].target))
    && (forall o, i | o in ow.slots && i in ow.slots[o].refsTo :: i < |ow.xrefs|)
  }

  predicate HasTarget<S>(ow: Owner<S>, target: Target) {
    match target
    case Code(o) => o in ow.slots
    case Outside(i) => i < |ow.outside|
  }

  function TargetOffset<S>(ow: Owner<S>, target: Target): nat
    requires HasTarget(ow, target)
  {
    match target
    case Code(o) => o
    case Outside(i) => ow.outside[i].offset
  }

  function EmptyOwner<S>(): Owner<S> {
    Owner(map[], [], [], 0, 0, map[])
  }

  function NewInstruction(loading: bool, invalid: bool, data: bool, info: nat): Instruction {
    Instruction(loading, invalid, false, data, info, [], [])
  }

  /** Diana_InstructionsOwner_QueryOrAllocateInstruction, when the pool has room. */
  function QueryOrAllocate<S>(ow: Owner<S>, o: nat, entry: Instruction): Owner<S> {
    if o in ow.slots then ow
    else ow.(slots := ow.slots[o := entry], usedSize := ow.usedSize + 1, actualSize := ow.actualSize + 1)
  }

  function AddRefTo<S>(ow: Owner<S>, target: Target, id: nat): Owner<S>
    requires HasTarget(ow, target)
  {
    match target
    case Code(o) => ow.(slots := ow.slots[o := ow.slots[o].(refsTo := ow.slots[o].refsTo + [id])])
    case Outside(i) => ow.(outside := ow.outside[i := ow.outside[i].(refsTo := ow.outside[i].refsTo + [id])])
  }

  function AddRefFrom<S>(ow: Owner<S>, o: nat, id: nat): Owner<S>
    requires o in ow.slots
  {
    ow.(slots := ow.slots[o := ow.slots[o].(refsFrom := ow.slots[o].refsFrom + [id])])
  }

  /** Diana_CreateXRef with the flags its callers set. */
  function CreateXRef<S>(ow: Owner<S>, x: XRef): Owner<S>
    requires x.source in ow.slots && HasTarget(ow, x.target)
  {
    var id := |ow.xrefs|;
    AddRefFrom(AddRefTo(ow.(xrefs := ow.xrefs + [x]), x.target, id), x.source, id)
  }

  function AddOutside<S>(ow: Owner<S>, entry: OutsideEntry, x: XRef): Owner<S>
    requires x.source in ow.slots && x.target == Outside(|ow.outside|)
  {
    CreateXRef(ow.(outside := ow.outside + [entry]), x)
  }

  function SaveDataXRef<S>(ow: Owner<S>, source: nat, offset: nat, addressTaken: bool): Owner<S>
    requires source in ow.slots
  {
    AddOutside(ow, OutsideEntry(offset, false, true, []),
               XRef(source, Outside(|ow.outside|), false, false, true, addressTaken))
  }

  predicate IsSkippedExternal<S>(img: Image<S>, address: nat) {
    || (img.minimalExternal != 0 && address < img.minimalExternal)
    || (img.mode32 && 0xFFFF_FFFF <= address)
  }

  function SaveNewExternalRoute<S>(img: Image<S>, ow: Owner<S>, source: nat, address: nat,
                                   linksToData: bool, data: bool, addressTaken: bool): Owner<S>
    requires source in ow.slots
  {
    if IsSkippedExternal(img, address) then ow
    else AddOutside(ow, OutsideEntry(address, true, linksToData, []),
                    XRef(source, Outside(|ow.outside|), false, true, data, addressTaken))
  }

  // ------------------------------------------------------------------ the references of an instruction

  predicate IsAligned<S>(img: Image<S>, offset: nat, track: S) {
    img.isArm ==> (img.imageBase + offset) % img.align(track) == 0
  }

  /** The entry of a route target: made loading when there is none, a root when the route is not questionable. */
  function Targeted<S>(ow: Owner<S>, target: nat, questionable: bool): Owner<S> {
    var a := QueryOrAllocate(ow, target, NewInstruction(true, false, false, 0));
    if questionable then a else a.(slots := a.slots[target := a.slots[target].(root := true)])
  }

  /** A route is pushed only when its entry is made. */
  function Enqueue<S>(s: State<S>, target: nat, entry: S, questionable: bool): State<S> {
    s.(owner := Targeted(s.owner, target, questionable),
       stack := if target in s.owner.slots then s.stack else s.stack + [Route(target, questionable, entry)])
  }

  function SaveNewRoute<S>(img: Image<S>, s: State<S>, source: nat, target: nat, entry: S,
                           questionable: bool, addressTaken: bool): State<S>
    requires source in s.owner.slots
  {
    if img.maxOffset <= target then s
    else if !IsAligned(img, target, entry) then
      if addressTaken then s.(owner := SaveDataXRef(s.owner, source, target, addressTaken)) else s
    else if target in s.owner.slots && s.owner.slots[target].invalid && addressTaken then
      s.(owner := SaveDataXRef(s.owner, source, target, addressTaken))
    else
      var a := Enqueue(s, target, entry, questionable);
      a.(owner := CreateXRef(a.owner, XRef(source, Code(target), false, false, false, addressTaken)))
  }

  /** A queued questionable start that is read as data: only on ARM, where it is marked invalid at once. */
  predicate IsPendingData<S>(img: Image<S>, ow: Owner<S>, offset: nat) {
    && img.isArm && offset < img.maxOffset && offset in ow.slots
    && ow.slots[offset].loading && !ow.slots[offset].root
  }

  function Invalidate<S>(ow: Owner<S>, o: nat): Owner<S>
    requires o in ow.slots
  {
    ow.(slots := ow.slots[o := ow.slots[o].(invalid := true)])
  }

  function SaveDataAccess<S>(img: Image<S>, s: State<S>, source: nat, offset: nat): State<S>
    requires source in s.owner.slots
  {
    var a := if IsPendingData(img, s.owner, offset) then Invalidate(s.owner, offset) else s.owner;
    s.(owner := SaveDataXRef(a, source, offset, false))
  }

  function DataEnd<S>(img: Image<S>, target: nat, size: nat): nat {
    if img.maxOffset < target + size then img.maxOffset else target + size
  }

  /** An entry that is known to be data: counted by m_usedSize only. */
  function DataSlot<S>(ow: Owner<S>, o: nat, elements: nat): Owner<S> {
    var a := QueryOrAllocate(ow, o, NewInstruction(false, true, true, elements));
    a.(actualSize := a.actualSize - 1)
  }

  function MarkDataFrom<S>(ow: Owner<S>, o: nat, end: nat, elements: nat): Owner<S>
    decreases end - o
  {
    if end <= o then ow
    else if o in ow.slots then MarkDataFrom(ow, o + 2, end, elements)
    else MarkDataFrom(DataSlot(ow, o, elements), o + 2, end, elements)
  }

  /** MarkArm32Data.  At an odd image base, offset 0 rounds down to 2^64 - 1: nothing is marked. */
  function MarkArm32Data<S>(img: Image<S>, ow: Owner<S>, target: nat, size: nat, elements: nat): Owner<S> {
    var odd := (img.imageBase + target) % 2;
    if img.maxOffset <= target || target < odd then ow
    else MarkDataFrom(ow, target - odd, DataEnd(img, target, size), elements)
  }

  function Act<S>(img: Image<S>, s: State<S>, source: nat, action: Action<S>): State<S>
    requires source in s.owner.slots
  {
    match action
    case Jump(target, entry) => SaveNewRoute(img, s, source, target, entry, s.route.questionable, false)
    case TakeAddress(target, entry) => SaveNewRoute(img, s, source, target, entry, true, true)
    case TakeDataAddress(target) => s.(owner := SaveDataXRef(s.owner, source, target, true))
    case ReadData(target) => SaveDataAccess(img, s, source, target)
    case External(address, linksToData, data, addressTaken) =>
      s.(owner := SaveNewExternalRoute(img, s.owner, source, address, linksToData, data, addressTaken))
    case MarkData(target, size, elements) =>
      s.(owner := MarkArm32Data(img, s.owner, target, size, elements))
  }

  lemma {:induction false} MarkDataKeepsSlots<S>(ow: Owner<S>, o: nat, end: nat, elements: nat)
    ensures forall p | p in ow.slots :: p in MarkDataFrom(ow, o, end, elements).slots
    ensures forall p | p in MarkDataFrom(ow, o, end, elements).slots :: p in ow.slots || p < end
    decreases end - o
  {
    if o < end {
      if o in ow.slots {
        MarkDataKeepsSlots(ow, o + 2, end, elements);
      } else {
        MarkDataKeepsSlots(DataSlot(ow, o, elements), o + 2, end, elements);
      }
    }
  }

  lemma ActKeepsSlots<S>(img: Image<S>, s: State<S>, source: nat, action: Action<S>)
    requires source in s.owner.slots
    ensures forall p | p in s.owner.slots :: p in Act(img, s, source, action).owner.slots
    ensures forall p | p in Act(img, s, source, action).owner.slots :: p in s.owner.slots || p < img.maxOffset
  {
    hide SaveNewRoute, SaveDataXRef, SaveDataAccess, SaveNewExternalRoute, MarkDataFrom;
    match action
    case Jump(target, entry) => SaveNewRouteKeepsSlots(img, s, source, target, entry, s.route.questionable, false);
    case TakeAddress(target, entry) => SaveNewRouteKeepsSlots(img, s, source, target, entry, true, true);
    case TakeDataAddress(target) => DataKeepsSlots(img, s, source, target, true);
    case ReadData(target) => DataKeepsSlots(img, s, source, target, false);
    case External(address, linksToData, data, addressTaken) =>
      ExternalKeepsSlots(img, s.owner, source, address, linksToData, data, addressTaken);
    case MarkData(target, size, elements) =>
      var odd := (img.imageBase + target) % 2;
      if !(img.maxOffset <= target || target < odd) {
        MarkDataKeepsSlots(s.owner, target - odd, DataEnd(img, target, size), elements);
      }
  }

  lemma SaveNewRouteKeepsSlots<S>(img: Image<S>, s: State<S>, source: nat, target: nat, entry: S, questionable: bool,
                                  addressTaken: bool)
    requires source in s.owner.slots
    ensures var r := SaveNewRoute(img, s, source, target, entry, questionable, addressTaken);
            && (forall p | p in s.owner.slots :: p in r.owner.slots)
            && (forall p | p in r.owner.slots :: p in s.owner.slots || p < img.maxOffset)
  {
  }

  lemma DataKeepsSlots<S>(img: Image<S>, s: State<S>, source: nat, target: nat, addressTaken: bool)
    requires source in s.owner.slots
    ensures SaveDataXRef(s.owner, source, target, addressTaken).slots.Keys == s.owner.slots.Keys
    ensures SaveDataAccess(img, s, source, target).owner.slots.Keys == s.owner.slots.Keys
  {
  }

  lemma ExternalKeepsSlots<S>(img: Image<S>, ow: Owner<S>, source: nat, address: nat, linksToData: bool, data: bool,
                              addressTaken: bool)
    requires source in ow.slots
    ensures SaveNewExternalRoute(img, ow, source, address, linksToData, data, addressTaken).slots.Keys == ow.slots.Keys
  {
  }

  function ActAll<S>(img: Image<S>, s: State<S>, source: nat, actions: seq<Action<S>>): State<S>
    requires source in s.owner.slots
    decreases |actions|
  {
    if |actions| == 0 then s
    else
      ActKeepsSlots(img, s, source, actions[0]);
      ActAll(img, Act(img, s, source, actions[0]), source, actions[1..])
  }

  // ------------------------------------------------------------------ rollback

  function MarkXRefs(xs: seq<XRef>, ids: seq<nat>): (r: seq<XRef>) {
    seq(|xs|, k requires 0 <= k < |xs| => if k in ids then xs[k].(invalid := true) else xs[k])
  }

  function RouteMarker<S>(ow: Owner<S>, o: nat): Owner<S>
    requires o in ow.slots
  {
    var i := ow.slots[o];
    ow.(slots := ow.slots[o := i.(invalid := true)],
        xrefs := MarkXRefs(ow.xrefs, i.refsTo + i.refsFrom),
        actualSize := ow.actualSize - 1)
  }

  function MarkAll<S>(ow: Owner<S>, victims: seq<nat>): Owner<S>
    requires forall v | v in victims :: v in ow.slots
    decreases |victims|
  {
    if |victims| == 0 then ow else MarkAll(RouteMarker(ow, victims[0]), victims[1..])
  }

  predicate IsKept<S>(ow: Owner<S>, id: nat)
    requires id < |ow.xrefs| && ow.xrefs[id].source in ow.slots
  {
    var x := ow.xrefs[id];
    x.addressTaken && !x.data && !ow.slots[x.source].invalid
  }

  /** AddressTakenKeeper: the reference stays as a data xref. */
  function KeepOne<S>(ow: Owner<S>, id: nat): Owner<S>
    requires id < |ow.xrefs| && ow.xrefs[id].source in ow.slots && HasTarget(ow, ow.xrefs[id].target)
  {
    var x := ow.xrefs[id];
    if IsKept(ow, id) then SaveDataXRef(ow, x.source, TargetOffset(ow, x.target), true) else ow
  }

  function KeepIds<S>(ow: Owner<S>, ids: seq<nat>): (r: Owner<S>)
    requires InRange(ow) && forall i | i in ids :: i < |ow.xrefs|
    ensures InRange(r) && ow.slots.Keys == r.slots.Keys
    decreases |ids|
  {
    if |ids| == 0 then ow
    else
      assert ids[0] in ids && forall i | i in ids[1..] :: i in ids;
      KeepIds(KeepOne(ow, ids[0]), ids[1..])
  }

  function KeepAll<S>(ow: Owner<S>, victims: seq<nat>): (r: Owner<S>)
    requires InRange(ow) && forall v | v in victims :: v in ow.slots
    ensures InRange(r) && ow.slots.Keys == r.slots.Keys
    decreases |victims|
  {
    if |victims| == 0 then ow else KeepAll(KeepIds(ow, ow.slots[victims[0]].refsTo), victims[1..])
  }

  /** The instructions of the route, and its start when the route failed on it. */
  function Victims<S>(s: State<S>): seq<nat> {
    var start := s.route.start;
    s.added + (if start in s.owner.slots && s.owner.slots[start].loading then [start] else [])
  }

  lemma {:induction false} MarkAllInRange<S>(ow: Owner<S>, victims: seq<nat>)
    requires InRange(ow) && forall v | v in victims :: v in ow.slots
    ensures InRange(MarkAll(ow, victims)) && MarkAll(ow, victims).slots.Keys == ow.slots.Keys
    decreases |victims|
  {
    if |victims| != 0 {
      MarkAllInRange(RouteMarker(ow, victims[0]), victims[1..]);
    }
  }

  function Rollback<S>(s: State<S>): State<S>
    requires InRange(s.owner) && forall v | v in s.added :: v in s.owner.slots
  {
    MarkAllInRange(s.owner, Victims(s));
    s.(owner := KeepAll(MarkAll(s.owner, Victims(s)), Victims(s)))
  }

  // ------------------------------------------------------------------ the main loop

  /** An invalid instruction makes the whole route invalid. */
  predicate IsStrict<S>(s: State<S>) {
    s.route.questionable || s.breakOnInvalid
  }

  /** What Step needs to be defined; the invariant of SessionInvariant implies it. */
  ghost predicate Sane<S>(s: State<S>) {
    InRange(s.owner) && forall o | o in s.added :: o in s.owner.slots
  }

  function EndRoute<S>(s: State<S>, rollback: bool): State<S>
    requires Sane(s)
  {
    (if rollback then Rollback(s) else s).(needReset := true)
  }

  /** The entry of a decoded word: its flags start again from the word's own. */
  function DecodeSlot<S>(ow: Owner<S>, o: nat, info: nat, decoding: Decoding<S>): Owner<S> {
    var a := QueryOrAllocate(ow, o, NewInstruction(false, false, false, 0));
    var i := Instruction(false, false, !decoding.questionable, false, info, a.slots[o].refsFrom, a.slots[o].refsTo);
    a.(slots := a.slots[o := i], decodings := a.decodings[o := decoding])
  }

  /** The word is an instruction of the route: its entry stops loading and it joins the route's list. */
  function Decode<S>(s: State<S>, size: positive, info: nat, stops: bool, next: S): State<S> {
    var o := s.offset;
    s.(owner := DecodeSlot(s.owner, o, info, Decoding(s.track, IsStrict(s), s.route.questionable)),
       added := s.added + [o], offset := o + size, track := next, needReset := stops)
  }

  /** AnalyzeAndConstructInstruction and the tracking after it. */
  function Construct<S>(img: Image<S>, s: State<S>, out: Outcome<S>): State<S>
    requires out.Good?
  {
    ActAll(img, Decode(s, out.size, out.info, out.stops, out.next), s.offset, out.actions)
  }

  /** At the end of the range a strict ARM route without a terminator is rolled back. */
  function Finish<S>(img: Image<S>, s: State<S>, stops: bool): State<S>
    requires Sane(s)
  {
    if img.maxOffset <= s.offset then EndRoute(s, img.isArm && !stops && IsStrict(s)) else s
  }

  function RouteAlignment<S>(img: Image<S>, track: S): positive {
    if img.isArm then img.align(track) else 1
  }

  /** SwitchToLastState. */
  function Pop<S>(img: Image<S>, s: State<S>): State<S>
    requires s.stack != []
  {
    var top := s.stack[|s.stack| - 1];
    s.(stack := s.stack[..|s.stack| - 1], route := top, added := [],
       offset := top.start, track := img.resume(s.track, top.entry), needReset := false)
  }

  function Process<S>(img: Image<S>, s: State<S>): State<S>
    requires Sane(s)
  {
    var o := s.offset;
    if !IsAligned(img, o, s.track) then EndRoute(s, IsStrict(s))
    else
      var out := img.decode(o, s.track, IsStrict(s));
      if out.Bad? then
        if IsStrict(s) then EndRoute(s, true)
        else s.(offset := o + RouteAlignment(img, s.track), track := out.next)
      else if o in s.owner.slots && s.owner.slots[o].invalid then EndRoute(s, s.route.questionable)
      else if o in s.owner.slots && !s.owner.slots[o].loading then EndRoute(s, false)
      else
        ConstructIsSane(img, s, out);
        Finish(img, Construct(img, s, out), out.stops)
  }

  predicate RouteEnded<S>(img: Image<S>, s: State<S>) {
    img.maxOffset <= s.offset || s.needReset
  }

  predicate IsDone<S>(img: Image<S>, s: State<S>) {
    RouteEnded(img, s) && s.stack == []
  }

  function Step<S>(img: Image<S>, s: State<S>): State<S>
    requires Sane(s) && !IsDone(img, s)
  {
    Process(img, if RouteEnded(img, s) then Pop(img, s) else s)
  }

  /** Diana_AnalyzeCodeImpl before the loop: an empty stack and the route of the seed. */
  function Start<S>(ow: Owner<S>, seed: Seed<S>): State<S> {
    State(ow, seed.breakOnInvalid, [], Route(seed.offset, false, seed.entry), [], seed.offset, seed.entry, false)
  }

  // ------------------------------------------------------------------ every index stays in range

  lemma CreateXRefInRange<S>(ow: Owner<S>, x: XRef)
    requires InRange(ow) && x.source in ow.slots && HasTarget(ow, x.target)
    ensures InRange(CreateXRef(ow, x))
  {
  }

  lemma AddOutsideInRange<S>(ow: Owner<S>, entry: OutsideEntry, x: XRef)
    requires InRange(ow) && x.source in ow.slots && x.target == Outside(|ow.outside|)
    ensures InRange(AddOutside(ow, entry, x))
  {
    var a := ow.(outside := ow.outside + [entry]);
    assert InRange(a);
    CreateXRefInRange(a, x);
  }

  lemma {:induction false} MarkDataInRange<S>(ow: Owner<S>, o: nat, end: nat, elements: nat)
    requires InRange(ow)
    ensures InRange(MarkDataFrom(ow, o, end, elements))
    decreases end - o
  {
    if o < end {
      if o in ow.slots {
        MarkDataInRange(ow, o + 2, end, elements);
      } else {
        MarkDataInRange(DataSlot(ow, o, elements), o + 2, end, elements);
      }
    }
  }

  lemma SaveNewRouteInRange<S>(img: Image<S>, s: State<S>, source: nat, target: nat, entry: S,
                               questionable: bool, addressTaken: bool)
    requires InRange(s.owner) && source in s.owner.slots
    ensures InRange(SaveNewRoute(img, s, source, target, entry, questionable, addressTaken).owner)
  {
    AddOutsideInRange(s.owner, OutsideEntry(target, false, true, []),
                      XRef(source, Outside(|s.owner.outside|), false, false, true, true));
    var b := Targeted(s.owner, target, questionable);
    CreateXRefInRange(b, XRef(source, Code(target), false, false, false, addressTaken));
  }

  lemma ActKeepsAdded<S>(img: Image<S>, s: State<S>, source: nat, action: Action<S>)
    requires source in s.owner.slots
    ensures Act(img, s, source, action).added == s.added
  {
    hide AddOutside, CreateXRef, MarkDataFrom, Targeted;
  }

  lemma ActInRange<S>(img: Image<S>, s: State<S>, source: nat, action: Action<S>)
    requires InRange(s.owner) && source in s.owner.slots
    ensures InRange(Act(img, s, source, action).owner)
    ensures Act(img, s, source, action).added == s.added
  {
    ActKeepsAdded(img, s, source, action);
    hide InRange, SaveNewRoute, AddOutside, MarkDataFrom;
    match action
    case Jump(target, entry) => SaveNewRouteInRange(img, s, source, target, entry, s.route.questionable, false);
    case TakeAddress(target, entry) => SaveNewRouteInRange(img, s, source, target, entry, true, true);
    case TakeDataAddress(target) =>
      AddOutsideInRange(s.owner, OutsideEntry(target, false, true, []),
                        XRef(source, Outside(|s.owner.outside|), false, false, true, true));
    case ReadData(target) =>
      InvalidateInRange(s.owner, target);
      var a := if IsPendingData(img, s.owner, target) then Invalidate(s.owner, target) else s.owner;
      AddOutsideInRange(a, OutsideEntry(target, false, true, []), XRef(source, Outside(|a.outside|), false, false, true, false));
    case External(address, linksToData, data, addressTaken) =>
      AddOutsideInRange(s.owner, OutsideEntry(address, true, linksToData, []),
                        XRef(source, Outside(|s.owner.outside|), false, true, data, addressTaken));
    case MarkData(target, size, elements) =>
      var odd := (img.imageBase + target) % 2;
      if !(img.maxOffset <= target || target < odd) {
        MarkDataInRange(s.owner, target - odd, DataEnd(img, target, size), elements);
      }
  }

  lemma InvalidateInRange<S>(ow: Owner<S>, o: nat)
    requires InRange(ow)
    ensures o in ow.slots ==> InRange(Invalidate(ow, o))
  {
  }

  lemma {:induction false} ActAllInRange<S>(img: Image<S>, s: State<S>, source: nat, actions: seq<Action<S>>)
    requires InRange(s.owner) && source in s.owner.slots
    ensures InRange(ActAll(img, s, source, actions).owner)
    ensures ActAll(img, s, source, actions).added == s.added
    ensures forall p | p in s.owner.slots :: p in ActAll(img, s, source, actions).owner.slots
    decreases |actions|
  {
    if |actions| != 0 {
      ActInRange(img, s, source, actions[0]);
      ActKeepsSlots(img, s, source, actions[0]);
      ActAllInRange(img, Act(img, s, source, actions[0]), source, actions[1..]);
    }
  }

  lemma ConstructIsSane<S>(img: Image<S>, s: State<S>, out: Outcome<S>)
    requires Sane(s) && out.Good?
    ensures Sane(Construct(img, s, out))
  {
    var d := Decode(s, out.size, out.info, out.stops, out.next);
    ActAllInRange(img, d, s.offset, out.actions);
  }
}
