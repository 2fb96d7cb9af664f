/** The invariant of the main loop: what waits on the stack, what the counters count, and what
    every decoded instruction leads to. */
module SessionInvariant {
  import opened RouteModel
  import opened OwnerInvariant
  import opened OwnerProofs

  // ------------------------------------------------------------------ the routes

  ghost predicate Queued<S>(s: State<S>, o: nat) {
    exists k | 0 <= k < |s.stack| :: s.stack[k].start == o
  }

  /** The current route has not looked at its first word yet. */
  predicate Fresh<S>(s: State<S>) {
    !s.needReset && s.offset == s.route.start
  }

  ghost predicate Waiting<S>(s: State<S>, o: nat) {
    Queued(s, o) || (Fresh(s) && o == s.route.start)
  }

  /** The entry of a route that has not started: only a questionable one can be known to be data. */
  predicate StartOk<S>(img: Image<S>, ow: Owner<S>, r: Route<S>) {
    && r.start in ow.slots && r.start < img.maxOffset
    && (!r.questionable && ow.slots[r.start].loading ==> ow.slots[r.start].root && !ow.slots[r.start].invalid)
  }

  ghost predicate StackOk<S>(img: Image<S>, s: State<S>) {
    && (forall k | 0 <= k < |s.stack| :: StartOk(img, s.owner, s.stack[k]))
    && (forall j, k | 0 <= j < k < |s.stack| :: s.stack[j].start != s.stack[k].start)
    && (forall o | o in s.owner.slots && s.owner.slots[o].loading && !s.owner.slots[o].root
                   && !s.owner.slots[o].invalid :: Waiting(s, o))
  }

  ghost predicate FreshOk<S>(img: Image<S>, s: State<S>) {
    Fresh(s) ==> !Queued(s, s.route.start) && s.added == []
                 && (s.route.start in s.owner.slots ==> StartOk(img, s.owner, s.route))
  }

  ghost predicate Distinct(os: seq<nat>) {
    forall j, k | 0 <= j < k < |os| :: os[j] != os[k]
  }

  /** The instructions of the current route. */
  ghost predicate AddedOk<S>(s: State<S>) {
    && Distinct(s.added)
    && (forall o | o in s.added ::
          o in s.owner.slots && o in s.owner.decodings
          && s.owner.decodings[o].strict == IsStrict(s)
          && s.owner.decodings[o].questionable == s.route.questionable
          && (!s.needReset ==> !s.owner.slots[o].invalid && o < s.offset))
    && (!s.needReset ==> s.route.start <= s.offset)
    && (IsStrict(s) && !s.needReset && !Fresh(s) ==>
          s.route.start in s.owner.slots && !s.owner.slots[s.route.start].loading)
  }

  ghost predicate Routes<S>(img: Image<S>, s: State<S>) {
    StackOk(img, s) && FreshOk(img, s) && AddedOk(s)
  }

  // ------------------------------------------------------------------ the counters

  /** What m_actualSize counts: the valid entries, and the waiting ones that are known to be data. */
  ghost function Counted<S>(s: State<S>): set<nat> {
    set o | o in s.owner.slots
            && (!s.owner.slots[o].invalid || (s.owner.slots[o].loading && Waiting(s, o)))
  }

  ghost predicate Sized<S>(s: State<S>) {
    s.owner.usedSize == |s.owner.slots| && s.owner.actualSize == |Counted(s)|
  }

  // ------------------------------------------------------------------ what an instruction leads to

  function OutcomeOf<S>(img: Image<S>, ow: Owner<S>, o: nat): Outcome<S>
    requires o in ow.decodings
  {
    img.decode(o, ow.decodings[o].track, ow.decodings[o].strict)
  }

  ghost predicate HasTaken<S>(ow: Owner<S>, source: nat, offset: nat) {
    exists i | 0 <= i < |ow.xrefs| :: IsTaken(ow, ow.xrefs[i], source, offset)
  }

  ghost predicate IsOutsideRef<S>(ow: Owner<S>, x: XRef, source: nat, offset: nat, external: bool, data: bool,
                                  addressTaken: bool, linksToData: bool) {
    && x.source == source && x.external == external && x.data == data && x.addressTaken == addressTaken
    && x.target.Outside? && x.target.index < |ow.outside| && ow.outside[x.target.index].offset == offset
    && ow.outside[x.target.index].external == external && ow.outside[x.target.index].data == linksToData
  }

  ghost predicate HasOutside<S>(ow: Owner<S>, source: nat, offset: nat, external: bool, data: bool,
                                addressTaken: bool, linksToData: bool) {
    exists i | 0 <= i < |ow.xrefs| ::
      IsOutsideRef(ow, ow.xrefs[i], source, offset, external, data, addressTaken, linksToData)
  }

  /** What the owner holds once the reference has been handled. */
  ghost predicate ActionDone<S>(img: Image<S>, ow: Owner<S>, source: nat, action: Action<S>) {
    match action
    case Jump(target, entry) => target < img.maxOffset && IsAligned(img, target, entry) ==> target in ow.slots
    case TakeAddress(target, _) => target < img.maxOffset ==> HasTaken(ow, source, target)
    case TakeDataAddress(target) => HasTaken(ow, source, target)
    case ReadData(target) => HasOutside(ow, source, target, false, true, false, true)
    case External(address, linksToData, data, addressTaken) =>
      IsSkippedExternal(img, address) || HasOutside(ow, source, address, true, data, addressTaken, linksToData)
    case MarkData(target, size, _) =>
      var odd := (img.imageBase + target) % 2;
      target < img.maxOffset && odd <= target ==>
        forall p | target - odd <= p < DataEnd(img, target, size) && (p - (target - odd)) % 2 == 0 :: p in ow.slots
  }

  ghost predicate ActionsDone<S>(img: Image<S>, ow: Owner<S>, source: nat, actions: seq<Action<S>>) {
    forall k | 0 <= k < |actions| :: ActionDone(img, ow, source, actions[k])
  }

  /** Every decoded instruction is one, and its references have been handled. */
  ghost predicate Referenced<S>(img: Image<S>, ow: Owner<S>) {
    forall o | o in ow.decodings ::
      OutcomeOf(img, ow, o).Good? && ActionsDone(img, ow, o, OutcomeOf(img, ow, o).actions)
  }

  /** The route is about to look at what follows `o`. */
  ghost predicate AtFrontier<S>(s: State<S>, o: nat, next: nat, track: S) {
    && !s.needReset && s.added != [] && s.added[|s.added| - 1] == o && s.offset == next && s.track == track
  }

  /** Where `o` falls through to. A questionable route leads to valid code; a strict one to an entry;
      any other to an entry or to a word that is no code. */
  ghost predicate Followed<S>(img: Image<S>, ow: Owner<S>, added: seq<nat>, o: nat, next: nat, track: S)
    requires o in ow.decodings
  {
    var d := ow.decodings[o];
    if img.maxOffset <= next then !(img.isArm && d.strict)
    else if d.questionable then
      && next in ow.decodings && next in ow.slots && !ow.slots[next].invalid && (o !in added ==> next !in added)
    else
      || next in ow.slots
      || (!d.strict && (!IsAligned(img, next, track) || img.decode(next, track, false).Bad?))
  }

  ghost predicate Flow<S>(img: Image<S>, s: State<S>, o: nat)
    requires o in s.owner.decodings && OutcomeOf(img, s.owner, o).Good?
  {
    var out := OutcomeOf(img, s.owner, o);
    var next := o + out.size;
    out.stops || AtFrontier(s, o, next, out.next) || Followed(img, s.owner, s.added, o, next, out.next)
  }

  ghost predicate Flows<S>(img: Image<S>, s: State<S>) {
    forall o | o in s.owner.decodings && o in s.owner.slots && !s.owner.slots[o].invalid ::
      OutcomeOf(img, s.owner, o).Good? && Flow(img, s, o)
  }

  // ------------------------------------------------------------------ the invariant

  ghost predicate Core<S>(img: Image<S>, s: State<S>) {
    OwnerInv(s.owner) && Routes(img, s) && Sized(s)
  }

  /** A strict route with instructions is inside the range. */
  predicate Bounded<S>(img: Image<S>, s: State<S>) {
    !s.needReset && IsStrict(s) && s.added != [] ==> s.offset < img.maxOffset
  }

  /** The invariant but for the range check. */
  ghost predicate Constructed<S>(img: Image<S>, s: State<S>) {
    Core(img, s) && Referenced(img, s.owner) && Flows(img, s)
  }

  ghost predicate Inv<S>(img: Image<S>, s: State<S>) {
    Constructed(img, s) && Bounded(img, s)
  }

  lemma CoreIsSane<S>(img: Image<S>, s: State<S>)
    requires Core(img, s)
    ensures Sane(s)
  {
    LinkedIsInRange(s.owner);
  }

  // ------------------------------------------------------------------ what stays as the owner grows

  lemma HasTakenGrows<S>(a: Owner<S>, b: Owner<S>, source: nat, offset: nat)
    requires Extends(a, b) && HasTaken(a, source, offset)
    ensures HasTaken(b, source, offset)
  {
    var i :| 0 <= i < |a.xrefs| && IsTaken(a, a.xrefs[i], source, offset);
    assert SameXRef(a.xrefs[i], b.xrefs[i]);
    assert IsTaken(b, b.xrefs[i], source, offset);
  }

  lemma HasOutsideGrows<S>(a: Owner<S>, b: Owner<S>, source: nat, offset: nat, external: bool, data: bool,
                           addressTaken: bool, linksToData: bool)
    requires Extends(a, b) && HasOutside(a, source, offset, external, data, addressTaken, linksToData)
    ensures HasOutside(b, source, offset, external, data, addressTaken, linksToData)
  {
    var i :| 0 <= i < |a.xrefs| && IsOutsideRef(a, a.xrefs[i], source, offset, external, data, addressTaken, linksToData);
    assert SameXRef(a.xrefs[i], b.xrefs[i]);
    assert IsOutsideRef(b, b.xrefs[i], source, offset, external, data, addressTaken, linksToData);
  }

  lemma ActionDoneGrows<S>(img: Image<S>, a: Owner<S>, b: Owner<S>, source: nat, action: Action<S>)
    requires Extends(a, b) && ActionDone(img, a, source, action)
    ensures ActionDone(img, b, source, action)
  {
    match action
    case Jump(target, entry) =>
    case TakeAddress(target, entry) =>
      if target < img.maxOffset {
        HasTakenGrows(a, b, source, target);
      }
    case TakeDataAddress(target) =>
      HasTakenGrows(a, b, source, target);
    case ReadData(target) =>
      HasOutsideGrows(a, b, source, target, false, true, false, true);
    case External(address, linksToData, data, addressTaken) =>
      if !IsSkippedExternal(img, address) {
        HasOutsideGrows(a, b, source, address, true, data, addressTaken, linksToData);
      }
    case MarkData(target, size, elements) =>
  }

  lemma ActionsDoneGrow<S>(img: Image<S>, a: Owner<S>, b: Owner<S>, source: nat, actions: seq<Action<S>>)
    requires Extends(a, b) && ActionsDone(img, a, source, actions)
    ensures ActionsDone(img, b, source, actions)
  {
    forall k | 0 <= k < |actions|
      ensures ActionDone(img, b, source, actions[k])
    {
      ActionDoneGrows(img, a, b, source, actions[k]);
    }
  }

  lemma ReferencedGrows<S>(img: Image<S>, a: Owner<S>, b: Owner<S>)
    requires Extends(a, b) && Referenced(img, a) && b.decodings == a.decodings
    ensures Referenced(img, b)
  {
    forall o | o in b.decodings
      ensures ActionsDone(img, b, o, OutcomeOf(img, b, o).actions)
    {
      ActionsDoneGrow(img, a, b, o, OutcomeOf(img, a, o).actions);
    }
  }
}
