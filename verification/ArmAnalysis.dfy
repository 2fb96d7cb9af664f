/** The route analyzer over AArch64 code: the actions of an instruction are its direct references and what the tracker says,
    placed by the observer. Every reference that comes from the tracker is real wherever the machine runs along a way on
    which the analyzer came to the instruction. */
module ArmAnalysis {
  import opened Words
  import opened Wrappers
  import opened ArmMachine
  import opened ArmTracking
  import opened ArmSoundness
  import opened ArmTracker
  import R = RouteModel
  import S = SessionInvariant
  import O = OriginProofs
  import T = RouteTheorems

  /** What the analyzer carries: the registers belong to the route, the bound of the next route to the session. */
  datatype Session = Session(track: Track, bounds: RouteBounds)

  /** The observer's answer for an address. */
  datatype Place = Inside(offset: nat) | External(address: u64) | Nowhere

  /** A reference that needs no register: the target of a branch inside the module, an address of the module that adr takes,
      or one that makes no route. */
  datatype Direct = Branch(target: nat) | TakesAddress(target: nat) | Other(action: R.Action<Session>)

  /** `code` is what the words decode to, `jumps` the register of br and blr. */
  datatype Program = Program(
    w: World,
    code: nat -> Option<Instruction>,
    stops: nat -> bool,
    direct: nat -> seq<Direct>,
    jumps: nat -> Option<Reg>,
    place: Address -> Place,
    minimalExternal: nat,
    maxOffset: nat)

  const SIZE: nat := 4

  // ------------------------------------------------------------------ the actions of an instruction

  /** A route that nothing is known on. */
  function Unbounded(bounds: RouteBounds): Track {
    Reset(Bound(bounds.reg, bounds.count, false, false))
  }

  function DirectAction(s: Session, inst: Instruction, d: Direct): R.Action<Session> {
    match d
    case Branch(target) => R.Jump(target, Session(Reset(RouteBound(s.bounds, s.track, inst)), s.bounds))
    case TakesAddress(target) => R.TakeAddress(target, Session(Unbounded(s.bounds), s.bounds))
    case Other(action) => action
  }

  function JumpAction(prog: Program, s: Session, address: Address): seq<R.Action<Session>> {
    match prog.place(address)
    case Inside(offset) => [R.Jump(offset, Session(Unbounded(s.bounds), s.bounds))]
    case _ => []
  }

  /** The targets of a table from entry `k` on, up to the first that cannot be read; a repeated one is made once. */
  function TableActions(prog: Program, s: Session, table: Table, k: nat): seq<R.Action<Session>>
    decreases MAX_JUMP_TABLE - k
  {
    if table.count <= k || MAX_JUMP_TABLE <= k || !IsReadable(prog.w, table, k) then []
    else
      var target := TargetAt(prog.w, table, k);
      (if 0 < k && target.value == TargetAt(prog.w, table, k - 1).value then [] else JumpAction(prog, s, target))
      + TableActions(prog, s, table, k + 1)
  }

  function IndirectActions(prog: Program, o: nat, s: Session): seq<R.Action<Session>> {
    match prog.jumps(o)
    case None => []
    case Some(reg) =>
      if IsTableJump(s.track, reg) then TableActions(prog, s, s.track.table.value, 0)
      else match GetValue(s.track, reg, 8) case None => [] case Some(address) => JumpAction(prog, s, address)
  }

  /** SaveArm64AddressTaken and SaveDataAccess. */
  function EventAction(prog: Program, s: Session, e: Event): seq<R.Action<Session>> {
    match e
    case Taken(address) =>
      (match prog.place(address)
       case Inside(offset) => [R.TakeAddress(offset, Session(Unbounded(s.bounds), s.bounds))]
       case _ => [])
    case Data(address) =>
      (match prog.place(address)
       case Inside(offset) => [R.ReadData(offset)]
       case External(v) => [R.Action<Session>.External(v, true, true, false)]
       case Nowhere => [])
    case JumpsTo(_) => []
  }

  function DirectActions(s: Session, inst: Instruction, ds: seq<Direct>): (r: seq<R.Action<Session>>)
    ensures |r| == |ds| && forall k | 0 <= k < |ds| :: r[k] == DirectAction(s, inst, ds[k])
  {
    if |ds| == 0 then [] else [DirectAction(s, inst, ds[0])] + DirectActions(s, inst, ds[1..])
  }

  function EventActions(prog: Program, s: Session, es: seq<Event>): seq<R.Action<Session>> {
    if |es| == 0 then [] else EventAction(prog, s, es[0]) + EventActions(prog, s, es[1..])
  }

  /** An in-module target leaves no bound for the next route; a jump table leaves the bound as it is. */
  function BoundsAfter(prog: Program, o: nat, s: Session): RouteBounds {
    var ds := prog.direct(o);
    if exists k | 0 <= k < |ds| :: ds[k].Branch? then LaterBounds
    else
      match prog.jumps(o)
      case None => s.bounds
      case Some(reg) =>
        if !IsTableJump(s.track, reg) && IndirectActions(prog, o, s) != [] then LaterBounds else s.bounds
  }

  predicate Fits64(o: nat) {
    o + SIZE < TWO64
  }

  /** The references of the instruction come first, then what the tracker sees. */
  function DecodeOne(prog: Program, o: nat, s: Session, inst: Instruction): R.Outcome<Session>
    requires Fits64(o)
  {
    var after := Session(s.track, BoundsAfter(prog, o, s));
    var tracked := TrackArm64(prog.w, s.track, inst, o, o + SIZE);
    R.Good(SIZE, 0,
           DirectActions(s, inst, prog.direct(o)) + IndirectActions(prog, o, s) + EventActions(prog, after, tracked.events),
           prog.stops(o), Session(tracked.track, after.bounds))
  }

  function Decode(prog: Program, o: nat, s: Session): R.Outcome<Session> {
    match prog.code(o)
    case Some(inst) => if o < prog.maxOffset && Fits64(o) then DecodeOne(prog, o, s, inst) else R.Bad(s)
    case None => R.Bad(s)
  }

  /** A popped route has the registers it was queued with, and the session goes on. */
  function ImageOf(prog: Program): R.Image<Session> {
    R.Image(true, false, prog.minimalExternal, prog.w.imageBase, prog.maxOffset, prog.maxOffset, (s: Session) => SIZE,
            (cur: Session, entry: Session) => Session(entry.track, cur.bounds),
            (o: nat, s: Session, strict: bool) => Decode(prog, o, s))
  }

  // ------------------------------------------------------------------ the ways through the code

  /** A step of a way: to the next instruction, to the target of a conditional branch, or over a word that is no instruction,
      which no machine takes. `before` is what the analyzer carries in front of it. */
  datatype Move = Falls | Branches | Skips

  datatype WayStep = WayStep(inst: Instruction, offset: u64, next: u64, move: Move, before: Session)

  predicate IsConditional(inst: Instruction) {
    inst.cmd == BCond && 2 <= |inst.ops| && inst.ops[1].Cond?
  }

  /** The step goes through the code to `o`, and takes what is tracked to `t`. */
  ghost predicate IsStep(prog: Program, st: WayStep, o: nat, t: Track) {
    && Fits64(st.offset) && st.before.bounds in {FirstBounds, LaterBounds}
    && match st.move
       case Falls =>
         && prog.code(st.offset) == Some(st.inst) && st.next == st.offset + SIZE && o == st.next
         && t == TrackArm64(prog.w, st.before.track, st.inst, st.offset, st.next).track
       case Branches =>
         && prog.code(st.offset) == Some(st.inst) && IsConditional(st.inst) && Branch(o) in prog.direct(st.offset)
         && t == Reset(RouteBound(st.before.bounds, st.before.track, st.inst))
       case Skips => prog.code(st.offset).None? && o == st.offset + SIZE && t == st.before.track
  }

  /** A route on which nothing is known, no bound either. */
  predicate IsBlank(t: Track) {
    t == Reset(BoundOf(t)) && t.boundCount == 0
  }

  /** A way from where nothing is known to the instruction at `o`, on which the analyzer tracks `t`. */
  ghost predicate IsWay(prog: Program, way: seq<WayStep>, o: nat, t: Track) {
    if |way| == 0 then IsBlank(t)
    else
      var last := way[|way| - 1];
      IsStep(prog, last, o, t) && IsWay(prog, way[..|way| - 1], last.offset, last.before.track)
  }

  ghost predicate Moves(w: World, st: WayStep, a: machine, b: machine) {
    match st.move
    case Falls => FallsThrough(w, st.inst, st.offset, st.next, a, b)
    case Branches => BranchTaken(st.inst, a, b)
    case Skips => false
  }

  /** The states of the machine on a way. */
  ghost predicate Runs(w: World, way: seq<WayStep>, states: seq<machine>) {
    |states| == |way| + 1 && forall k | 0 <= k < |way| :: Moves(w, way[k], states[k], states[k + 1])
  }

  /** The decoder, and the direct references. */
  ghost predicate IsProgram(prog: Program) {
    && Loaded(prog.w) && prog.maxOffset + SIZE < TWO64
    && (forall o | prog.code(o).Some? :: WellFormed(prog.code(o).value))
    && (forall o, d | d in prog.direct(o) && d.Other? :: !d.action.Jump? && !d.action.TakeAddress?)
    && (forall o | prog.jumps(o).Some? :: !prog.jumps(o).value.W?)
  }

  lemma LastMove(w: World, way: seq<WayStep>, states: seq<machine>)
    requires Runs(w, way, states) && |way| != 0
    ensures var n := |way| - 1;
            Runs(w, way[..n], states[..n + 1]) && Moves(w, way[n], states[n], states[n + 1])
  {
  }

  /** Wherever the machine runs along a way, what the analyzer tracks on it is true. */
  lemma {:induction false} WayIsSound(prog: Program, way: seq<WayStep>, o: nat, t: Track, states: seq<machine>)
    requires IsProgram(prog) && IsWay(prog, way, o, t) && Runs(prog.w, way, states)
    ensures Agrees(prog.w, t, states[|way|])
    decreases |way|
  {
    hide Agrees, TrackArm64, WellFormed, FallsThrough, Loaded, RouteBound, BranchTaken;
    if |way| == 0 {
      BlankAgrees(prog.w, t, states[0]);
    } else {
      var n := |way| - 1;
      var st := way[n];
      LastMove(prog.w, way, states);
      WayIsSound(prog, way[..n], st.offset, st.before.track, states[..n + 1]);
      if st.move.Falls? {
        StepIsSound(prog.w, st.before.track, st.inst, st.offset, st.next, states[n], states[n + 1]);
      } else {
        RouteStartAgrees(prog.w, st.before.bounds, st.before.track, st.inst, states[n], states[n + 1]);
      }
    }
  }

  lemma BlankAgrees(w: World, t: Track, c: machine)
    requires IsBlank(t)
    ensures Agrees(w, t, c)
  {
    ResetAgrees(w, BoundOf(t), c);
  }

  // ------------------------------------------------------------------ the ways go on

  ghost predicate HasWay(prog: Program, o: nat, t: Track) {
    exists way: seq<WayStep> :: IsWay(prog, way, o, t)
  }

  /** What every instruction is decoded with. */
  ghost predicate IsReached(prog: Program, o: nat, s: Session) {
    s.bounds in {FirstBounds, LaterBounds} && (prog.maxOffset <= o || HasWay(prog, o, s.track))
  }

  ghost function Reached(prog: Program): (nat, Session) -> bool {
    (o: nat, s: Session) => IsReached(prog, o, s)
  }

  lemma LongerWay(prog: Program, way: seq<WayStep>, st: WayStep, o: nat, t: Track)
    requires IsWay(prog, way, st.offset, st.before.track) && IsStep(prog, st, o, t)
    ensures HasWay(prog, o, t)
  {
    assert (way + [st])[..|way|] == way;
    assert IsWay(prog, way + [st], o, t);
  }

  lemma NothingKnown(prog: Program, o: nat, t: Track)
    requires IsBlank(t)
    ensures HasWay(prog, o, t)
  {
    assert IsWay(prog, [], o, t);
  }

  lemma FallsOn(prog: Program, o: nat, s: Session, inst: Instruction)
    requires prog.code(o) == Some(inst) && Fits64(o) && HasWay(prog, o, s.track) && s.bounds in {FirstBounds, LaterBounds}
    ensures HasWay(prog, o + SIZE, TrackArm64(prog.w, s.track, inst, o, o + SIZE).track)
  {
    hide TrackArm64;
    var way :| IsWay(prog, way, o, s.track);
    LongerWay(prog, way, WayStep(inst, o, o + SIZE, Falls, s), o + SIZE,
              TrackArm64(prog.w, s.track, inst, o, o + SIZE).track);
  }

  lemma BranchesOn(prog: Program, o: nat, s: Session, inst: Instruction, target: nat)
    requires prog.code(o) == Some(inst) && Fits64(o) && HasWay(prog, o, s.track) && s.bounds in {FirstBounds, LaterBounds}
    requires Branch(target) in prog.direct(o)
    ensures HasWay(prog, target, Reset(RouteBound(s.bounds, s.track, inst)))
  {
    var t := Reset(RouteBound(s.bounds, s.track, inst));
    if IsConditional(inst) {
      hide RouteBound;
      var way :| IsWay(prog, way, o, s.track);
      LongerWay(prog, way, WayStep(inst, o, o + SIZE, Branches, s), target, t);
    } else {
      NothingKnown(prog, target, t);
    }
  }

  lemma SkipsOn(prog: Program, o: nat, s: Session)
    requires prog.code(o).None? && Fits64(o) && HasWay(prog, o, s.track) && s.bounds in {FirstBounds, LaterBounds}
    ensures HasWay(prog, o + SIZE, s.track)
  {
    var way :| IsWay(prog, way, o, s.track);
    LongerWay(prog, way, WayStep(NoInstruction, o, o, Skips, s), o + SIZE, s.track);
  }

  // ------------------------------------------------------------------ what decoding hands on

  /** An action that makes no route, or one to which a way leads. */
  ghost predicate LeadsWell(prog: Program, a: R.Action<Session>) {
    match a
    case Jump(target, entry) => HasWay(prog, target, entry.track)
    case TakeAddress(target, entry) => HasWay(prog, target, entry.track)
    case _ => true
  }

  lemma LeadsWellEnters(prog: Program, a: R.Action<Session>)
    requires LeadsWell(prog, a)
    ensures O.Enters(ImageOf(prog), Reached(prog), a)
  {
    hide HasWay;
  }

  lemma {:induction false} TableLeadsWell(prog: Program, s: Session, table: Table, k: nat, a: R.Action<Session>)
    requires s.bounds in {FirstBounds, LaterBounds} && a in TableActions(prog, s, table, k)
    ensures LeadsWell(prog, a) && a.Jump?
    decreases MAX_JUMP_TABLE - k
  {
    hide HasWay, IsReadable, TargetAt;
    if a in TableActions(prog, s, table, k + 1) {
      TableLeadsWell(prog, s, table, k + 1, a);
    } else {
      NothingKnown(prog, a.target, a.entry.track);
    }
  }

  lemma IndirectLeadsWell(prog: Program, o: nat, s: Session, a: R.Action<Session>)
    requires s.bounds in {FirstBounds, LaterBounds} && a in IndirectActions(prog, o, s)
    ensures LeadsWell(prog, a) && a.Jump?
  {
    hide HasWay, TableActions;
    if IsTableJump(s.track, prog.jumps(o).value) {
      TableLeadsWell(prog, s, s.track.table.value, 0, a);
    } else {
      NothingKnown(prog, a.target, a.entry.track);
    }
  }

  /** An action of an event: where it was placed. */
  lemma {:induction false} EventOf(prog: Program, s: Session, es: seq<Event>, a: R.Action<Session>) returns (e: Event)
    requires a in EventActions(prog, s, es)
    ensures e in es && a in EventAction(prog, s, e)
  {
    if a in EventAction(prog, s, es[0]) {
      e := es[0];
    } else {
      e := EventOf(prog, s, es[1..], a);
    }
  }

  lemma EventLeadsWell(prog: Program, s: Session, es: seq<Event>, a: R.Action<Session>)
    requires s.bounds in {FirstBounds, LaterBounds} && a in EventActions(prog, s, es)
    ensures LeadsWell(prog, a) && !a.Jump?
  {
    hide HasWay;
    var e := EventOf(prog, s, es, a);
    if a.TakeAddress? {
      NothingKnown(prog, a.target, a.entry.track);
    }
  }

  lemma DirectLeadsWell(prog: Program, o: nat, s: Session, inst: Instruction, k: nat)
    requires IsProgram(prog) && prog.code(o) == Some(inst) && Fits64(o) && HasWay(prog, o, s.track)
    requires s.bounds in {FirstBounds, LaterBounds} && k < |prog.direct(o)|
    ensures LeadsWell(prog, DirectAction(s, inst, prog.direct(o)[k]))
  {
    hide HasWay, RouteBound, WellFormed;
    var d := prog.direct(o)[k];
    assert d in prog.direct(o);
    if d.Branch? {
      BranchesOn(prog, o, s, inst, d.target);
    } else if d.TakesAddress? {
      NothingKnown(prog, d.target, Unbounded(s.bounds));
    }
  }

  lemma ActionsLeadWell(prog: Program, o: nat, s: Session, inst: Instruction, a: R.Action<Session>)
    requires IsProgram(prog) && prog.code(o) == Some(inst) && o < prog.maxOffset && Fits64(o) && IsReached(prog, o, s)
    requires a in DecodeOne(prog, o, s, inst).actions
    ensures LeadsWell(prog, a)
  {
    hide LeadsWell, HasWay, IndirectActions, EventActions, IsProgram;
    var after := Session(s.track, BoundsAfter(prog, o, s));
    var events := TrackArm64(prog.w, s.track, inst, o, o + SIZE).events;
    var direct := DirectActions(s, inst, prog.direct(o));
    if a in direct {
      var k :| 0 <= k < |direct| && direct[k] == a;
      DirectLeadsWell(prog, o, s, inst, k);
    } else if a in IndirectActions(prog, o, s) {
      IndirectLeadsWell(prog, o, s, a);
    } else {
      EventLeadsWell(prog, after, events, a);
    }
  }

  lemma HandsOnReached(prog: Program, o: nat, s: Session, strict: bool)
    requires IsProgram(prog) && IsReached(prog, o, s)
    ensures O.HandsOn(ImageOf(prog), Reached(prog), o, s, strict)
  {
    hide HasWay, DirectActions, IndirectActions, EventActions, LeadsWell, TrackArm64;
    if prog.code(o).Some? && o < prog.maxOffset {
      var inst := prog.code(o).value;
      FallsOn(prog, o, s, inst);
      var out := DecodeOne(prog, o, s, inst);
      forall a | a in out.actions
        ensures O.Enters(ImageOf(prog), Reached(prog), a)
      {
        ActionsLeadWell(prog, o, s, inst, a);
        LeadsWellEnters(prog, a);
      }
    } else if o < prog.maxOffset {
      SkipsOn(prog, o, s);
    }
  }

  lemma ReachedIsHandedOn(prog: Program)
    requires IsProgram(prog)
    ensures O.HandedOn(ImageOf(prog), Reached(prog))
  {
    hide O.HandsOn, IsProgram;
    forall o: nat, s: Session, strict: bool | Reached(prog)(o, s)
      ensures O.HandsOn(ImageOf(prog), Reached(prog), o, s, strict)
    {
      HandsOnReached(prog, o, s, strict);
    }
  }

  // ------------------------------------------------------------------ the references are real

  /** A call starts with nothing known, and zeroed session fields. */
  predicate IsSeed(seed: R.Seed<Session>) {
    seed.entry == Session(Reset(NoBound), FirstBounds)
  }

  lemma SeedIsReached(prog: Program, seed: R.Seed<Session>)
    requires IsSeed(seed)
    ensures IsReached(prog, seed.offset, seed.entry)
  {
    NothingKnown(prog, seed.offset, seed.entry.track);
  }

  /** The observer finds the place of an address. */
  ghost predicate IsPlacedRight(prog: Program) {
    forall address: Address ::
      match prog.place(address)
      case Inside(offset) => offset < TWO64 && ConcreteOf(prog.w, address) == AddressOf(prog.w, offset)
      case External(v) => ConcreteOf(prog.w, address) == v
      case Nowhere => true
  }

  /** The address of the process that an xref leads to. */
  ghost predicate Denotes(prog: Program, ow: R.Owner<Session>, x: R.XRef, v: u64) {
    match x.target
    case Code(o) => o < TWO64 && v == AddressOf(prog.w, o)
    case Outside(i) =>
      && i < |ow.outside|
      && (if x.external then ow.outside[i].offset == v
          else ow.outside[i].offset < TWO64 && v == AddressOf(prog.w, ow.outside[i].offset))
  }

  /** The instruction computes or loads the address that is taken, or accesses the data, in this state of the machine. */
  ghost predicate RefersTo(w: World, inst: Instruction, next: u64, a: machine, addressTaken: bool, v: u64) {
    if addressTaken then IsComputed(w, inst, next, a, v) else IsAccessed(w, inst, next, a, v) || IsTableBase(inst, a, v)
  }

  const NoInstruction: Instruction := Instruction(Plain, [], false, false, false)

  /** A reference that needs no register; whoever makes it does not depend on the state. */
  ghost predicate IsDirect(prog: Program, ow: R.Owner<Session>, x: R.XRef) {
    exists d | d in prog.direct(x.source) ::
      !d.Branch? && O.MadeBy(ow, x, DirectAction(Session(Reset(NoBound), FirstBounds), NoInstruction, d))
  }

  /** A run along the way that goes on behind the instruction. */
  ghost predicate Passes(prog: Program, way: seq<WayStep>, o: nat, states: seq<machine>, b: machine)
    requires prog.code(o).Some? && Fits64(o)
  {
    Runs(prog.w, way, states) && FallsThrough(prog.w, prog.code(o).value, o, o + SIZE, states[|way|], b)
  }

  /** On every such run the xref is real. */
  ghost predicate IsRealOn(prog: Program, ow: R.Owner<Session>, x: R.XRef, way: seq<WayStep>) {
    && prog.code(x.source).Some? && Fits64(x.source)
    && forall states: seq<machine>, b: machine | Passes(prog, way, x.source, states, b) ::
         exists v: u64 :: Denotes(prog, ow, x, v)
           && RefersTo(prog.w, prog.code(x.source).value, x.source + SIZE, states[|way|], x.addressTaken, v)
  }

  /** The analyzer has a way to the instruction, and the xref is real on every way on which it tracks the same. */
  ghost predicate IsRealReference(prog: Program, ow: R.Owner<Session>, x: R.XRef)
    requires x.source in ow.decodings
  {
    var t := ow.decodings[x.source].track.track;
    HasWay(prog, x.source, t) && forall way: seq<WayStep> | IsWay(prog, way, x.source, t) :: IsRealOn(prog, ow, x, way)
  }

  lemma EventIsReal(prog: Program, ow: R.Owner<Session>, x: R.XRef, s: Session, e: Event, action: R.Action<Session>,
                    inst: Instruction, next: u64, a: machine)
    requires IsPlacedRight(prog) && IsReal(prog.w, inst, next, a, e)
    requires action in EventAction(prog, s, e) && O.MadeBy(ow, x, action)
    ensures exists v: u64 :: Denotes(prog, ow, x, v) && RefersTo(prog.w, inst, next, a, x.addressTaken, v)
  {
    hide IsComputed, IsAccessed, IsTableBase;
    var address := e.address;
    assert Denotes(prog, ow, x, ConcreteOf(prog.w, address));
  }

  lemma MadeByNoDirect(prog: Program, ow: R.Owner<Session>, x: R.XRef, s: Session, inst: Instruction, d: Direct)
    requires (x.addressTaken || x.data) && !IsDirect(prog, ow, x) && d in prog.direct(x.source)
    ensures !O.MadeBy(ow, x, DirectAction(s, inst, d))
  {
  }

  lemma MadeByEvent(prog: Program, ow: R.Owner<Session>, x: R.XRef, s: Session, inst: Instruction, k: nat)
    returns (action: R.Action<Session>)
    requires prog.code(x.source) == Some(inst) && Fits64(x.source) && (x.addressTaken || x.data) && !IsDirect(prog, ow, x)
    requires s.bounds in {FirstBounds, LaterBounds}
    requires k < |DecodeOne(prog, x.source, s, inst).actions|
    requires O.MadeBy(ow, x, DecodeOne(prog, x.source, s, inst).actions[k])
    ensures var o := x.source;
            action in EventActions(prog, Session(s.track, BoundsAfter(prog, o, s)),
                                   TrackArm64(prog.w, s.track, inst, o, o + SIZE).events)
    ensures O.MadeBy(ow, x, action)
  {
    hide IndirectActions, EventActions, TrackArm64, LeadsWell;
    var o := x.source;
    var direct, indirect := DirectActions(s, inst, prog.direct(o)), IndirectActions(prog, o, s);
    action := DecodeOne(prog, o, s, inst).actions[k];
    if k < |direct| {
      MadeByNoDirect(prog, ow, x, s, inst, prog.direct(o)[k]);
    } else if k < |direct| + |indirect| {
      assert action in indirect;
      IndirectLeadsWell(prog, o, s, action);
    }
  }

  /** The analyzer came to the instruction on a way, and decoded it with what it tracks there. */
  lemma DecodingHasWay(prog: Program, seeds: seq<R.Seed<Session>>, o: nat)
    requires IsProgram(prog) && forall seed | seed in seeds :: IsSeed(seed)
    requires o in T.Analyzed(ImageOf(prog), seeds).decodings
    ensures IsReached(prog, o, T.Analyzed(ImageOf(prog), seeds).decodings[o].track)
  {
    hide T.Analyzed, IsProgram, IsSeed, HasWay;
    ReachedIsHandedOn(prog);
    forall seed | seed in seeds
      ensures Reached(prog)(seed.offset, seed.entry)
    {
      SeedIsReached(prog, seed);
    }
    T.DecodingsAreTraced(ImageOf(prog), Reached(prog), seeds, o);
  }

  /** No reference is invented. Every xref that the tracker gives a decoded instruction, an address taken or data, is real:
      the analyzer has a way through the code to the instruction, and on every run of the machine along any way on which the
      same is tracked, the instruction computes, loads or accesses just that address. */
  lemma ReferencesAreReal(prog: Program, seeds: seq<R.Seed<Session>>, i: nat)
    requires IsProgram(prog) && IsPlacedRight(prog) && forall seed | seed in seeds :: IsSeed(seed)
    requires i < |T.Analyzed(ImageOf(prog), seeds).xrefs|
    requires var ow := T.Analyzed(ImageOf(prog), seeds);
             (ow.xrefs[i].addressTaken || ow.xrefs[i].data) && !IsDirect(prog, ow, ow.xrefs[i])
    ensures var ow := T.Analyzed(ImageOf(prog), seeds);
            var x := ow.xrefs[i];
            x.source in ow.decodings && IsRealReference(prog, ow, x)
  {
    hide T.Analyzed, IsProgram, IsPlacedRight, IsDirect, IsSeed, HasWay, O.MadeBy, IsRealReference;
    var ow := T.Analyzed(ImageOf(prog), seeds);
    var x := ow.xrefs[i];
    T.XRefsAreMade(ImageOf(prog), seeds, i);
    DecodingHasWay(prog, seeds, x.source);
    XRefIsReal(prog, ow, x);
  }

  lemma XRefIsReal(prog: Program, ow: R.Owner<Session>, x: R.XRef)
    requires IsProgram(prog) && IsPlacedRight(prog) && O.IsMade(ImageOf(prog), ow, x)
    requires IsReached(prog, x.source, ow.decodings[x.source].track)
    requires (x.addressTaken || x.data) && !IsDirect(prog, ow, x)
    ensures IsRealReference(prog, ow, x)
  {
    hide IsPlacedRight, IsDirect, O.MadeBy, Agrees, TrackArm64, WellFormed, Loaded, FallsThrough, EventActions, Denotes, RefersTo,
         DecodeOne, HasWay, IsWay;
    var o, s := x.source, ow.decodings[x.source].track;
    assert S.OutcomeOf(ImageOf(prog), ow, o) == Decode(prog, o, s);
    var inst := prog.code(o).value;
    var actions := DecodeOne(prog, o, s, inst).actions;
    var k :| 0 <= k < |actions| && O.MadeBy(ow, x, actions[k]);
    var action := MadeByEvent(prog, ow, x, s, inst, k);
    var after := Session(s.track, BoundsAfter(prog, o, s));
    var events := TrackArm64(prog.w, s.track, inst, o, o + SIZE).events;
    var e := EventOf(prog, after, events, action);
    forall way: seq<WayStep> | IsWay(prog, way, o, s.track)
      ensures IsRealOn(prog, ow, x, way)
    {
      forall states: seq<machine>, b: machine | Passes(prog, way, o, states, b)
        ensures exists v: u64 :: Denotes(prog, ow, x, v) && RefersTo(prog.w, inst, o + SIZE, states[|way|], x.addressTaken, v)
      {
        WayIsSound(prog, way, o, s.track, states);
        StepIsSound(prog.w, s.track, inst, o, o + SIZE, states[|way|], b);
        EventIsReal(prog, ow, x, after, e, action, inst, o + SIZE, states[|way|]);
      }
    }
  }

  // ------------------------------------------------------------------ jumps through a register

  /** The jump goes where the register points, or the target is that of an entry of the tracked table. */
  ghost predicate GoesTo(prog: Program, t: Track, reg: Reg, a: machine, target: nat) {
    || (reg.X? && target < TWO64 && a.x[reg.n] == AddressOf(prog.w, target))
    || (IsTableJump(t, reg) && IsEntryOf(prog, t.table.value, target))
  }

  ghost predicate IsEntryOf(prog: Program, table: Table, target: nat) {
    exists k | 0 <= k < table.count ::
      k < MAX_JUMP_TABLE && IsReadable(prog.w, table, k) && prog.place(TargetAt(prog.w, table, k)) == Inside(target)
  }

  ghost predicate IsRealJump(prog: Program, ow: R.Owner<Session>, x: R.XRef)
    requires x.source in ow.decodings && x.target.Code?
  {
    var t := ow.decodings[x.source].track.track;
    && prog.jumps(x.source).Some? && HasWay(prog, x.source, t)
    && forall way: seq<WayStep>, states: seq<machine> | IsWay(prog, way, x.source, t) && Runs(prog.w, way, states) ::
         GoesTo(prog, t, prog.jumps(x.source).value, states[|way|], x.target.offset)
  }

  lemma {:induction false} TableEntryOf(prog: Program, s: Session, table: Table, k: nat, a: R.Action<Session>)
    requires a in TableActions(prog, s, table, k)
    ensures a.Jump? && IsEntryOf(prog, table, a.target)
    decreases MAX_JUMP_TABLE - k
  {
    hide IsReadable, TargetAt;
    if a in TableActions(prog, s, table, k + 1) {
      TableEntryOf(prog, s, table, k + 1, a);
    }
  }

  lemma MadeByJump(prog: Program, ow: R.Owner<Session>, x: R.XRef, s: Session, inst: Instruction, k: nat)
    returns (action: R.Action<Session>)
    requires IsProgram(prog) && prog.code(x.source) == Some(inst) && Fits64(x.source) && s.bounds in {FirstBounds, LaterBounds}
    requires x.target.Code? && !x.addressTaken && Branch(x.target.offset) !in prog.direct(x.source)
    requires k < |DecodeOne(prog, x.source, s, inst).actions|
    requires O.MadeBy(ow, x, DecodeOne(prog, x.source, s, inst).actions[k])
    ensures action in IndirectActions(prog, x.source, s) && action.Jump? && action.target == x.target.offset
  {
    hide IndirectActions, EventActions, TrackArm64, LeadsWell;
    var o := x.source;
    var direct, indirect := DirectActions(s, inst, prog.direct(o)), IndirectActions(prog, o, s);
    var after := Session(s.track, BoundsAfter(prog, o, s));
    var es := TrackArm64(prog.w, s.track, inst, o, o + SIZE).events;
    action := DecodeOne(prog, o, s, inst).actions[k];
    if k < |direct| {
      JumpIsNoDirect(prog, ow, x, s, inst, k);
    } else if k >= |direct| + |indirect| {
      assert action in EventActions(prog, after, es);
      EventLeadsWell(prog, after, es, action);
    }
  }

  lemma JumpIsNoDirect(prog: Program, ow: R.Owner<Session>, x: R.XRef, s: Session, inst: Instruction, k: nat)
    requires IsProgram(prog) && k < |prog.direct(x.source)|
    requires x.target.Code? && !x.addressTaken && Branch(x.target.offset) !in prog.direct(x.source)
    ensures !O.MadeBy(ow, x, DirectAction(s, inst, prog.direct(x.source)[k]))
  {
    assert prog.direct(x.source)[k] in prog.direct(x.source);
  }

  lemma JumpGoesTo(prog: Program, o: nat, s: Session, a: R.Action<Session>, c: machine)
    requires IsProgram(prog) && IsPlacedRight(prog) && Agrees(prog.w, s.track, c)
    requires a in IndirectActions(prog, o, s) && a.Jump?
    ensures prog.jumps(o).Some? && GoesTo(prog, s.track, prog.jumps(o).value, c, a.target)
  {
    hide Loaded, WellFormed, Agrees, TableActions, IsEntryOf, AddressOf;
    var reg := prog.jumps(o).value;
    if IsTableJump(s.track, reg) {
      TableEntryOf(prog, s, s.track.table.value, 0, a);
    } else {
      KnownJumpIsReal(prog.w, s.track, reg, c);
    }
  }

  /** No route through a register is invented either: on every run along any way to br or blr on which the same is tracked,
      the register points to the target of the xref, or the target is that of an entry of the table that is tracked there. */
  lemma JumpsAreReal(prog: Program, seeds: seq<R.Seed<Session>>, i: nat)
    requires IsProgram(prog) && IsPlacedRight(prog) && forall seed | seed in seeds :: IsSeed(seed)
    requires i < |T.Analyzed(ImageOf(prog), seeds).xrefs|
    requires var x := T.Analyzed(ImageOf(prog), seeds).xrefs[i];
             x.target.Code? && !x.addressTaken && Branch(x.target.offset) !in prog.direct(x.source)
    ensures var ow := T.Analyzed(ImageOf(prog), seeds);
            var x := ow.xrefs[i];
            x.source in ow.decodings && IsRealJump(prog, ow, x)
  {
    hide T.Analyzed, IsProgram, IsPlacedRight, IsSeed, HasWay, O.MadeBy, IsRealJump;
    var ow := T.Analyzed(ImageOf(prog), seeds);
    var x := ow.xrefs[i];
    T.XRefsAreMade(ImageOf(prog), seeds, i);
    DecodingHasWay(prog, seeds, x.source);
    JumpIsReal(prog, ow, x);
  }

  lemma JumpIsReal(prog: Program, ow: R.Owner<Session>, x: R.XRef)
    requires IsProgram(prog) && IsPlacedRight(prog) && O.IsMade(ImageOf(prog), ow, x)
    requires IsReached(prog, x.source, ow.decodings[x.source].track)
    requires x.target.Code? && !x.addressTaken && Branch(x.target.offset) !in prog.direct(x.source)
    ensures IsRealJump(prog, ow, x)
  {
    hide IsProgram, IsPlacedRight, O.MadeBy, Agrees, GoesTo, DecodeOne, HasWay, IsWay;
    var o, s := x.source, ow.decodings[x.source].track;
    assert S.OutcomeOf(ImageOf(prog), ow, o) == Decode(prog, o, s);
    var inst := prog.code(o).value;
    var actions := DecodeOne(prog, o, s, inst).actions;
    var k :| 0 <= k < |actions| && O.MadeBy(ow, x, actions[k]);
    var action := MadeByJump(prog, ow, x, s, inst, k);
    assert prog.jumps(o).Some?;
    forall way: seq<WayStep>, states: seq<machine> | IsWay(prog, way, o, s.track) && Runs(prog.w, way, states)
      ensures GoesTo(prog, s.track, prog.jumps(o).value, states[|way|], x.target.offset)
    {
      WayIsSound(prog, way, o, s.track, states);
      JumpGoesTo(prog, o, s, action, states[|way|]);
    }
  }
}
