/** The analysis of AArch64 code forgets nothing that is tracked: every address that a valid instruction computes from known
    registers has its reference, and every place that a jump through a known register can lead to has its entry. */
module ArmCompleteness {
  import opened Words
  import opened Wrappers
  import opened ArmMachine
  import opened ArmTracking
  import opened ArmSoundness
  import opened ArmTracker
  import opened ArmAnalysis
  import opened ArmFindings
  import R = RouteModel
  import I = OwnerInvariant
  import S = SessionInvariant
  import F = FinalityProofs
  import T = RouteTheorems

  // ------------------------------------------------------------------ an event becomes an action

  lemma {:induction false} EventIsActed(prog: Program, s: Session, es: seq<Event>, e: Event, a: R.Action<Session>)
    requires e in es && a in EventAction(prog, s, e)
    ensures a in EventActions(prog, s, es)
  {
    hide EventAction;
    if e != es[0] {
      EventIsActed(prog, s, es[1..], e, a);
    }
  }

  /** The instruction was decoded, and is one. */
  ghost predicate IsInstruction(prog: Program, seeds: seq<R.Seed<Session>>, o: nat, inst: Instruction, s: Session) {
    var ow := T.Analyzed(ImageOf(prog), seeds);
    F.IsValid(ow, o) && prog.code(o) == Some(inst) && ow.decodings[o].track == s
  }

  lemma DecodedOne(prog: Program, seeds: seq<R.Seed<Session>>, o: nat, inst: Instruction, s: Session)
    requires IsInstruction(prog, seeds, o, inst, s)
    ensures o < prog.maxOffset && Fits64(o)
    ensures var ow := T.Analyzed(ImageOf(prog), seeds);
            var d := ow.decodings[o];
            ImageOf(prog).decode(o, d.track, d.strict) == DecodeOne(prog, o, s, inst) && DecodeOne(prog, o, s, inst).Good?
  {
    hide T.Analyzed, TrackArm64, DirectActions, IndirectActions, EventActions;
    var ow := T.Analyzed(ImageOf(prog), seeds);
    T.WorklistIsClosed(ImageOf(prog), seeds, o);
    assert ImageOf(prog).decode(o, s, ow.decodings[o].strict) == Decode(prog, o, s);
  }

  lemma EventsAreActions(prog: Program, o: nat, s: Session, inst: Instruction, e: Event, a: R.Action<Session>)
    requires Fits64(o) && e in TrackArm64(prog.w, s.track, inst, o, o + SIZE).events
    requires a in EventAction(prog, Session(s.track, BoundsAfter(prog, o, s)), e)
    ensures a in DecodeOne(prog, o, s, inst).actions
  {
    hide TrackArm64, EventAction, BoundsAfter, IndirectActions, DirectActions;
    var after := Session(s.track, BoundsAfter(prog, o, s));
    EventIsActed(prog, after, TrackArm64(prog.w, s.track, inst, o, o + SIZE).events, e, a);
    hide EventActions;
  }

  /** An address that the tracker sees taken has a live address-taken xref, if its place is in the module. */
  lemma TakenHasXRef(prog: Program, seeds: seq<R.Seed<Session>>, o: nat, inst: Instruction, s: Session, address: Address,
                     target: nat)
    requires IsInstruction(prog, seeds, o, inst, s) && Fits64(o)
    requires Taken(address) in TrackArm64(prog.w, s.track, inst, o, o + SIZE).events
    requires prog.place(address) == Inside(target) && target < prog.maxOffset
    ensures I.HasLiveTaken(T.Analyzed(ImageOf(prog), seeds), o, target)
  {
    hide T.Analyzed, TrackArm64, I.HasLiveTaken, DecodeOne;
    DecodedOne(prog, seeds, o, inst, s);
    hide IsInstruction;
    var after := Session(s.track, BoundsAfter(prog, o, s));
    var entry := Session(Unbounded(after.bounds), after.bounds);
    var a := R.TakeAddress(target, entry);
    assert a in EventAction(prog, after, Taken(address));
    EventsAreActions(prog, o, s, inst, Taken(address), a);
    hide EventAction, BoundsAfter, ImageOf;
    T.AddressesTakenAreConserved(ImageOf(prog), seeds, o, target);
  }

  lemma NextOffset(o: nat)
    requires Fits64(o)
    ensures o + SIZE < TWO64
  {
  }

  /** adrp and add: the address that an add computes from a known register is referred to. */
  lemma SumIsReferredTo(prog: Program, seeds: seq<R.Seed<Session>>, o: nat, inst: Instruction, s: Session, n: index, m: index,
                        address: Address, target: nat)
    requires IsInstruction(prog, seeds, o, inst, s) && WellFormed(inst) && inst.cmd == Add && |inst.ops| == 3
    requires IsX(inst.ops[0], n) && IsX(inst.ops[1], m) && inst.ops[2].Imm? && m in s.track.known
    requires var base := s.track.known[m];
             address == Address(Add64(base.value, Shl64(inst.ops[2].value, inst.ops[2].shift)), base.relative)
    requires prog.place(address) == Inside(target) && target < prog.maxOffset
    ensures I.HasLiveTaken(T.Analyzed(ImageOf(prog), seeds), o, target)
  {
    hide *;
    DecodedOne(prog, seeds, o, inst, s);
    NextOffset(o);
    AddTakes(prog.w, s.track, inst, o, o + SIZE, n, m);
    TakenHasXRef(prog, seeds, o, inst, s, address, target);
  }

  lemma AddTakes(w: World, t: Track, inst: Instruction, offset: u64, next: u64, n: index, m: index)
    requires WellFormed(inst) && inst.cmd == Add && |inst.ops| == 3
    requires IsX(inst.ops[0], n) && IsX(inst.ops[1], m) && inst.ops[2].Imm? && m in t.known
    ensures var base := t.known[m];
            Taken(Address(Add64(base.value, Shl64(inst.ops[2].value, inst.ops[2].shift)), base.relative))
            in TrackArm64(w, t, inst, offset, next).events
  {
    assert !inst.call && !inst.unsupported;
    FlagsKeepKnown(t, inst);
    hide TrackFlags, IsTableLoad, Shl64, Add64, WellFormed, SetValue;
  }

  /** ldr: the pointer that a load through a known base finds in the file is referred to. */
  lemma PointerIsReferredTo(prog: Program, seeds: seq<R.Seed<Session>>, o: nat, inst: Instruction, s: Session, n: index, m: index,
                            target: nat)
    requires IsInstruction(prog, seeds, o, inst, s) && WellFormed(inst) && inst.cmd == Ldr && |inst.ops| == 2
    requires IsX(inst.ops[0], n) && inst.ops[1].Memory? && inst.ops[1].base == X(m) && inst.ops[1].kind == UnsignedOffset
    requires m in s.track.known
    requires var base := s.track.known[m];
             var loaded := prog.w.peek(Add64(base.value, inst.ops[1].disp), base.relative, 8);
             loaded.Read? && loaded.value != 0 && prog.place(Address(loaded.value, false)) == Inside(target)
    requires target < prog.maxOffset
    ensures I.HasLiveTaken(T.Analyzed(ImageOf(prog), seeds), o, target)
  {
    hide *;
    DecodedOne(prog, seeds, o, inst, s);
    NextOffset(o);
    var base := s.track.known[m];
    var loaded := prog.w.peek(Add64(base.value, inst.ops[1].disp), base.relative, 8);
    LoadTakes(prog.w, s.track, inst, o, o + SIZE, n, m);
    TakenHasXRef(prog, seeds, o, inst, s, Address(loaded.value, false), target);
  }

  lemma LoadTakes(w: World, t: Track, inst: Instruction, offset: u64, next: u64, n: index, m: index)
    requires WellFormed(inst) && inst.cmd == Ldr && |inst.ops| == 2
    requires IsX(inst.ops[0], n) && inst.ops[1].Memory? && inst.ops[1].base == X(m) && inst.ops[1].kind == UnsignedOffset
    requires m in t.known
    ensures var base := t.known[m];
            var loaded := w.peek(Add64(base.value, inst.ops[1].disp), base.relative, 8);
            loaded.Read? && loaded.value != 0 ==> Taken(Address(loaded.value, false)) in TrackArm64(w, t, inst, offset, next).events
  {
    assert !inst.call && !inst.unsupported;
    FlagsKeepKnown(t, inst);
    hide TrackFlags, Add64, WellFormed, SetValue, Drop;
  }

  /** Data: whatever is accessed through a known base has a live data xref. */
  lemma AccessIsReferredTo(prog: Program, seeds: seq<R.Seed<Session>>, o: nat, inst: Instruction, s: Session, address: Address)
    requires IsInstruction(prog, seeds, o, inst, s) && WellFormed(inst) && !inst.unsupported && !inst.call
    requires HasKnownAccess(s.track, inst.ops, address)
    requires match prog.place(address)
             case Inside(offset) => true
             case External(v) => prog.minimalExternal == 0 || prog.minimalExternal <= v
             case Nowhere => false
    ensures var ow := T.Analyzed(ImageOf(prog), seeds);
            exists i | 0 <= i < |ow.xrefs| ::
              !ow.xrefs[i].invalid &&
              match prog.place(address)
              case Inside(offset) => S.IsOutsideRef(ow, ow.xrefs[i], o, offset, false, true, false, true)
              case External(v) => S.IsOutsideRef(ow, ow.xrefs[i], o, v, true, true, false, true)
              case Nowhere => false
  {
    hide HasKnownAccess, TrackArm64, T.Analyzed, DecodeOne, WellFormed;
    DecodedOne(prog, seeds, o, inst, s);
    DataExactly(prog.w, s.track, inst, o, o + SIZE, address);
    var after := Session(s.track, BoundsAfter(prog, o, s));
    var a := match prog.place(address)
      case Inside(offset) => R.ReadData(offset)
      case External(v) => R.Action<Session>.External(v, true, true, false);
    assert a in EventAction(prog, after, Data(address));
    EventsAreActions(prog, o, s, inst, Data(address), a);
    assert a.External? ==> !R.IsSkippedExternal(ImageOf(prog), a.address);
    hide EventAction, BoundsAfter, ImageOf;
    T.OutsideReferencesAreKept(ImageOf(prog), seeds, o, a);
  }

  // ------------------------------------------------------------------ jumps

  lemma IndirectIsAction(prog: Program, o: nat, s: Session, inst: Instruction, a: R.Action<Session>)
    requires Fits64(o) && a in IndirectActions(prog, o, s)
    ensures a in DecodeOne(prog, o, s, inst).actions
  {
    hide TrackArm64, EventActions, IndirectActions, DirectActions, BoundsAfter;
  }

  /** An offset of the module at an instruction address. */
  predicate IsTarget(prog: Program, target: nat) {
    target < prog.maxOffset && (prog.w.imageBase + target) % 4 == 0
  }

  lemma JumpHasEntry(prog: Program, seeds: seq<R.Seed<Session>>, o: nat, inst: Instruction, s: Session, target: nat,
                     entry: Session)
    requires IsInstruction(prog, seeds, o, inst, s) && IsTarget(prog, target) && Fits64(o)
    requires R.Jump(target, entry) in DecodeOne(prog, o, s, inst).actions
    ensures target in T.Analyzed(ImageOf(prog), seeds).slots
  {
    hide T.Analyzed, DecodeOne;
    DecodedOne(prog, seeds, o, inst, s);
    T.WorklistIsClosed(ImageOf(prog), seeds, o);
  }

  /** br Xn with Xn known: where it leads has an entry. */
  lemma KnownJumpHasEntry(prog: Program, seeds: seq<R.Seed<Session>>, o: nat, inst: Instruction, s: Session, n: index, target: nat)
    requires IsInstruction(prog, seeds, o, inst, s) && prog.jumps(o) == Some(X(n)) && !IsTableJump(s.track, X(n))
    requires n in s.track.known && prog.place(s.track.known[n]) == Inside(target) && IsTarget(prog, target)
    ensures target in T.Analyzed(ImageOf(prog), seeds).slots
  {
    hide T.Analyzed, DecodeOne, IsInstruction;
    DecodedOne(prog, seeds, o, inst, s);
    var entry := Session(Unbounded(s.bounds), s.bounds);
    assert R.Jump(target, entry) in IndirectActions(prog, o, s);
    IndirectIsAction(prog, o, s, inst, R.Jump(target, entry));
    JumpHasEntry(prog, seeds, o, inst, s, target, entry);
  }

  /** Everything up to entry `k` can be read. */
  predicate CanBeRead(prog: Program, table: Table, k: nat) {
    k < table.count && k < 0x4000 && forall j | 0 <= j <= k :: IsReadable(prog.w, table, j)
  }

  /** Two entries with the same target are placed together: the observer does not look at the base. */
  ghost predicate PlacesByValue(prog: Program, table: Table) {
    forall j, k | 0 <= j < table.count && 0 <= k < table.count && TargetAt(prog.w, table, j).value == TargetAt(prog.w, table, k).value ::
      prog.place(TargetAt(prog.w, table, j)) == prog.place(TargetAt(prog.w, table, k))
  }

  lemma {:induction false} TableIsActed(prog: Program, s: Session, table: Table, i: nat, k: nat, target: nat)
    requires i <= k && CanBeRead(prog, table, k) && prog.place(TargetAt(prog.w, table, k)) == Inside(target)
    requires PlacesByValue(prog, table)
    requires 0 < i && prog.place(TargetAt(prog.w, table, i - 1)) == Inside(target) ==>
               R.Jump(target, Session(Unbounded(s.bounds), s.bounds)) in JumpAction(prog, s, TargetAt(prog.w, table, i - 1))
    ensures R.Jump(target, Session(Unbounded(s.bounds), s.bounds)) in TableActions(prog, s, table, i)
            || (0 < i && prog.place(TargetAt(prog.w, table, i - 1)) == Inside(target))
    decreases k - i
  {
    hide IsReadable, TargetAt;
    if i < k {
      TableIsActed(prog, s, table, i + 1, k, target);
    }
  }

  /** br through a tracked table: the target of every entry that can be read has an entry, up to the first that cannot. */
  lemma TableJumpHasEntries(prog: Program, seeds: seq<R.Seed<Session>>, o: nat, inst: Instruction, s: Session, reg: Reg, k: nat,
                            target: nat)
    requires IsInstruction(prog, seeds, o, inst, s) && prog.jumps(o) == Some(reg) && IsTableJump(s.track, reg)
    requires CanBeRead(prog, s.track.table.value, k) && PlacesByValue(prog, s.track.table.value)
    requires prog.place(TargetAt(prog.w, s.track.table.value, k)) == Inside(target) && IsTarget(prog, target)
    ensures target in T.Analyzed(ImageOf(prog), seeds).slots
  {
    hide T.Analyzed, DecodeOne, IsInstruction, CanBeRead, PlacesByValue, TableActions;
    DecodedOne(prog, seeds, o, inst, s);
    var entry := Session(Unbounded(s.bounds), s.bounds);
    TableIsActed(prog, s, s.track.table.value, 0, k, target);
    IndirectIsAction(prog, o, s, inst, R.Jump(target, entry));
    JumpHasEntry(prog, seeds, o, inst, s, target, entry);
  }

  /** A branch: its target has an entry, and the route to it is entered with nothing known but the bound of the branch. */
  lemma BranchHasEntry(prog: Program, seeds: seq<R.Seed<Session>>, o: nat, inst: Instruction, s: Session, target: nat)
    requires IsInstruction(prog, seeds, o, inst, s) && Branch(target) in prog.direct(o) && IsTarget(prog, target)
    ensures target in T.Analyzed(ImageOf(prog), seeds).slots
    ensures Fits64(o)
    ensures R.Jump(target, Session(Reset(RouteBound(s.bounds, s.track, inst)), s.bounds)) in DecodeOne(prog, o, s, inst).actions
  {
    hide T.Analyzed, IsInstruction, IndirectActions, EventActions, TrackArm64, RouteBound;
    DecodedOne(prog, seeds, o, inst, s);
    var k :| 0 <= k < |prog.direct(o)| && prog.direct(o)[k] == Branch(target);
    var entry := Session(Reset(RouteBound(s.bounds, s.track, inst)), s.bounds);
    assert DirectActions(s, inst, prog.direct(o))[k] == R.Jump(target, entry);
    JumpHasEntry(prog, seeds, o, inst, s, target, entry);
  }

  /** What is known after an instruction is what the next one is decoded with. */
  lemma NextIsTracked(prog: Program, o: nat, s: Session, inst: Instruction, strict: bool)
    requires prog.code(o) == Some(inst) && o < prog.maxOffset && Fits64(o)
    ensures var out := ImageOf(prog).decode(o, s, strict);
            && out.Good? && out.size == 4 && out.next.track == TrackArm64(prog.w, s.track, inst, o, o + 4).track
            && (out.stops <==> prog.stops(o))
    ensures ImageOf(prog).isArm && ImageOf(prog).align(s) == 4
  {
    hide TrackArm64;
  }

  /** The bound that the session keeps for the next route: none after a branch or a jump into the module, what it was after
      anything else, a jump table included. A popped route leaves it alone. */
  lemma SessionGoesOn(prog: Program, o: nat, s: Session, inst: Instruction, strict: bool, popped: Session)
    requires prog.code(o) == Some(inst) && o < prog.maxOffset && Fits64(o)
    ensures var out := ImageOf(prog).decode(o, s, strict);
            var branches := exists k | 0 <= k < |prog.direct(o)| :: prog.direct(o)[k].Branch?;
            var leads := match prog.jumps(o)
              case Some(X(n)) => !IsTableJump(s.track, X(n)) && n in s.track.known && prog.place(s.track.known[n]).Inside?
              case _ => false;
            && out.Good?
            && (branches || leads ==> out.next.bounds == RouteBounds(None, 0))
            && (!branches && (prog.jumps(o) == None || (prog.jumps(o).value.X? && !leads)) ==> out.next.bounds == s.bounds)
    ensures ImageOf(prog).resume(s, popped) == Session(popped.track, s.bounds)
  {
    hide TrackArm64, TableActions, EventActions, DirectActions;
  }
}
