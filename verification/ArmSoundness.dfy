/** The tracked registers are sound: whatever the tracker says of a register is true of the machine. */
module ArmSoundness {
  import opened Wrappers
  import opened Words
  import opened ArmMachine
  import opened ArmTracking

  // ------------------------------------------------------------------ what the tracker says

  function ConcreteOf(w: World, a: Address): u64 {
    Concrete(w, a.value, a.relative)
  }

  ghost predicate KnownAgree(w: World, t: Track, c: machine) {
    forall i: index | i in t.known :: c.x[i] == ConcreteOf(w, t.known[i])
  }

  /** The flags are those of comparing the register with the immediate. */
  ghost predicate CompareAgrees(t: Track, c: machine) {
    t.cmpReg.Some? ==> t.cmpImm < 4096 && c.flags == CompareFlags(c.x[t.cmpReg.value], t.cmpImm, t.cmpWide)
  }

  function AtWidth(v: u64, wide: bool): u64 {
    if wide then v else Low32(v)
  }

  ghost predicate IsBelow(b: Bound, c: machine) {
    b.count <= 4096 && (b.count != 0 && b.exact ==> b.reg.Some? && AtWidth(c.x[b.reg.value], b.wide) < b.count)
  }

  function BoundOf(t: Track): Bound {
    Bound(t.boundReg, t.boundCount, t.boundWide, t.boundExact)
  }

  /** What the register of a table holds for entry `k`. */
  function TableValue(w: World, table: Table, k: nat): u64 {
    var entry := SignedEntry(w.read(ConcreteOf(w, EntryAddress(table, k)), table.entrySize), table.entrySize, table.signed);
    if table.stage == 1 then entry
    else Add64(ConcreteOf(w, table.base), Shl64(Extended(entry, table.extend), table.shift))
  }

  ghost predicate InTable(w: World, table: Table, v: u64) {
    exists k | 0 <= k < table.count :: v == TableValue(w, table, k)
  }

  ghost predicate TableAgrees(w: World, t: Track, c: machine) {
    t.table.Some? ==>
      var table := t.table.value;
      && table.count <= 4096 && table.entrySize in {1, 2, 4, 8} && table.stage in {1, 2}
      && (table.exact ==> InTable(w, table, c.x[table.reg]))
  }

  ghost predicate Agrees(w: World, t: Track, c: machine) {
    KnownAgree(w, t, c) && CompareAgrees(t, c) && IsBelow(BoundOf(t), c) && TableAgrees(w, t, c)
  }

  // ------------------------------------------------------------------ forgetting and setting

  lemma ForgetAgrees(w: World, t: Track, mask: set<index>, a: machine, b: machine)
    requires Agrees(w, t, a)
    requires forall i: index :: i !in mask ==> b.x[i] == a.x[i]
    requires t.cmpReg.Some? ==> b.flags == a.flags
    ensures Agrees(w, Forget(t, mask), b)
  {
  }

  lemma SetAgrees(w: World, t: Track, reg: Reg, value: Address, a: machine, b: machine)
    requires Agrees(w, t, a)
    requires forall i: index :: RegisterIndex(reg) != Some(i) ==> b.x[i] == a.x[i]
    requires RegisterIndex(reg).Some? ==> b.x[RegisterIndex(reg).value] == ConcreteOf(w, value)
    requires t.cmpReg.Some? ==> b.flags == a.flags
    ensures Agrees(w, SetValue(t, reg, value), b)
  {
    var i := RegisterIndex(reg);
    if i.Some? {
      ForgetAgrees(w, t, {i.value}, a, b);
    } else {
      ForgetAgrees(w, t, {}, a, b);
      assert t.known - {} == t.known;
    }
  }

  lemma DropAgrees(w: World, t: Track, reg: Reg, a: machine, b: machine)
    requires Agrees(w, t, a)
    requires forall i: index :: RegisterIndex(reg) != Some(i) ==> b.x[i] == a.x[i]
    requires t.cmpReg.Some? ==> b.flags == a.flags
    ensures Agrees(w, Drop(t, reg), b)
  {
    var i := RegisterIndex(reg);
    ForgetAgrees(w, t, if i.Some? then {i.value} else {}, a, b);
    assert t.known - {} == t.known;
  }

  // ------------------------------------------------------------------ bounds

  /** Where an unsigned condition after a compare holds (or does not), the register is below the count. */
  lemma CompareBoundIsExact(t: Track, cond: nat, holds: bool, c: machine)
    requires CompareAgrees(t, c) && CompareBound(t, cond, holds).Some? && Holds(cond, c.flags) == holds
    ensures IsBelow(CompareBound(t, cond, holds).value, c)
  {
  }

  /** A signed condition bounds the register exactly when the register is not negative at the compared width. */
  lemma SignedBoundExactlyWhenNonNegative(t: Track, cond: nat, holds: bool, c: machine)
    requires CompareAgrees(t, c) && CompareBound(t, cond, holds).Some? && Holds(cond, c.flags) == holds
    requires !CompareBound(t, cond, holds).value.exact
    ensures var v := AtWidth(c.x[t.cmpReg.value], t.cmpWide);
            var top := if t.cmpWide then TWO64 / 2 else TWO32 / 2;
            v < CompareBound(t, cond, holds).value.count <==> v < top
  {
  }

  /** b.gt falls through for a register that is negative: the count says it is at most 5. */
  lemma SignedBoundFails()
    ensures var t := Reset(NoBound).(cmpReg := Some(0), cmpImm := 5, cmpWide := true);
            var c := Cpu(seq(31, i => TWO64 - 1), CompareFlags(TWO64 - 1, 5, true));
            && CompareAgrees(t, c) && !Holds(12, c.flags)
            && CompareBound(t, 12, false) == Some(Bound(Some(0), 6, true, false)) && !(c.x[0] < 6)
  {
  }

  lemma TrackFlagsAgrees(w: World, t: Track, inst: Instruction, offset: u64, next: u64, a: machine, b: machine)
    requires Agrees(w, t, a) && WellFormed(inst) && FallsThrough(w, inst, offset, next, a, b)
    ensures Agrees(w, TrackFlags(t, inst), a)
    ensures TrackFlags(t, inst).cmpReg.Some? ==> b.flags == a.flags
  {
    var bound := BranchBound(t, inst, false);
    if bound.Some? {
      CompareBoundIsExact(t, inst.ops[1].cond, false, a);
    }
  }

  /** The route to the target of a taken branch starts from a state that meets what is exact of its bound. */
  lemma RouteStartAgrees(w: World, s: RouteBounds, t: Track, inst: Instruction, a: machine, b: machine)
    requires Agrees(w, t, a) && BranchTaken(inst, a, b) && s.count == 0
    ensures Agrees(w, Reset(RouteBound(s, t, inst)), b)
  {
    if BranchBound(t, inst, true).Some? {
      CompareBoundIsExact(t, inst.ops[1].cond, true, a);
    }
  }

  /** What a bound says, exact or not: no register, or a zero count, says nothing. */
  predicate IsTrueOf(b: Bound, c: machine) {
    b.count != 0 && b.reg.Some? ==> AtWidth(c.x[b.reg.value], b.wide) < b.count
  }

  predicate IsNonNegative(v: u64, wide: bool) {
    AtWidth(v, wide) < (if wide then TWO64 / 2 else TWO32 / 2)
  }

  /** When the bound of a route is true where the branch is taken: always after lo and ls; after lt and le when the
      register is not negative; after hi, hs, gt and ge, which give no bound, when there is no count, when the branch is
      not the first in-module one of the session, or when X0 happens to be below the count. */
  lemma StartBoundHoldsExactly(s: RouteBounds, t: Track, inst: Instruction, a: machine)
    requires CompareAgrees(t, a) && BranchTaken(inst, a, a) && s in {FirstBounds, LaterBounds}
    ensures var cond := inst.ops[1].cond;
            var count := WrittenCount(t, cond);
            IsTrueOf(RouteBound(s, t, inst), a) <==>
            (|| count.None? || count.value == 0 || cond in {3, 9}
             || (cond in {11, 13} && IsNonNegative(a.x[t.cmpReg.value], t.cmpWide))
             || (cond in {2, 8, 10, 12} && (s == LaterBounds || AtWidth(a.x[0], t.cmpWide) < count.value)))
  {
    var cond := inst.ops[1].cond;
    if BranchBound(t, inst, true).Some? {
      if cond in {3, 9} {
        CompareBoundIsExact(t, cond, true, a);
      } else {
        SignedBoundExactlyWhenNonNegative(t, cond, true, a);
      }
    }
  }

  /** cmp w0, #imm; b.hi as the first in-module branch of a session: the route is told the opposite of what holds. */
  lemma FirstBranchAboveIsWrong(t: Track, inst: Instruction, a: machine)
    requires CompareAgrees(t, a) && BranchTaken(inst, a, a) && inst.ops[1].cond == 8 && t.cmpReg == Some(0)
    ensures RouteBound(FirstBounds, t, inst) == Bound(Some(0), t.cmpImm + 1, t.cmpWide, false)
    ensures !IsTrueOf(RouteBound(FirstBounds, t, inst), a)
  {
  }

  /** cmp w1, #5; b.hi as the first branch, with 100 in X0: the route starts with X0 below 6, and ldrb w2, [x2, w0,
      uxtw] on it begins a table of 6 entries although it loads entry 100. */
  lemma FirstBranchBoundFails(a: machine, table: Address)
    requires a.x[0] == 100 && a.x[1] == 6 && a.flags == CompareFlags(6, 5, false)
    ensures var t := Reset(NoBound).(cmpReg := Some(1), cmpImm := 5);
            var branch := Instruction(BCond, [Rel(0), Cond(8)], true, false, false);
            var bound := RouteBound(FirstBounds, t, branch);
            var load := Instruction(Ldrb, [Register(W(2), 4), Memory(X(2), W(0), 0, RegisterOffset, false, UXTW, false, 0)],
                                    false, false, false);
            var u := Reset(bound).(known := map[2 := table]);
            && CompareAgrees(t, a) && BranchTaken(branch, a, a)
            && bound.reg == Some(0) && bound.count == 6 && !IsTrueOf(bound, a)
            && IsTableLoad(u, load) && LoadTable(u, load).track.table.value.count == 6
            && IndexValue(a.x[0], W(0), UXTW) == 100
  {
  }

  /** Every condition but always has a taken and a fall-through execution, whatever is in the registers. */
  lemma BranchesGoBothWays(w: World, cond: nat, offset: u64, next: u64, c: machine)
    requires cond < 14
    ensures var branch := Instruction(BCond, [Rel(0), Cond(cond)], true, false, false);
            && WellFormed(branch)
            && (exists f: Flags :: BranchTaken(branch, Cpu(c.x, f), Cpu(c.x, f)))
            && (exists f: Flags :: FallsThrough(w, branch, offset, next, Cpu(c.x, f), Cpu(c.x, f)))
  {
    var branch := Instruction(BCond, [Rel(0), Cond(cond)], true, false, false);
    var up, down := Flags(true, true, true, false), Flags(false, false, false, false);
    var over := Flags(false, false, true, true);
    assert Holds(cond, up) || Holds(cond, down) || Holds(cond, over);
    assert !Holds(cond, up) || !Holds(cond, down) || !Holds(cond, over);
    assert forall f: Flags | Holds(cond, f) :: BranchTaken(branch, Cpu(c.x, f), Cpu(c.x, f));
    assert forall f: Flags | !Holds(cond, f) :: FallsThrough(w, branch, offset, next, Cpu(c.x, f), Cpu(c.x, f));
  }

  // ------------------------------------------------------------------ the instructions that are known

  /** What is left of FallsThrough once the flags are tracked. */
  ghost predicate Continues(w: World, u: Track, inst: Instruction, offset: u64, next: u64, a: machine, b: machine) {
    && Agrees(w, u, a) && WellFormed(inst) && FallsThrough(w, inst, offset, next, a, b)
    && (u.cmpReg.Some? ==> b.flags == a.flags)
  }

  lemma CompareTracked(w: World, u: Track, inst: Instruction, offset: u64, next: u64, a: machine, b: machine)
    requires Continues(w, u, inst, offset, next, a, b) && IsCompare(inst)
    ensures Agrees(w, TrackValues(w, u, inst, offset, next).track, b)
  {
    assert forall i: index :: b.x[i] == a.x[i];
  }

  lemma ModuleAddressIsConcrete(w: World, offset: u64)
    requires Loaded(w)
    ensures ConcreteOf(w, ModuleAddress(w, offset)) == AddressOf(w, offset)
  {
  }

  /** A page of the module is a page of the process. */
  lemma PageIsConcrete(w: World, offset: u64, page: u64)
    requires Loaded(w)
    ensures var base := ModuleAddress(w, offset);
            ConcreteOf(w, Address(Add64(PageOf(base.value), page), base.relative)) == Add64(PageOf(AddressOf(w, offset)), page)
  {
    if w.relative {
      Add64Associative(w.loadBase, PageOf(offset), page);
      PageOfSum(w.loadBase, offset);
    }
  }

  lemma PageOfSum(base: u64, offset: u64)
    requires base % 4096 == 0
    ensures PageOf(Add64(base, offset)) == Add64(base, PageOf(offset))
  {
  }

  ghost predicate IsDestination(inst: Instruction, reg: Reg) {
    forall i: index :: MayWrite(inst, i) ==> RegisterIndex(reg) == Some(i)
  }

  function DestinationOf(op: Operand): Reg {
    match op case Register(r, _) => r case Shifted(r, _, _, _) => r case _ => NoReg
  }

  /** A known instruction without writeback writes its first operand only. */
  lemma FirstOperandOnly(inst: Instruction)
    requires WellFormed(inst) && inst.cmd in {Adr, Adrp, Add, Orr, Ldr, Ldrb, Ldrh, Ldrsb, Ldrsh, Ldrsw} && |inst.ops| >= 1
    requires inst.ops[0].Register? || inst.ops[0].Shifted?
    requires forall k | 0 < k < |inst.ops| && inst.ops[k].Memory? :: !inst.ops[k].writeback
    ensures IsDestination(inst, DestinationOf(inst.ops[0]))
  {
  }

  lemma KeepsOthers(w: World, u: Track, inst: Instruction, offset: u64, next: u64, a: machine, b: machine, reg: Reg)
    requires Continues(w, u, inst, offset, next, a, b) && IsDestination(inst, reg)
    ensures forall i: index :: RegisterIndex(reg) != Some(i) ==> b.x[i] == a.x[i]
  {
  }

  /** A register operand of 8 bytes with a known value is an X register, and holds it. */
  lemma KnownOperand(w: World, u: Track, inst: Instruction, a: machine, k: nat, reg: Reg, size: nat)
    requires Agrees(w, u, a) && WellFormed(inst) && k < |inst.ops|
    requires (inst.ops[k].Register? && inst.ops[k].reg == reg && inst.ops[k].size == size)
             || (inst.ops[k].Shifted? && inst.ops[k].reg == reg && inst.ops[k].size == size)
    requires GetValue(u, reg, size).Some?
    ensures reg.X? && a.x[reg.n] == ConcreteOf(w, GetValue(u, reg, size).value)
  {
    assert inst.ops[k] in inst.ops;
  }

  lemma AdrTracked(w: World, u: Track, inst: Instruction, offset: u64, next: u64, a: machine, b: machine)
    requires Loaded(w) && Continues(w, u, inst, offset, next, a, b)
    requires inst.cmd == Adr && |inst.ops| == 2 && inst.ops[1].Rel?
    ensures Agrees(w, TrackValues(w, u, inst, offset, next).track, b)
  {
    var reg := inst.ops[0].reg;
    FirstOperandOnly(inst);
    KeepsOthers(w, u, inst, offset, next, a, b, reg);
    ModuleAddressIsConcrete(w, Add64(next, inst.ops[1].offset));
    SetAgrees(w, u, reg, ModuleAddress(w, Add64(next, inst.ops[1].offset)), a, b);
  }

  lemma AdrpTracked(w: World, u: Track, inst: Instruction, offset: u64, next: u64, a: machine, b: machine)
    requires Loaded(w) && Continues(w, u, inst, offset, next, a, b)
    requires inst.cmd == Adrp && |inst.ops| == 2 && inst.ops[1].Special?
    ensures Agrees(w, TrackValues(w, u, inst, offset, next).track, b)
  {
    var reg := inst.ops[0].reg;
    FirstOperandOnly(inst);
    KeepsOthers(w, u, inst, offset, next, a, b, reg);
    if w.baseUnknown {
      DropAgrees(w, u, reg, a, b);
    } else {
      var base := ModuleAddress(w, offset);
      PageIsConcrete(w, offset, inst.ops[1].page);
      SetAgrees(w, u, reg, Address(Add64(PageOf(base.value), inst.ops[1].page), base.relative), a, b);
    }
  }

  lemma AddImmediate(w: World, inst: Instruction, offset: u64, next: u64, a: machine, b: machine)
    requires WellFormed(inst) && FallsThrough(w, inst, offset, next, a, b)
    requires inst.cmd == Add && |inst.ops| == 3 && inst.ops[2].Imm? && inst.ops[0].Register? && inst.ops[0].size == 8
    requires inst.ops[1].Register? && inst.ops[1].reg.X?
    ensures inst.ops[0].reg.X? ==>
              b.x[inst.ops[0].reg.n] == Add64(a.x[inst.ops[1].reg.n], Shl64(inst.ops[2].value, inst.ops[2].shift))
    ensures !inst.ops[0].reg.W?
  {
    assert inst.ops[0] in inst.ops;
  }

  lemma ConcreteSum(w: World, base: Address, added: u64)
    ensures ConcreteOf(w, Address(Add64(base.value, added), base.relative)) == Add64(ConcreteOf(w, base), added)
  {
    Add64Associative(w.loadBase, base.value, added);
  }

  lemma AddTracked(w: World, u: Track, inst: Instruction, offset: u64, next: u64, a: machine, b: machine)
    requires Continues(w, u, inst, offset, next, a, b)
    requires inst.cmd == Add && |inst.ops| == 3 && inst.ops[2].Imm? && inst.ops[0].Register? && inst.ops[0].size == 8
    requires inst.ops[1].Register? && GetValue(u, inst.ops[1].reg, inst.ops[1].size).Some?
    ensures var base := GetValue(u, inst.ops[1].reg, inst.ops[1].size).value;
            var value := Address(Add64(base.value, Shl64(inst.ops[2].value, inst.ops[2].shift)), base.relative);
            && Agrees(w, SetValue(u, inst.ops[0].reg, value), b) && inst.ops[1].reg.X?
            && ConcreteOf(w, value) == Add64(a.x[inst.ops[1].reg.n], Shl64(inst.ops[2].value, inst.ops[2].shift))
  {
    var reg := inst.ops[0].reg;
    KnownOperand(w, u, inst, a, 1, inst.ops[1].reg, inst.ops[1].size);
    FirstOperandOnly(inst);
    KeepsOthers(w, u, inst, offset, next, a, b, reg);
    AddImmediate(w, inst, offset, next, a, b);
    var base := GetValue(u, inst.ops[1].reg, inst.ops[1].size).value;
    var added := Shl64(inst.ops[2].value, inst.ops[2].shift);
    ConcreteSum(w, base, added);
    hide FallsThrough, WellFormed, Shl64, Agrees, IsDestination;
    SetAgrees(w, u, reg, Address(Add64(base.value, added), base.relative), a, b);
  }

  lemma MoveTracked(w: World, u: Track, inst: Instruction, offset: u64, next: u64, a: machine, b: machine)
    requires Continues(w, u, inst, offset, next, a, b)
    requires inst.cmd == Orr && |inst.ops| == 3 && inst.ops[1].Register? && inst.ops[1].reg == XZR
    requires inst.ops[2].Shifted? && inst.ops[2].amount == 0 && inst.ops[0].Register?
    ensures Agrees(w, TrackValues(w, u, inst, offset, next).track, b)
  {
    var reg := inst.ops[0].reg;
    FirstOperandOnly(inst);
    KeepsOthers(w, u, inst, offset, next, a, b, reg);
    match GetValue(u, inst.ops[2].reg, inst.ops[2].size)
    case Some(value) =>
      KnownOperand(w, u, inst, a, 2, inst.ops[2].reg, inst.ops[2].size);
      SetAgrees(w, u, reg, value, a, b);
    case None => DropAgrees(w, u, reg, a, b);
  }

  lemma LoadTracked(w: World, u: Track, inst: Instruction, offset: u64, next: u64, a: machine, b: machine, address: Address)
    requires Loaded(w) && Continues(w, u, inst, offset, next, a, b)
    requires inst.cmd == Ldr && |inst.ops| == 2
    requires inst.ops[1].Memory? && !inst.ops[1].writeback
    requires inst.ops[0].Register? && inst.ops[0].reg.X? ==> b.x[inst.ops[0].reg.n] == w.read(ConcreteOf(w, address), 8)
    ensures Agrees(w, LoadValue(w, u, inst.ops[0], address).track, b)
    ensures forall e | e in LoadValue(w, u, inst.ops[0], address).events ::
              e.Taken? && ConcreteOf(w, e.address) == w.read(ConcreteOf(w, address), 8)
  {
    var reg := DestinationOf(inst.ops[0]);
    FirstOperandOnly(inst);
    KeepsOthers(w, u, inst, offset, next, a, b, reg);
    var loaded := w.peek(address.value, address.relative, 8);
    if inst.ops[0].Register? && reg.X? && loaded.Read? && loaded.value != 0 {
      SetAgrees(w, u, reg, Address(loaded.value, false), a, b);
    } else {
      DropAgrees(w, u, reg, a, b);
    }
  }

  // ------------------------------------------------------------------ everything else: the named registers are dropped

  function NamedBy(op: Operand): set<index> {
    var reg := match op
      case Register(r, _) => r
      case Shifted(r, _, _, _) => r
      case Memory(base, _, _, _, writeback, _, _, _) => if writeback then base else NoReg
      case _ => NoReg;
    match RegisterIndex(reg) case Some(i) => {i} case None => {}
  }

  function Named(ops: seq<Operand>): set<index> {
    if |ops| == 0 then {} else NamedBy(ops[0]) + Named(ops[1..])
  }

  lemma {:induction false} NamedHas(ops: seq<Operand>, k: nat, i: index)
    requires k < |ops| && IsNamed(ops[k], i)
    ensures i in Named(ops)
  {
    if k != 0 {
      NamedHas(ops[1..], k - 1, i);
    }
  }

  lemma ForgetTwice(t: Track, m: set<index>, n: set<index>)
    ensures Forget(Forget(t, m), n) == Forget(t, m + n)
  {
    assert t.known - m - n == t.known - (m + n);
  }

  lemma ForgetNothing(t: Track)
    ensures Forget(t, {}) == t
  {
    assert t.known - {} == t.known;
  }

  lemma {:induction false} DropNamedForgets(t: Track, ops: seq<Operand>)
    ensures DropNamed(t, ops) == Forget(t, Named(ops))
    decreases |ops|
  {
    ForgetNothing(t);
    if |ops| != 0 {
      var u := Forget(t, NamedBy(ops[0]));
      DropNamedForgets(u, ops[1..]);
      ForgetTwice(t, NamedBy(ops[0]), Named(ops[1..]));
    }
  }

  lemma OtherTracked(w: World, u: Track, inst: Instruction, offset: u64, next: u64, a: machine, b: machine)
    requires Continues(w, u, inst, offset, next, a, b) && !inst.unsupported && !inst.call
    ensures Agrees(w, DropNamed(u, inst.ops), b)
  {
    DropNamedForgets(u, inst.ops);
    forall i: index | i !in Named(inst.ops)
      ensures b.x[i] == a.x[i]
    {
      if MayWrite(inst, i) {
        var k :| 0 <= k < |inst.ops| && WritesOperand(inst, k) && IsNamed(inst.ops[k], i);
        NamedHas(inst.ops, k, i);
      }
    }
    ForgetAgrees(w, u, Named(inst.ops), a, b);
  }

  lemma ForgetTracked(w: World, u: Track, inst: Instruction, offset: u64, next: u64, a: machine, b: machine)
    requires Continues(w, u, inst, offset, next, a, b) && (inst.unsupported || inst.call)
    ensures Agrees(w, Forget(u, if inst.unsupported then AllRegisters() else CallerSaved()), b)
  {
    ForgetAgrees(w, u, if inst.unsupported then AllRegisters() else CallerSaved(), a, b);
  }

  // ------------------------------------------------------------------ jump tables

  /** The scaled index is the distance of the entry. */
  lemma ScaledIndex(k: nat, size: nat)
    requires k < 4096 && size in {1, 2, 4, 8}
    ensures Shl64(k, Log2(size)) == k * size % TWO64 == k * size
  {
    assert Pow2(0) == 1 && Pow2(1) == 2;
    assert Pow2(2) == 2 * Pow2(1) && Pow2(3) == 2 * Pow2(2);
  }

  /** A bounded index is what the load uses. */
  lemma BoundedIndex(u: Track, inst: Instruction, c: machine)
    requires IsTableLoad(u, inst) && IsExactTable(u, inst) && IsBelow(BoundOf(u), c)
    ensures var i := RegisterIndex(inst.ops[1].indexed);
            i.Some? && IndexValue(c.x[i.value], inst.ops[1].indexed, inst.ops[1].extend) < u.boundCount
  {
  }

  lemma TableLoadWrites(w: World, inst: Instruction, offset: u64, next: u64, a: machine, b: machine)
    requires FallsThrough(w, inst, offset, next, a, b) && !inst.unsupported && !inst.call
    requires IsLoad(inst.cmd) && |inst.ops| == 2 && inst.ops[0].Register? && (inst.ops[0].reg.X? || inst.ops[0].reg.W?)
    requires inst.ops[1].Memory? && inst.ops[1].base.X? && inst.ops[1].kind == RegisterOffset
    requires inst.ops[1].indexed.X? || inst.ops[1].indexed.W?
    ensures var index := IndexValue(a.x[inst.ops[1].indexed.n], inst.ops[1].indexed, inst.ops[1].extend);
            b.x[inst.ops[0].reg.n] ==
            Loaded64(inst.cmd, inst.ops[0].reg,
                     w.read(Add64(a.x[inst.ops[1].base.n], Shl64(index, inst.ops[1].amount)), LoadSize(inst.cmd, inst.ops[0])))
  {
  }

  lemma TableShape(w: World, u: Track, inst: Instruction, a: machine)
    requires Agrees(w, u, a) && WellFormed(inst) && IsTableLoad(u, inst)
    ensures var base := inst.ops[1].base;
            && base.X? && a.x[base.n] == ConcreteOf(w, GetValue(u, base, 8).value) == ConcreteOf(w, LoadTable(u, inst).track.table.value.address)
            && (inst.ops[0].reg.X? || inst.ops[0].reg.W?) && !inst.ops[1].writeback
            && LoadSize(inst.cmd, inst.ops[0]) in {1, 2, 4, 8}
            && !inst.unsupported && !inst.call
            && u.boundCount <= 4096
            && inst.ops[1].amount == Log2(LoadSize(inst.cmd, inst.ops[0]))
  {
    assert inst.ops[0] in inst.ops && inst.ops[1] in inst.ops;
  }

  /** The register holds the entry that the index selects. */
  lemma LoadedEntry(w: World, u: Track, inst: Instruction, offset: u64, next: u64, a: machine, b: machine)
    requires Continues(w, u, inst, offset, next, a, b) && IsTableLoad(u, inst) && IsExactTable(u, inst)
    ensures InTable(w, LoadTable(u, inst).track.table.value, b.x[RegisterIndex(inst.ops[0].reg).value])
  {
    TableShape(w, u, inst, a);
    BoundedIndex(u, inst, a);
    TableLoadWrites(w, inst, offset, next, a, b);
    var table := LoadTable(u, inst).track.table.value;
    var k := IndexValue(a.x[inst.ops[1].indexed.n], inst.ops[1].indexed, inst.ops[1].extend);
    ScaledIndex(k, table.entrySize);
    ConcreteSum(w, table.address, k * table.entrySize % TWO64);
    hide FallsThrough, WellFormed, Agrees, IsTableLoad, IndexValue, Shl64, Add64, SignExtend, ConcreteOf;
    assert b.x[RegisterIndex(inst.ops[0].reg).value] == TableValue(w, table, k);
  }

  lemma TableLoadTracked(w: World, u: Track, inst: Instruction, offset: u64, next: u64, a: machine, b: machine)
    requires Continues(w, u, inst, offset, next, a, b) && IsTableLoad(u, inst)
    ensures Agrees(w, LoadTable(u, inst).track, b)
  {
    TableShape(w, u, inst, a);
    var reg := inst.ops[0].reg;
    FirstOperandOnly(inst);
    KeepsOthers(w, u, inst, offset, next, a, b, reg);
    var i := RegisterIndex(reg).value;
    ForgetAgrees(w, u, {i}, a, b);
    if IsExactTable(u, inst) {
      LoadedEntry(w, u, inst, offset, next, a, b);
    }
  }

  lemma AddExtended(w: World, inst: Instruction, offset: u64, next: u64, a: machine, b: machine)
    requires WellFormed(inst) && FallsThrough(w, inst, offset, next, a, b)
    requires inst.cmd == Add && |inst.ops| == 3 && inst.ops[0].Register? && inst.ops[0].size == 8
    requires inst.ops[0].reg.X? || inst.ops[0].reg.W?
    requires inst.ops[1].Register? && inst.ops[1].reg.X? && inst.ops[2].Shifted?
    requires (inst.ops[2].reg.X? || inst.ops[2].reg.W?) && inst.ops[2].extend !in {LSR, ASR, ROR}
    ensures inst.ops[0].reg.X?
    ensures b.x[inst.ops[0].reg.n] ==
            Add64(a.x[inst.ops[1].reg.n], Shl64(Extended(a.x[inst.ops[2].reg.n], inst.ops[2].extend), inst.ops[2].amount))
  {
    assert inst.ops[0] in inst.ops;
  }

  lemma TableTargetTracked(w: World, u: Track, inst: Instruction, offset: u64, next: u64, a: machine, b: machine)
    requires Continues(w, u, inst, offset, next, a, b) && IsTableTarget(u, inst)
    ensures Agrees(w, TargetOfTable(u, inst), b)
  {
    var reg := inst.ops[0].reg;
    FirstOperandOnly(inst);
    KeepsOthers(w, u, inst, offset, next, a, b, reg);
    KnownOperand(w, u, inst, a, 1, inst.ops[1].reg, inst.ops[1].size);
    AddExtended(w, inst, offset, next, a, b);
    ForgetAgrees(w, u, {RegisterIndex(reg).value}, a, b);
    var table := TargetOfTable(u, inst).table.value;
    if table.exact {
      var k :| 0 <= k < table.count && a.x[u.table.value.reg] == TableValue(w, u.table.value, k);
      assert EntryAddress(table, k) == EntryAddress(u.table.value, k);
      assert b.x[table.reg] == TableValue(w, table, k);
    }
    hide FallsThrough, Shl64, Add64;
  }

  // ------------------------------------------------------------------ the references it makes

  /** An address the instruction reads or writes. */
  ghost predicate IsAccessed(w: World, inst: Instruction, next: u64, a: machine, v: u64) {
    exists k | 0 <= k < |inst.ops| :: AccessedBy(w, inst.ops[k], next, a, v)
  }

  predicate AccessedBy(w: World, op: Operand, next: u64, a: machine, v: u64) {
    op.Memory? &&
    (|| (op.base == PC && v == AddressOf(w, Add64(next, op.disp)))
     || (op.base.X? && op.kind == UnsignedOffset && v == Add64(a.x[op.base.n], op.disp)))
  }

  /** Where the table is that a load with a register offset indexes; the address it reads depends on the index. */
  predicate IsTableBase(inst: Instruction, a: machine, v: u64) {
    && |inst.ops| == 2 && inst.ops[1].Memory? && inst.ops[1].base.X? && inst.ops[1].kind == RegisterOffset
    && v == a.x[inst.ops[1].base.n]
  }

  /** A sum the instruction computes, or a pointer it loads. */
  ghost predicate IsComputed(w: World, inst: Instruction, next: u64, a: machine, v: u64) {
    || (inst.cmd == Add && |inst.ops| == 3 && inst.ops[1].Register? && inst.ops[1].reg.X? && inst.ops[2].Imm?
        && v == Add64(a.x[inst.ops[1].reg.n], Shl64(inst.ops[2].value, inst.ops[2].shift)))
    || (inst.cmd == Ldr && exists ea: u64 :: IsAccessed(w, inst, next, a, ea) && v == w.read(ea, 8))
  }

  ghost predicate IsReal(w: World, inst: Instruction, next: u64, a: machine, e: Event) {
    match e
    case Taken(address) => IsComputed(w, inst, next, a, ConcreteOf(w, address))
    case Data(address) =>
      IsAccessed(w, inst, next, a, ConcreteOf(w, address)) || IsTableBase(inst, a, ConcreteOf(w, address))
    case JumpsTo(_) => false
  }

  lemma KnownBase(w: World, u: Track, inst: Instruction, a: machine, k: nat)
    requires Agrees(w, u, a) && WellFormed(inst) && k < |inst.ops| && inst.ops[k].Memory?
    requires GetValue(u, inst.ops[k].base, 8).Some?
    ensures inst.ops[k].base.X? && a.x[inst.ops[k].base.n] == ConcreteOf(w, GetValue(u, inst.ops[k].base, 8).value)
  {
    assert inst.ops[k] in inst.ops;
  }

  lemma {:induction false} DataEventsAreReal(w: World, u: Track, inst: Instruction, next: u64, a: machine, k: nat, e: Event)
    requires Agrees(w, u, a) && WellFormed(inst) && k <= |inst.ops| && e in DataEvents(u, inst.ops[k..])
    ensures IsReal(w, inst, next, a, e)
    decreases |inst.ops| - k
  {
    if k < |inst.ops| {
      var op := inst.ops[k];
      assert inst.ops[k..][0] == op && inst.ops[k..][1..] == inst.ops[k + 1..];
      if e in DataEvents(u, inst.ops[k + 1..]) {
        DataEventsAreReal(w, u, inst, next, a, k + 1, e);
      } else {
        KnownBase(w, u, inst, a, k);
        ConcreteSum(w, GetValue(u, op.base, 8).value, op.disp);
        assert AccessedBy(w, op, next, a, ConcreteOf(w, e.address));
      }
    }
  }

  lemma LiteralLoad(w: World, inst: Instruction, offset: u64, next: u64, a: machine, b: machine)
    requires Loaded(w) && FallsThrough(w, inst, offset, next, a, b) && !inst.unsupported && !inst.call
    requires inst.cmd == Ldr && |inst.ops| == 2 && inst.ops[1].Memory? && inst.ops[1].base == PC
    ensures var address := ModuleAddress(w, Add64(next, inst.ops[1].disp));
            && ConcreteOf(w, address) == AddressOf(w, Add64(next, inst.ops[1].disp))
            && IsAccessed(w, inst, next, a, ConcreteOf(w, address))
            && (inst.ops[0].Register? && inst.ops[0].reg.X? ==> b.x[inst.ops[0].reg.n] == w.read(ConcreteOf(w, address), 8))
  {
    ModuleAddressIsConcrete(w, Add64(next, inst.ops[1].disp));
    assert AccessedBy(w, inst.ops[1], next, a, AddressOf(w, Add64(next, inst.ops[1].disp)));
  }

  lemma OffsetLoad(w: World, u: Track, inst: Instruction, offset: u64, next: u64, a: machine, b: machine)
    requires Agrees(w, u, a) && WellFormed(inst)
    requires FallsThrough(w, inst, offset, next, a, b) && !inst.unsupported && !inst.call
    requires inst.cmd == Ldr && |inst.ops| == 2 && inst.ops[1].Memory? && inst.ops[1].kind == UnsignedOffset
    requires GetValue(u, inst.ops[1].base, 8).Some?
    ensures var base := GetValue(u, inst.ops[1].base, 8).value;
            var address := Address(Add64(base.value, inst.ops[1].disp), base.relative);
            && IsAccessed(w, inst, next, a, ConcreteOf(w, address))
            && (inst.ops[0].Register? && inst.ops[0].reg.X? ==> b.x[inst.ops[0].reg.n] == w.read(ConcreteOf(w, address), 8))
  {
    KnownBase(w, u, inst, a, 1);
    var base := GetValue(u, inst.ops[1].base, 8).value;
    ConcreteSum(w, base, inst.ops[1].disp);
    assert AccessedBy(w, inst.ops[1], next, a, Add64(a.x[inst.ops[1].base.n], inst.ops[1].disp));
  }

  // ------------------------------------------------------------------ one step, and a route

  ghost predicate Sound(w: World, r: Tracked, inst: Instruction, next: u64, a: machine, b: machine) {
    Agrees(w, r.track, b) && forall e | e in r.events :: IsReal(w, inst, next, a, e)
  }

  lemma LiteralLoadSound(w: World, u: Track, inst: Instruction, offset: u64, next: u64, a: machine, b: machine)
    requires Loaded(w) && Continues(w, u, inst, offset, next, a, b) && !inst.unsupported && !inst.call
    requires inst.cmd == Ldr && |inst.ops| == 2 && inst.ops[1].Memory? && inst.ops[1].base == PC
    ensures Sound(w, LoadValue(w, u, inst.ops[0], ModuleAddress(w, Add64(next, inst.ops[1].disp))), inst, next, a, b)
  {
    assert inst.ops[1] in inst.ops;
    LiteralLoad(w, inst, offset, next, a, b);
    LoadTracked(w, u, inst, offset, next, a, b, ModuleAddress(w, Add64(next, inst.ops[1].disp)));
  }

  lemma OffsetLoadSound(w: World, u: Track, inst: Instruction, offset: u64, next: u64, a: machine, b: machine)
    requires Loaded(w) && Continues(w, u, inst, offset, next, a, b) && !inst.unsupported && !inst.call
    requires inst.cmd == Ldr && |inst.ops| == 2 && inst.ops[1].Memory? && inst.ops[1].kind == UnsignedOffset
    requires GetValue(u, inst.ops[1].base, 8).Some?
    ensures var base := GetValue(u, inst.ops[1].base, 8).value;
            var address := Address(Add64(base.value, inst.ops[1].disp), base.relative);
            var loaded := LoadValue(w, u, inst.ops[0], address);
            Sound(w, Tracked(loaded.track, [Data(address)] + loaded.events), inst, next, a, b)
  {
    assert inst.ops[1] in inst.ops;
    var base := GetValue(u, inst.ops[1].base, 8).value;
    OffsetLoad(w, u, inst, offset, next, a, b);
    LoadTracked(w, u, inst, offset, next, a, b, Address(Add64(base.value, inst.ops[1].disp), base.relative));
  }

  lemma TableLoadSound(w: World, u: Track, inst: Instruction, offset: u64, next: u64, a: machine, b: machine)
    requires Continues(w, u, inst, offset, next, a, b) && IsTableLoad(u, inst)
    ensures Sound(w, LoadTable(u, inst), inst, next, a, b)
  {
    TableShape(w, u, inst, a);
    TableLoadTracked(w, u, inst, offset, next, a, b);
    assert IsTableBase(inst, a, a.x[inst.ops[1].base.n]);
  }

  lemma OtherSound(w: World, u: Track, inst: Instruction, offset: u64, next: u64, a: machine, b: machine)
    requires Continues(w, u, inst, offset, next, a, b) && !inst.unsupported && !inst.call
    ensures Sound(w, Tracked(DropNamed(u, inst.ops), DataEvents(u, inst.ops)), inst, next, a, b)
  {
    OtherTracked(w, u, inst, offset, next, a, b);
    assert inst.ops[0..] == inst.ops;
    forall e | e in DataEvents(u, inst.ops)
      ensures IsReal(w, inst, next, a, e)
    {
      DataEventsAreReal(w, u, inst, next, a, 0, e);
    }
  }

  lemma TrackValuesSound(w: World, u: Track, inst: Instruction, offset: u64, next: u64, a: machine, b: machine)
    requires Loaded(w) && Continues(w, u, inst, offset, next, a, b)
    ensures Sound(w, TrackValues(w, u, inst, offset, next), inst, next, a, b)
  {
    var ops := inst.ops;
    hide Loaded, FallsThrough, Agrees, IsReal, LoadValue, LoadTable, TargetOfTable, Forget, SetValue, Drop, DropNamed,
         DataEvents, ModuleAddress, IsExactTable, Add64, Shl64, PageOf, ConcreteOf, GetValue;
    if IsCompare(inst) {
      CompareTracked(w, u, inst, offset, next, a, b);
    } else if inst.cmd == Adr && |ops| == 2 && ops[1].Rel? {
      AdrTracked(w, u, inst, offset, next, a, b);
    } else if IsTableLoad(u, inst) {
      TableLoadSound(w, u, inst, offset, next, a, b);
    } else if IsTableTarget(u, inst) {
      TableTargetTracked(w, u, inst, offset, next, a, b);
    } else if inst.unsupported || inst.call {
      ForgetTracked(w, u, inst, offset, next, a, b);
    } else if inst.cmd == Adrp && |ops| == 2 && ops[1].Special? {
      AdrpTracked(w, u, inst, offset, next, a, b);
    } else {
      TrackRestSound(w, u, inst, offset, next, a, b);
    }
  }

  lemma AddIsReal(w: World, u: Track, inst: Instruction, offset: u64, next: u64, a: machine, b: machine)
    requires Continues(w, u, inst, offset, next, a, b)
    requires inst.cmd == Add && |inst.ops| == 3 && inst.ops[2].Imm? && inst.ops[0].Register? && inst.ops[0].size == 8
    requires inst.ops[1].Register? && GetValue(u, inst.ops[1].reg, inst.ops[1].size).Some?
    ensures var base := GetValue(u, inst.ops[1].reg, inst.ops[1].size).value;
            var value := Address(Add64(base.value, Shl64(inst.ops[2].value, inst.ops[2].shift)), base.relative);
            Sound(w, Tracked(SetValue(u, inst.ops[0].reg, value), [Taken(value)]), inst, next, a, b)
  {
    AddTracked(w, u, inst, offset, next, a, b);
    hide FallsThrough, Agrees, WellFormed, Shl64, Add64;
  }

  lemma TrackRestSound(w: World, u: Track, inst: Instruction, offset: u64, next: u64, a: machine, b: machine)
    requires Loaded(w) && Continues(w, u, inst, offset, next, a, b)
    requires !IsCompare(inst) && !(inst.cmd == Adr && |inst.ops| == 2 && inst.ops[1].Rel?)
    requires !IsTableLoad(u, inst) && !IsTableTarget(u, inst) && !inst.unsupported && !inst.call
    requires !(inst.cmd == Adrp && |inst.ops| == 2 && inst.ops[1].Special?)
    ensures Sound(w, TrackValues(w, u, inst, offset, next), inst, next, a, b)
  {
    var ops := inst.ops;
    hide Loaded, Continues, FallsThrough, Agrees, IsReal, LoadValue, LoadTable, TargetOfTable, Forget, SetValue, Drop, DropNamed,
         DataEvents, ModuleAddress, IsExactTable, Add64, Shl64, PageOf, ConcreteOf, GetValue, IsTableLoad, IsTableTarget, IsCompare,
         Sound;
    if inst.cmd == Add && |ops| == 3 && ops[2].Imm? && ops[0].Register? && ops[0].size == 8 && ops[1].Register?
       && GetValue(u, ops[1].reg, ops[1].size).Some? {
      AddIsReal(w, u, inst, offset, next, a, b);
    } else if inst.cmd == Orr && |ops| == 3 && ops[1].Register? && ops[1].reg == XZR && ops[2].Shifted? && ops[2].amount == 0
              && ops[0].Register? {
      MoveTracked(w, u, inst, offset, next, a, b);
      NoEvents(w, TrackValues(w, u, inst, offset, next), inst, next, a, b);
    } else if inst.cmd == Ldr && |ops| == 2 && ops[1].Memory? && ops[1].base == PC {
      LiteralLoadSound(w, u, inst, offset, next, a, b);
    } else if inst.cmd == Ldr && |ops| == 2 && ops[1].Memory? && ops[1].kind == UnsignedOffset
              && GetValue(u, ops[1].base, 8).Some? {
      OffsetLoadSound(w, u, inst, offset, next, a, b);
    } else {
      OtherSound(w, u, inst, offset, next, a, b);
    }
  }

  lemma NoEvents(w: World, r: Tracked, inst: Instruction, next: u64, a: machine, b: machine)
    requires Agrees(w, r.track, b) && r.events == []
    ensures Sound(w, r, inst, next, a, b)
  {
  }

  /** One instruction: what the tracker says stays true, and every reference it makes is real. */
  lemma StepIsSound(w: World, t: Track, inst: Instruction, offset: u64, next: u64, a: machine, b: machine)
    requires Loaded(w) && WellFormed(inst) && Agrees(w, t, a) && FallsThrough(w, inst, offset, next, a, b)
    ensures Sound(w, TrackArm64(w, t, inst, offset, next), inst, next, a, b)
  {
    TrackFlagsAgrees(w, t, inst, offset, next, a, b);
    TrackValuesSound(w, TrackFlags(t, inst), inst, offset, next, a, b);
  }

  datatype RouteStep = RouteStep(inst: Instruction, offset: u64, next: u64)

  function TrackRoute(w: World, t: Track, steps: seq<RouteStep>): Track
    decreases |steps|
  {
    if |steps| == 0 then t
    else TrackRoute(w, TrackArm64(w, t, steps[0].inst, steps[0].offset, steps[0].next).track, steps[1..])
  }

  ghost predicate Executes(w: World, steps: seq<RouteStep>, states: seq<machine>) {
    && |states| == |steps| + 1
    && forall k | 0 <= k < |steps| ::
         WellFormed(steps[k].inst) && FallsThrough(w, steps[k].inst, steps[k].offset, steps[k].next, states[k], states[k + 1])
  }

  /** Straight-line soundness: along the fall-through execution of a route, from a state that meets the
      route's bound, everything that is tracked is true. */
  lemma {:induction false} RouteIsSound(w: World, t: Track, steps: seq<RouteStep>, states: seq<machine>)
    requires Loaded(w) && Executes(w, steps, states) && Agrees(w, t, states[0])
    ensures Agrees(w, TrackRoute(w, t, steps), states[|steps|])
    decreases |steps|
  {
    if |steps| != 0 {
      StepIsSound(w, t, steps[0].inst, steps[0].offset, steps[0].next, states[0], states[1]);
      var u := TrackArm64(w, t, steps[0].inst, steps[0].offset, steps[0].next).track;
      assert Executes(w, steps[1..], states[1..]);
      hide FallsThrough, TrackArm64, Agrees, WellFormed;
      RouteIsSound(w, u, steps[1..], states[1..]);
    }
  }

  /** A route starts with nothing known but its bound. */
  lemma ResetAgrees(w: World, b: Bound, c: machine)
    requires IsBelow(b, c)
    ensures Agrees(w, Reset(b), c)
  {
  }

  /** What soundness says of a whole route: known registers, and the bounded one. */
  lemma RouteTracksTheMachine(w: World, bound: Bound, steps: seq<RouteStep>, states: seq<machine>, i: index)
    requires Loaded(w) && Executes(w, steps, states) && IsBelow(bound, states[0])
    ensures var t := TrackRoute(w, Reset(bound), steps);
            var c := states[|steps|];
            && (i in t.known ==> c.x[i] == (if t.known[i].relative then Add64(w.loadBase, t.known[i].value) else t.known[i].value))
            && (t.boundCount != 0 && t.boundExact && t.boundReg == Some(i) ==>
                  (if t.boundWide then c.x[i] else c.x[i] % TWO32) < t.boundCount)
  {
    ResetAgrees(w, bound, states[0]);
    RouteIsSound(w, Reset(bound), steps, states);
  }

  // ------------------------------------------------------------------ jumps

  /** br Xn, Xn known: the route goes where the branch goes. */
  lemma KnownJumpIsReal(w: World, t: Track, reg: Reg, c: machine)
    requires Agrees(w, t, c) && reg.X? && GetValue(t, reg, 8).Some?
    ensures ConcreteOf(w, GetValue(t, reg, 8).value) == c.x[reg.n]
  {
  }

  /** br Xn through an exact table: where the branch goes is the target of an entry below the count, and the
      count is below the limit of the program. */
  lemma TableJumpIsCovered(w: World, t: Track, reg: Reg, c: machine)
    requires Agrees(w, t, c) && IsTableJump(t, reg) && t.table.value.exact
    ensures var table := t.table.value;
            && table.count <= MAX_JUMP_TABLE
            && exists k | 0 <= k < table.count ::
                 var entry := SignedEntry(w.read(ConcreteOf(w, EntryAddress(table, k)), table.entrySize), table.entrySize, table.signed);
                 c.x[table.reg] == ConcreteOf(w, EntryTarget(table, entry))
  {
    var table := t.table.value;
    var k :| 0 <= k < table.count && c.x[table.reg] == TableValue(w, table, k);
    var entry := SignedEntry(w.read(ConcreteOf(w, EntryAddress(table, k)), table.entrySize), table.entrySize, table.signed);
    if table.stage == 2 {
      ConcreteSum(w, table.base, Shl64(Extended(entry, table.extend), table.shift));
    }
    assert c.x[table.reg] == ConcreteOf(w, EntryTarget(table, entry));
  }
}
