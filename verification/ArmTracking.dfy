/** The register values the AArch64 analyzer tracks along a route (TrackArm64 and its helpers in
    diana_analyze.c): addresses in registers, the bound a compare gives, and a jump table. */
module ArmTracking {
  import opened Words
  import opened ArmMachine
  import opened Wrappers

  /** An address: absolute, or relative to the module. */
  datatype Address = Address(value: u64, relative: bool)

  /** A jump table: entries of `entrySize` bytes, `count` of them. In stage 2 the register holds
      base + (extend(entry) << shift). */
  datatype Table = Table(
    reg: index, stage: int, address: Address, entrySize: nat, signed: bool, count: nat,
    base: Address, extend: Extend, shift: nat,
    exact: bool)

  /** armRegs, armKnown and armRelative are `known`.  The `exact` and `wide` flags are not in the program:
      they say which bounds its heuristics get right (an unsigned condition; the width of the compare). */
  datatype Track = Track(
    known: map<index, Address>,
    cmpReg: Option<index>, cmpImm: u64, cmpWide: bool,
    boundReg: Option<index>, boundCount: nat, boundWide: bool, boundExact: bool,
    table: Option<Table>)

  /** What the analyzer does with an address it computes. */
  datatype Event = Taken(address: Address) | Data(address: Address) | JumpsTo(address: Address)

  datatype Tracked = Tracked(track: Track, events: seq<Event>)

  datatype Bound = Bound(reg: Option<index>, count: nat, wide: bool, exact: bool)

  const NoBound: Bound := Bound(None, 0, false, false)

  // ------------------------------------------------------------------ registers

  /** X0..X30 and W0..W30; SP, XZR and everything else have no index. */
  function RegisterIndex(reg: Reg): Option<index> {
    match reg
    case X(n) => Some(n)
    case W(n) => Some(n)
    case _ => None
  }

  /** ResetArm64State: the start of a route. */
  function Reset(bound: Bound): Track {
    Track(map[], None, 0, false, bound.reg, bound.count, bound.wide, bound.exact, None)
  }

  function ModuleAddress(w: World, offset: u64): Address {
    if w.relative then Address(offset, true) else Address(Add64(w.imageBase, offset), false)
  }

  function GetValue(t: Track, reg: Reg, size: nat): Option<Address> {
    var i := RegisterIndex(reg);
    if size != 8 || i.None? || i.value !in t.known then None else Some(t.known[i.value])
  }

  function Forget(t: Track, mask: set<index>): Track {
    Track(t.known - mask,
          if t.cmpReg.Some? && t.cmpReg.value in mask then None else t.cmpReg, t.cmpImm, t.cmpWide,
          t.boundReg, if t.boundReg.Some? && t.boundReg.value in mask then 0 else t.boundCount, t.boundWide, t.boundExact,
          if t.table.Some? && t.table.value.reg in mask then None else t.table)
  }

  function SetValue(t: Track, reg: Reg, value: Address): Track {
    var i := RegisterIndex(reg);
    if i.None? then t
    else
      var f := Forget(t, {i.value});
      f.(known := f.known[i.value := value])
  }

  function Drop(t: Track, reg: Reg): Track {
    var i := RegisterIndex(reg);
    if i.None? then t else Forget(t, {i.value})
  }

  // ------------------------------------------------------------------ bounds

  /** GetArmCompareBound: the bound of the compared register where the condition holds, or where it does not.
      Signed conditions are taken too: they are exact only when the register is not negative. */
  function CompareBound(t: Track, cond: nat, holds: bool): Option<Bound> {
    if t.cmpReg.None? then None
    else
      match cond
      case 9 => if holds then Some(Bound(t.cmpReg, t.cmpImm + 1, t.cmpWide, true)) else None
      case 13 => if holds then Some(Bound(t.cmpReg, t.cmpImm + 1, t.cmpWide, false)) else None
      case 3 => if holds then Some(Bound(t.cmpReg, t.cmpImm, t.cmpWide, true)) else None
      case 11 => if holds then Some(Bound(t.cmpReg, t.cmpImm, t.cmpWide, false)) else None
      case 8 => if holds then None else Some(Bound(t.cmpReg, t.cmpImm + 1, t.cmpWide, true))
      case 12 => if holds then None else Some(Bound(t.cmpReg, t.cmpImm + 1, t.cmpWide, false))
      case 2 => if holds then None else Some(Bound(t.cmpReg, t.cmpImm, t.cmpWide, true))
      case 10 => if holds then None else Some(Bound(t.cmpReg, t.cmpImm, t.cmpWide, false))
      case _ => None
  }

  /** GetArm64BranchBound: on the target (`holds`) or on the next instruction. */
  function BranchBound(t: Track, inst: Instruction, holds: bool): Option<Bound> {
    if inst.cmd != BCond || |inst.ops| < 2 || !inst.ops[1].Cond? then None
    else CompareBound(t, inst.ops[1].cond, holds)
  }

  /** armRouteBoundReg and armRouteBoundCount: what the next route that is saved gets. */
  datatype RouteBounds = RouteBounds(reg: Option<index>, count: nat)

  /** A session starts with zeroed fields: X0, and no count. */
  const FirstBounds: RouteBounds := RouteBounds(Some(0), 0)

  /** What every in-module branch leaves behind. */
  const LaterBounds: RouteBounds := RouteBounds(None, 0)

  /** The count that GetArmCompareBound writes. It does so before it says whether there is a bound. */
  function WrittenCount(t: Track, cond: nat): Option<nat> {
    if t.cmpReg.None? then None
    else if cond in {8, 9, 12, 13} then Some(t.cmpImm + 1)
    else if cond in {2, 3, 10, 11} then Some(t.cmpImm)
    else None
  }

  /** What is in the fields when the route to the target of a branch is saved. */
  function BranchBounds(s: RouteBounds, t: Track, inst: Instruction): RouteBounds {
    if inst.cmd != BCond || |inst.ops| < 2 || !inst.ops[1].Cond? then s
    else
      var written := WrittenCount(t, inst.ops[1].cond);
      RouteBounds(if BranchBound(t, inst, true).Some? then t.cmpReg else s.reg,
                  if written.Some? then written.value else s.count)
  }

  /** The bound of a route to the target of a branch. It is exact only if it is one of the compared register. */
  function RouteBound(s: RouteBounds, t: Track, inst: Instruction): Bound {
    var r := BranchBounds(s, t, inst);
    var b := BranchBound(t, inst, true);
    Bound(r.reg, r.count, t.cmpWide, b.Some? && b.value.exact)
  }

  // ------------------------------------------------------------------ loads

  /** LoadArm64Value: only X registers hold addresses, and 0 is no address. */
  function LoadValue(w: World, t: Track, target: Operand, address: Address): Tracked {
    var isX := target.Register? && target.reg.X?;
    var reg := match target case Register(r, _) => r case Shifted(r, _, _, _) => r case _ => NoReg;
    var loaded := w.peek(address.value, address.relative, 8);
    if !isX || loaded.Unreadable? || loaded.value == 0 then Tracked(Drop(t, reg), [])
    else Tracked(SetValue(t, reg, Address(loaded.value, false)), [Taken(Address(loaded.value, false))])
  }

  function Log2(size: nat): nat {
    match size case 1 => 0 case 2 => 1 case 4 => 2 case _ => 3
  }

  /** A load that begins a jump table: its base is known, its index is the bounded register, shifted by the size loaded. */
  predicate IsTableLoad(t: Track, inst: Instruction) {
    && IsLoad(inst.cmd) && |inst.ops| == 2 && inst.ops[1].Memory? && inst.ops[1].kind == RegisterOffset
    && t.boundCount != 0 && RegisterIndex(inst.ops[1].indexed) == t.boundReg
    && (var scale := Log2(LoadSize(inst.cmd, inst.ops[0]));
        if scale == 0 then inst.ops[1].amount == 0 else inst.ops[1].hasAmount && inst.ops[1].amount == scale)
    && inst.ops[0].Register? && RegisterIndex(inst.ops[0].reg).Some?
    && GetValue(t, inst.ops[1].base, 8).Some?
  }

  /** The entry in the register is the one the program computes: the whole index is bounded, and a signed entry
      is extended to 64 bits. */
  predicate IsExactTable(t: Track, inst: Instruction)
    requires |inst.ops| == 2 && inst.ops[0].Register? && inst.ops[1].Memory?
  {
    && t.boundExact && (inst.ops[1].indexed.W? || t.boundWide)
    && (inst.cmd in {Ldrsb, Ldrsh} ==> inst.ops[0].reg.X?)
    && (inst.cmd == Ldrsw ==> inst.ops[0].reg.X?)
  }

  function LoadTable(t: Track, inst: Instruction): Tracked
    requires IsTableLoad(t, inst)
  {
    var i := RegisterIndex(inst.ops[0].reg).value;
    var address := GetValue(t, inst.ops[1].base, 8).value;
    var table := Table(i, 1, address, LoadSize(inst.cmd, inst.ops[0]), inst.cmd in {Ldrsb, Ldrsh, Ldrsw}, t.boundCount,
                       address, LSL, 0, IsExactTable(t, inst));
    Tracked(Forget(t, {i}).(table := Some(table)), [Data(address)])
  }

  /** An addition of a base to the loaded entry of the tracked table: its result is where the entry leads. */
  predicate IsTableTarget(t: Track, inst: Instruction) {
    && inst.cmd == Add && |inst.ops| == 3 && t.table.Some? && t.table.value.stage == 1
    && inst.ops[0].Register? && inst.ops[0].size == 8
    && inst.ops[2].Shifted? && RegisterIndex(inst.ops[2].reg) == Some(t.table.value.reg)
    && inst.ops[1].Register? && GetValue(t, inst.ops[1].reg, inst.ops[1].size).Some?
    && inst.ops[2].extend !in {LSR, ASR, ROR}
    && RegisterIndex(inst.ops[0].reg).Some?
  }

  function TargetOfTable(t: Track, inst: Instruction): Track
    requires IsTableTarget(t, inst)
  {
    var i := RegisterIndex(inst.ops[0].reg).value;
    var base := GetValue(t, inst.ops[1].reg, inst.ops[1].size).value;
    var table := t.table.value.(reg := i, stage := 2, base := base, extend := inst.ops[2].extend, shift := inst.ops[2].amount);
    Forget(t, {i}).(table := Some(table))
  }

  // ------------------------------------------------------------------ one instruction

  function AllRegisters(): (s: set<index>)
    ensures forall i: index :: i in s
  {
    {0, 1, 2, 3, 4, 5, 6, 7, 8, 9, 10, 11, 12, 13, 14, 15, 16, 17, 18, 19, 20, 21, 22, 23, 24, 25, 26, 27, 28, 29, 30}
  }

  /** X0 to X18 and X30. */
  function CallerSaved(): (s: set<index>)
    ensures forall i: index :: i in s <==> i <= 18 || i == 30
  {
    {0, 1, 2, 3, 4, 5, 6, 7, 8, 9, 10, 11, 12, 13, 14, 15, 16, 17, 18, 30}
  }

  /** An operand makes a data reference if its base is known and nothing is added but an unsigned offset. */
  function DataEvents(t: Track, ops: seq<Operand>): seq<Event> {
    if |ops| == 0 then []
    else
      var op := ops[0];
      var first :=
        if op.Memory? && op.kind == UnsignedOffset && !op.writeback && GetValue(t, op.base, 8).Some? then
          var base := GetValue(t, op.base, 8).value;
          [Data(Address(Add64(base.value, op.disp), base.relative))]
        else [];
      first + DataEvents(t, ops[1..])
  }

  function DropNamed(t: Track, ops: seq<Operand>): Track
    decreases |ops|
  {
    if |ops| == 0 then t
    else
      var u := match ops[0]
        case Register(reg, _) => Drop(t, reg)
        case Shifted(reg, _, _, _) => Drop(t, reg)
        case Memory(base, _, _, _, writeback, _, _, _) => if writeback then Drop(t, base) else t
        case _ => t;
      DropNamed(u, ops[1..])
  }

  /** The bound and the flags: before anything else. */
  function TrackFlags(t: Track, inst: Instruction): Track {
    var u := match BranchBound(t, inst, false)
      case None => t
      case Some(b) => t.(boundReg := b.reg, boundCount := b.count, boundWide := b.wide, boundExact := b.exact);
    if MayChangeFlags(inst) then u.(cmpReg := None) else u
  }

  /** The values of the instruction that are known. */
  function TrackValues(w: World, t: Track, inst: Instruction, offset: u64, next: u64): Tracked {
    var ops := inst.ops;
    if IsCompare(inst) then
      Tracked(t.(cmpReg := RegisterIndex(ops[1].reg), cmpImm := ops[2].value, cmpWide := ops[1].reg.X?), [])
    else if inst.cmd == Adr && |ops| == 2 && ops[1].Rel? then
      var reg := match ops[0] case Register(r, _) => r case _ => NoReg;
      Tracked(SetValue(t, reg, ModuleAddress(w, Add64(next, ops[1].offset))), [])
    else if IsTableLoad(t, inst) then LoadTable(t, inst)
    else if IsTableTarget(t, inst) then Tracked(TargetOfTable(t, inst), [])
    else if inst.unsupported then Tracked(Forget(t, AllRegisters()), [])
    else if inst.call then Tracked(Forget(t, CallerSaved()), [])
    else TrackOther(w, t, inst, offset, next)
  }

  /** Instructions that compute or load a value, and those that are not known. */
  function TrackOther(w: World, t: Track, inst: Instruction, offset: u64, next: u64): Tracked {
    var ops := inst.ops;
    if inst.cmd == Adrp && |ops| == 2 && ops[1].Special? then
      var reg := match ops[0] case Register(r, _) => r case _ => NoReg;
      if w.baseUnknown then Tracked(Drop(t, reg), [])
      else
        var base := ModuleAddress(w, offset);
        Tracked(SetValue(t, reg, Address(Add64(PageOf(base.value), ops[1].page), base.relative)), [])
    else if inst.cmd == Add && |ops| == 3 && ops[2].Imm? && ops[0].Register? && ops[0].size == 8 && ops[1].Register?
            && GetValue(t, ops[1].reg, ops[1].size).Some? then
      var base := GetValue(t, ops[1].reg, ops[1].size).value;
      var value := Address(Add64(base.value, Shl64(ops[2].value, ops[2].shift)), base.relative);
      Tracked(SetValue(t, ops[0].reg, value), [Taken(value)])
    else if inst.cmd == Orr && |ops| == 3 && ops[1].Register? && ops[1].reg == XZR && ops[2].Shifted? && ops[2].amount == 0
            && ops[0].Register? then
      match GetValue(t, ops[2].reg, ops[2].size)
      case Some(value) => Tracked(SetValue(t, ops[0].reg, value), [])
      case None => Tracked(Drop(t, ops[0].reg), [])
    else if inst.cmd == Ldr && |ops| == 2 && ops[1].Memory? && ops[1].base == PC then
      LoadValue(w, t, ops[0], ModuleAddress(w, Add64(next, ops[1].disp)))
    else if inst.cmd == Ldr && |ops| == 2 && ops[1].Memory? && ops[1].kind == UnsignedOffset
            && GetValue(t, ops[1].base, 8).Some? then
      var base := GetValue(t, ops[1].base, 8).value;
      var address := Address(Add64(base.value, ops[1].disp), base.relative);
      var loaded := LoadValue(w, t, ops[0], address);
      Tracked(loaded.track, [Data(address)] + loaded.events)
    else Tracked(DropNamed(t, ops), DataEvents(t, ops))
  }

  /** TrackArm64. */
  function TrackArm64(w: World, t: Track, inst: Instruction, offset: u64, next: u64): Tracked {
    TrackValues(w, TrackFlags(t, inst), inst, offset, next)
  }

  // ------------------------------------------------------------------ jumping through a table

  const MAX_JUMP_TABLE: nat := 0x4000

  function SignedEntry(v: u64, size: nat, signed: bool): u64 {
    if !signed then v
    else match size
      case 1 => SignExtend(v, 0x80)
      case 2 => SignExtend(v, 0x8000)
      case 4 => SignExtend(v, 0x8000_0000)
      case _ => v
  }

  /** The address of entry `k`. */
  function EntryAddress(table: Table, k: nat): Address {
    Address(Add64(table.address.value, k * table.entrySize % TWO64), table.address.relative)
  }

  function EntryTarget(table: Table, entry: u64): Address {
    if table.stage == 2 then
      Address(Add64(table.base.value, Shl64(Extended(entry, table.extend), table.shift)), table.base.relative)
    else Address(entry, false)
  }

  /** A jump to a register that holds the target of a table entry. */
  predicate IsTableJump(t: Track, reg: Reg) {
    && t.table.Some? && RegisterIndex(reg) == Some(t.table.value.reg)
    && (t.table.value.stage == 2 || t.table.value.entrySize == 8)
  }
}
