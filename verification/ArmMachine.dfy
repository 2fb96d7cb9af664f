/** AArch64 instructions as the decoder gives them, and what executing one does: an instruction
    writes only the registers it names, and the ones the tracker knows write what the architecture
    says.  Memory that is read does not change. */
module ArmMachine {

  import opened Words

  type u64 = v: int | 0 <= v < TWO64
  type index = i: int | 0 <= i < 31

  // ------------------------------------------------------------------ 64-bit arithmetic

  function Add64(a: u64, b: u64): u64 {
    if a + b < TWO64 then a + b else a + b - TWO64
  }

  function Pow2(n: nat): (p: nat)
    ensures 0 < p
  {
    if n == 0 then 1 else 2 * Pow2(n - 1)
  }

  function Shl64(v: u64, n: nat): u64 {
    v * Pow2(n) % TWO64
  }

  function Low32(v: u64): u64 {
    v % TWO32
  }

  /** The low `half` * 2 of `v`, sign-extended to 64 bits. */
  function SignExtend(v: u64, half: nat): u64
    requires 0 < half <= 0x8000_0000
  {
    var low := v % (2 * half);
    if low < half then low else low + (TWO64 - 2 * half)
  }

  /** v & ~0xFFF */
  function PageOf(v: u64): u64 {
    v - v % 4096
  }

  lemma Add64Associative(a: u64, b: u64, c: u64)
    ensures Add64(Add64(a, b), c) == Add64(a, Add64(b, c))
  {
  }

  // ------------------------------------------------------------------ decoded instructions

  datatype Reg = X(n: index) | W(n: index) | XZR | WZR | SP | PC | NoReg | Other(id: nat)

  datatype Extend = LSL | LSR | ASR | ROR | UXTB | UXTH | UXTW | UXTX | SXTB | SXTH | SXTW | SXTX

  datatype MemKind = UnsignedOffset | RegisterOffset | OtherKind

  datatype Operand =
    | Register(reg: Reg, size: nat)
    | Shifted(reg: Reg, size: nat, extend: Extend, amount: nat)
    | Imm(value: u64, shift: nat)
    | Rel(offset: u64)
    | Special(page: u64)
    | Memory(base: Reg, indexed: Reg, disp: u64, kind: MemKind, writeback: bool,
             extend: Extend, hasAmount: bool, amount: nat)
    | Cond(cond: nat)
    | OtherOperand

  datatype Cmd = Subs | Adr | Adrp | Add | Orr | Ldr | Ldrb | Ldrh | Ldrsb | Ldrsh | Ldrsw | BCond | SetsFlags | Plain

  /** `linked`: a branch, a call or a return (m_pLinkedInfo); `unsupported`: its operands are not known. */
  datatype Instruction = Instruction(cmd: Cmd, ops: seq<Operand>, linked: bool, call: bool, unsupported: bool)

  /** What the decoder promises: registers have the size of their name, addresses go to X registers, only pre- and post-indexed memory has
      writeback, and CMP has a 12-bit immediate. */
  predicate WellFormedOperand(op: Operand) {
    match op
    case Register(reg, size) => (reg.X? ==> size == 8) && (reg.W? ==> size == 4) && (reg.WZR? ==> size == 4) && (reg.XZR? ==> size == 8)
    case Shifted(reg, size, _, _) => (reg.X? ==> size == 8) && (reg.W? ==> size == 4)
    case Memory(base, _, _, kind, writeback, _, _, _) => !base.W? && (writeback ==> kind == OtherKind && base != PC)
    case _ => true
  }

  predicate WellFormed(inst: Instruction) {
    && (forall op | op in inst.ops :: WellFormedOperand(op))
    && (inst.call ==> inst.linked)
    && (inst.cmd.BCond? ==> inst.linked && !inst.call && !inst.unsupported)
    && (inst.linked && !inst.cmd.BCond? ==> inst.cmd.Plain?)
    && (inst.unsupported ==> inst.cmd.Plain?)
    && (inst.cmd in {Adr, Adrp} ==> |inst.ops| == 2 && inst.ops[0].Register? && !inst.ops[0].reg.W?)
    && (IsLoad(inst.cmd) && |inst.ops| == 2 ==> inst.ops[0].Register?)
    && (inst.cmd == Orr && |inst.ops| == 3 && inst.ops[1].Register? && inst.ops[1].reg == XZR ==>
          inst.ops[0].Register? && !inst.ops[0].reg.W?)
    && (inst.cmd.Subs? && |inst.ops| == 3 && inst.ops[2].Imm? ==> inst.ops[2].value < 4096)
  }

  // ------------------------------------------------------------------ the machine

  datatype Flags = Flags(n: bool, z: bool, c: bool, v: bool)

  datatype Cpu = Cpu(x: seq<u64>, flags: Flags)

  type machine = c: Cpu | |c.x| == 31 witness Cpu(seq(31, i => 0), Flags(false, false, false, false))

  /** Where the image is, and the memory of the process. `read(address, size)` is little-endian. */
  datatype World = World(
    imageBase: u64,
    loadBase: u64,
    relative: bool,                              // DIANA_ANALYZE_ADDRESSES_RELATIVE
    baseUnknown: bool,                           // DIANA_ANALYZE_IMAGE_BASE_UNKNOWN
    read: (u64, nat) -> u64,
    peek: (u64, bool, nat) -> Peeked)

  /** What the analyzer reads from the file at an address, if it can. */
  datatype Peeked = Unreadable | Read(value: u64)

  /** An address of the analysis as an address of the process. */
  function Concrete(w: World, value: u64, relative: bool): u64 {
    if relative then Add64(w.loadBase, value) else value
  }

  /** The image is where the analysis was told it is, and what it reads from the file is what the process reads. */
  ghost predicate Loaded(w: World) {
    && (!w.relative ==> w.loadBase == w.imageBase)
    && (w.relative ==> w.loadBase % 4096 == 0)
    && (forall a: u64, size: nat :: w.read(a, size) < SizeLimit(size))
    && (forall a: u64, r: bool, size: nat :: w.peek(a, r, size).Read? ==> w.peek(a, r, size).value == w.read(Concrete(w, a, r), size))
  }

  function SizeLimit(size: nat): nat {
    match size case 1 => 0x100 case 2 => 0x1_0000 case 4 => TWO32 case _ => TWO64
  }

  /** The flags of SUBS zr, Rn, #imm. */
  function CompareFlags(value: u64, imm: u64, wide: bool): Flags {
    var a := if wide then value else Low32(value);
    var top := if wide then TWO64 / 2 else TWO32 / 2;
    var difference := if imm <= a then a - imm else a - imm + 2 * top;
    Flags(top <= difference, a == imm, imm <= a, top <= a && difference < top)
  }

  /** ConditionHolds of the architecture; 14 and 15 are always. */
  function Holds(cond: nat, f: Flags): bool {
    match cond
    case 0 => f.z
    case 1 => !f.z
    case 2 => f.c
    case 3 => !f.c
    case 4 => f.n
    case 5 => !f.n
    case 6 => f.v
    case 7 => !f.v
    case 8 => f.c && !f.z
    case 9 => !(f.c && !f.z)
    case 10 => f.n == f.v
    case 11 => f.n != f.v
    case 12 => !f.z && f.n == f.v
    case 13 => !(!f.z && f.n == f.v)
    case _ => true
  }

  /** The low bits of a register that `extend` selects, widened to 64 bits. */
  function Extended(v: u64, extend: Extend): u64 {
    match extend
    case UXTB => v % 0x100
    case UXTH => v % 0x1_0000
    case UXTW => Low32(v)
    case SXTB => SignExtend(v, 0x80)
    case SXTH => SignExtend(v, 0x8000)
    case SXTW => SignExtend(v, 0x8000_0000)
    case _ => v
  }

  /** The index of [Xn, Rm{, extend}]: a W register is zero-extended unless the extend says signed. */
  function IndexValue(v: u64, indexed: Reg, extend: Extend): u64 {
    if indexed.W? then (if extend == SXTW then SignExtend(v, 0x8000_0000) else Low32(v)) else v
  }

  /** What LDR, LDRB, LDRH, LDRSB, LDRSH and LDRSW put into Rt. */
  function Loaded64(cmd: Cmd, target: Reg, v: u64): u64 {
    match cmd
    case Ldrsw => SignExtend(v, 0x8000_0000)
    case Ldrsb => if target.W? then Low32(SignExtend(v, 0x80)) else SignExtend(v, 0x80)
    case Ldrsh => if target.W? then Low32(SignExtend(v, 0x8000)) else SignExtend(v, 0x8000)
    case _ => v
  }

  predicate IsLoad(cmd: Cmd) {
    cmd in {Ldr, Ldrb, Ldrh, Ldrsb, Ldrsh, Ldrsw}
  }

  function LoadSize(cmd: Cmd, target: Operand): nat {
    match cmd
    case Ldrb => 1
    case Ldrsb => 1
    case Ldrh => 2
    case Ldrsh => 2
    case Ldrsw => 4
    case _ => if target.Register? then target.size else 0
  }

  // ------------------------------------------------------------------ what an instruction writes

  predicate IsNamed(op: Operand, i: index) {
    match op
    case Register(reg, _) => reg == X(i) || reg == W(i)
    case Shifted(reg, _, _, _) => reg == X(i) || reg == W(i)
    case Memory(base, _, _, _, writeback, _, _, _) => writeback && (base == X(i) || base == W(i))
    case _ => false
  }

  predicate IsCompare(inst: Instruction) {
    && inst.cmd == Subs && |inst.ops| == 3 && inst.ops[0].Register? && inst.ops[0].reg in {WZR, XZR}
    && inst.ops[1].Register? && (inst.ops[1].reg.X? || inst.ops[1].reg.W?)
    && inst.ops[2].Imm? && inst.ops[2].shift == 0
  }

  /** The known instructions write their first operand, and a base with writeback; of any other nothing is known. */
  predicate WritesOperand(inst: Instruction, k: nat)
    requires k < |inst.ops|
  {
    inst.cmd in {Plain, SetsFlags} || k == 0 || inst.ops[k].Memory?
  }

  /** An upper bound: the registers an instruction may write. A callee keeps X19 to X29 (AAPCS64). */
  predicate MayWrite(inst: Instruction, i: index) {
    if inst.unsupported then true
    else if inst.call then i <= 18 || i == 30
    else if IsCompare(inst) || inst.cmd == BCond then false
    else exists k | 0 <= k < |inst.ops| :: WritesOperand(inst, k) && IsNamed(inst.ops[k], i)
  }

  predicate MayChangeFlags(inst: Instruction) {
    inst.linked || inst.unsupported || inst.cmd == Subs || inst.cmd == SetsFlags
  }

  function AddressOf(w: World, offset: u64): u64 {
    Add64(w.loadBase, offset)
  }

  /** The registers the modelled instructions write, and with what. `offset` and `next` are offsets in the module. */
  ghost predicate Writes(w: World, inst: Instruction, offset: u64, next: u64, a: machine, b: machine) {
    var ops := inst.ops;
    && (inst.cmd == Adr && |ops| == 2 && ops[0].Register? && ops[0].reg.X? && ops[1].Rel? ==>
          b.x[ops[0].reg.n] == AddressOf(w, Add64(next, ops[1].offset)))
    && (inst.cmd == Adrp && |ops| == 2 && ops[0].Register? && ops[0].reg.X? && ops[1].Special? ==>
          b.x[ops[0].reg.n] == Add64(PageOf(AddressOf(w, offset)), ops[1].page))
    && (inst.cmd == Add && |ops| == 3 && ops[0].Register? && ops[0].reg.X? && ops[1].Register? && ops[1].reg.X? && ops[2].Imm? ==>
          b.x[ops[0].reg.n] == Add64(a.x[ops[1].reg.n], Shl64(ops[2].value, ops[2].shift)))
    && (inst.cmd == Add && |ops| == 3 && ops[0].Register? && ops[0].reg.X? && ops[1].Register? && ops[1].reg.X?
        && ops[2].Shifted? && (ops[2].reg.X? || ops[2].reg.W?) && ops[2].extend !in {LSR, ASR, ROR} ==>
          b.x[ops[0].reg.n] == Add64(a.x[ops[1].reg.n], Shl64(Extended(a.x[ops[2].reg.n], ops[2].extend), ops[2].amount)))
    && (inst.cmd == Orr && |ops| == 3 && ops[0].Register? && ops[0].reg.X? && ops[1].Register? && ops[1].reg == XZR
        && ops[2].Shifted? && ops[2].reg.X? && ops[2].amount == 0 ==>
          b.x[ops[0].reg.n] == a.x[ops[2].reg.n])
    && (inst.cmd == Ldr && |ops| == 2 && ops[0].Register? && ops[0].reg.X? && ops[1].Memory? && ops[1].base == PC ==>
          b.x[ops[0].reg.n] == w.read(AddressOf(w, Add64(next, ops[1].disp)), 8))
    && (inst.cmd == Ldr && |ops| == 2 && ops[0].Register? && ops[0].reg.X? && ops[1].Memory? && ops[1].base.X?
        && ops[1].kind == UnsignedOffset ==>
          b.x[ops[0].reg.n] == w.read(Add64(a.x[ops[1].base.n], ops[1].disp), 8))
    && (IsLoad(inst.cmd) && |ops| == 2 && ops[0].Register? && (ops[0].reg.X? || ops[0].reg.W?) && ops[1].Memory?
        && ops[1].base.X? && ops[1].kind == RegisterOffset && (ops[1].indexed.X? || ops[1].indexed.W?) ==>
          b.x[ops[0].reg.n] ==
          Loaded64(inst.cmd, ops[0].reg,
                   w.read(Add64(a.x[ops[1].base.n], Shl64(IndexValue(a.x[ops[1].indexed.n], ops[1].indexed, ops[1].extend), ops[1].amount)),
                          LoadSize(inst.cmd, ops[0]))))
  }

  /** The instruction ran and the one after it runs next. */
  ghost predicate FallsThrough(w: World, inst: Instruction, offset: u64, next: u64, a: machine, b: machine) {
    && (forall i: index :: !MayWrite(inst, i) ==> b.x[i] == a.x[i])
    && (!MayChangeFlags(inst) ==> b.flags == a.flags)
    && (!inst.unsupported && !inst.call ==> Writes(w, inst, offset, next, a, b))
    && (!inst.unsupported && IsCompare(inst) ==>
          b.flags == CompareFlags(a.x[inst.ops[1].reg.n], inst.ops[2].value, inst.ops[1].reg.X?))
    && (inst.cmd == BCond && 2 <= |inst.ops| && inst.ops[1].Cond? ==> !Holds(inst.ops[1].cond, a.flags))
  }

  /** B.cond is taken: nothing but PC changes. */
  ghost predicate BranchTaken(inst: Instruction, a: machine, b: machine) {
    && inst.cmd == BCond && 2 <= |inst.ops| && inst.ops[1].Cond?
    && Holds(inst.ops[1].cond, a.flags) && b == a
  }
}
