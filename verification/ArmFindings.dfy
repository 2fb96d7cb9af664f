/** The tracker is complete for the instructions it knows: what they compute from what is known is known afterwards, what
    they leave alone stays known, and every reference they make through known registers is made. */
module ArmFindings {
  import opened Words
  import opened Wrappers
  import opened ArmMachine
  import opened ArmTracking
  import opened ArmSoundness

  // ------------------------------------------------------------------ the arithmetic of the machine

  /** A page is 4 KB. */
  lemma PageIsBelow(v: u64)
    ensures PageOf(v) % 4096 == 0 && PageOf(v) <= v < PageOf(v) + 4096
  {
  }

  /** Shifting left by one more doubles, modulo 2^64. */
  lemma ShiftedOnce(v: u64, n: nat)
    ensures Shl64(v, 0) == v && Shl64(v, n + 1) == (2 * Shl64(v, n)) % TWO64
  {
    assert Pow2(0) == 1 && Pow2(n + 1) == 2 * Pow2(n);
    hide Pow2;
    Doubled(v, Pow2(n));
    DoubledRemainder(v * Pow2(n));
  }

  lemma Doubled(v: nat, p: nat)
    ensures v * (2 * p) == 2 * (v * p)
  {
  }

  lemma DoubledRemainder(x: nat)
    ensures 2 * x % TWO64 == 2 * (x % TWO64) % TWO64
  {
    var q, r := x / TWO64, x % TWO64;
    assert x == TWO64 * q + r;
    assert 2 * x == TWO64 * (2 * q) + 2 * r;
    SameRemainder(2 * q, 2 * r);
  }

  lemma SameRemainder(q: nat, x: nat)
    ensures (TWO64 * q + x) % TWO64 == x % TWO64
  {
  }

  /** The number that the low bits of `v` are, signed. */
  function Signed(v: int, width: nat): int
    requires 0 < width
  {
    if v % width < width / 2 then v % width else v % width - width
  }

  /** Each extension takes 8, 16 or 32 bits, as a number without a sign or with one, modulo 2^64. */
  lemma ExtendedExactly(v: u64, extend: Extend)
    ensures Extended(v, extend) ==
            match extend
            case UXTB => v % 256
            case UXTH => v % 65536
            case UXTW => v % 4294967296
            case SXTB => Signed(v, 256) % TWO64
            case SXTH => Signed(v, 65536) % TWO64
            case SXTW => Signed(v, 4294967296) % TWO64
            case _ => v
  {
  }

  /** What the conditions say after a compare with a small immediate: the unsigned ones compare the register, the signed
      ones its signed value, at the width of the compare. */
  lemma ConditionsCompare(v: u64, imm: u64, wide: bool)
    requires imm < 4096
    ensures var f := CompareFlags(v, imm, wide);
            var u := if wide then v else v % 4294967296;
            var s := Signed(v, if wide then TWO64 else 4294967296);
            && (Holds(0, f) <==> u == imm) && (Holds(1, f) <==> u != imm)
            && (Holds(2, f) <==> imm <= u) && (Holds(3, f) <==> u < imm)
            && (Holds(8, f) <==> imm < u) && (Holds(9, f) <==> u <= imm)
            && (Holds(10, f) <==> imm <= s) && (Holds(11, f) <==> s < imm)
            && (Holds(12, f) <==> imm < s) && (Holds(13, f) <==> s <= imm)
  {
  }

  // ------------------------------------------------------------------ what an instruction leaves alone

  /** The register is as known as before, with the same value. */
  predicate Keeps(t: Track, u: Track, i: index) {
    (i in u.known <==> i in t.known) && (i in t.known ==> u.known[i] == t.known[i])
  }

  predicate KeepsAllBut(t: Track, u: Track, i: index) {
    forall j: index | j != i :: Keeps(t, u, j)
  }

  predicate IsNamedIn(ops: seq<Operand>, i: index) {
    exists k | 0 <= k < |ops| :: IsNamed(ops[k], i)
  }

  lemma {:induction false} NamedExactly(ops: seq<Operand>, i: index)
    ensures i in Named(ops) <==> IsNamedIn(ops, i)
  {
    if |ops| != 0 {
      NamedExactly(ops[1..], i);
      assert i in NamedBy(ops[0]) <==> IsNamed(ops[0], i);
      if IsNamedIn(ops[1..], i) {
        var k :| 0 <= k < |ops[1..]| && IsNamed(ops[1..][k], i);
        assert ops[k + 1] == ops[1..][k];
      }
      if IsNamedIn(ops, i) && !IsNamed(ops[0], i) {
        var k :| 0 <= k < |ops| && IsNamed(ops[k], i);
        assert ops[1..][k - 1] == ops[k];
      }
    }
  }

  lemma SetFinds(t: Track, n: index, value: Address)
    ensures var u := SetValue(t, X(n), value); n in u.known && u.known[n] == value && KeepsAllBut(t, u, n)
  {
  }

  lemma DropLoses(t: Track, n: index)
    ensures var u := Drop(t, X(n)); n !in u.known && KeepsAllBut(t, u, n)
  {
  }

  lemma FlagsKeepKnown(t: Track, inst: Instruction)
    ensures TrackFlags(t, inst).known == t.known
  {
  }

  // ------------------------------------------------------------------ the values it finds

  predicate IsX(op: Operand, n: index) {
    op == Register(X(n), 8)
  }

  /** adr Xn, label */
  lemma AdrFinds(w: World, t: Track, inst: Instruction, offset: u64, next: u64, n: index)
    requires Loaded(w) && inst.cmd == Adr && |inst.ops| == 2 && IsX(inst.ops[0], n) && inst.ops[1].Rel?
    ensures var r := TrackArm64(w, t, inst, offset, next);
            && n in r.track.known && r.track.known[n].relative == w.relative
            && ConcreteOf(w, r.track.known[n]) == AddressOf(w, Add64(next, inst.ops[1].offset))
            && KeepsAllBut(t, r.track, n) && r.events == []
  {
    FlagsKeepKnown(t, inst);
    SetFinds(TrackFlags(t, inst), n, ModuleAddress(w, Add64(next, inst.ops[1].offset)));
    hide SetValue, TrackFlags, IsTableLoad, IsTableTarget, TrackOther;
  }

  /** adrp Xn, page: nothing is known when the base of the image is not. */
  lemma AdrpFinds(w: World, t: Track, inst: Instruction, offset: u64, next: u64, n: index)
    requires Loaded(w) && WellFormed(inst) && inst.cmd == Adrp && |inst.ops| == 2 && IsX(inst.ops[0], n) && inst.ops[1].Special?
    ensures var r := TrackArm64(w, t, inst, offset, next);
            && (n in r.track.known <==> !w.baseUnknown)
            && (!w.baseUnknown ==>
                  && ConcreteOf(w, r.track.known[n]) == Add64(PageOf(AddressOf(w, offset)), inst.ops[1].page)
                  && r.track.known[n].relative == w.relative)
            && KeepsAllBut(t, r.track, n) && r.events == []
  {
    var u := TrackFlags(t, inst);
    FlagsKeepKnown(t, inst);
    var base := ModuleAddress(w, offset);
    SetFinds(u, n, Address(Add64(PageOf(base.value), inst.ops[1].page), base.relative));
    DropLoses(u, n);
    PageIsConcrete(w, offset, inst.ops[1].page);
    assert !inst.call;
    hide SetValue, Drop, TrackFlags, IsTableLoad, IsTableTarget, ConcreteOf, PageOf, Loaded, WellFormed, Add64;
  }

  /** add Xn, Xm, #imm with Xm known: the sum is known, and its address is taken. */
  lemma AddFinds(w: World, t: Track, inst: Instruction, offset: u64, next: u64, n: index, m: index)
    requires WellFormed(inst) && inst.cmd == Add && |inst.ops| == 3
    requires IsX(inst.ops[0], n) && IsX(inst.ops[1], m) && inst.ops[2].Imm? && m in t.known
    ensures var r := TrackArm64(w, t, inst, offset, next);
            && n in r.track.known && r.track.known[n].relative == t.known[m].relative
            && ConcreteOf(w, r.track.known[n]) == Add64(ConcreteOf(w, t.known[m]), Shl64(inst.ops[2].value, inst.ops[2].shift))
            && KeepsAllBut(t, r.track, n) && r.events == [Taken(r.track.known[n])]
  {
    var u := TrackFlags(t, inst);
    FlagsKeepKnown(t, inst);
    var added := Shl64(inst.ops[2].value, inst.ops[2].shift);
    SetFinds(u, n, Address(Add64(t.known[m].value, added), t.known[m].relative));
    ConcreteSum(w, t.known[m], added);
    assert !inst.call && !inst.unsupported;
    hide SetValue, TrackFlags, IsTableLoad, ConcreteOf, Shl64, WellFormed, Add64;
  }

  /** add sp, Xm, #imm takes an address too, and nothing else changes. */
  lemma AddToStackPointer(w: World, t: Track, inst: Instruction, offset: u64, next: u64, m: index)
    requires WellFormed(inst) && inst.cmd == Add && |inst.ops| == 3
    requires inst.ops[0] == Register(SP, 8) && IsX(inst.ops[1], m) && inst.ops[2].Imm? && m in t.known
    ensures var r := TrackArm64(w, t, inst, offset, next);
            && |r.events| == 1 && r.events[0].Taken?
            && ConcreteOf(w, r.events[0].address) == Add64(ConcreteOf(w, t.known[m]), Shl64(inst.ops[2].value, inst.ops[2].shift))
            && r.track == t
  {
    ConcreteSum(w, t.known[m], Shl64(inst.ops[2].value, inst.ops[2].shift));
    assert !inst.call && !inst.unsupported && !inst.linked;
    hide IsTableLoad, ConcreteOf, Shl64, WellFormed, Add64;
  }

  /** mov Xn, Xm: Xn is known exactly when Xm is, with the same address. */
  lemma MoveFinds(w: World, t: Track, inst: Instruction, offset: u64, next: u64, n: index, m: index)
    requires WellFormed(inst) && inst.cmd == Orr && |inst.ops| == 3
    requires IsX(inst.ops[0], n) && inst.ops[1] == Register(XZR, 8)
    requires inst.ops[2].Shifted? && inst.ops[2].reg == X(m) && inst.ops[2].size == 8 && inst.ops[2].amount == 0
    ensures var r := TrackArm64(w, t, inst, offset, next);
            && (n in r.track.known <==> m in t.known) && (m in t.known ==> r.track.known[n] == t.known[m])
            && KeepsAllBut(t, r.track, n) && r.events == []
  {
    var u := TrackFlags(t, inst);
    FlagsKeepKnown(t, inst);
    if m in t.known {
      SetFinds(u, n, t.known[m]);
    }
    DropLoses(u, n);
    assert !inst.call && !inst.unsupported;
    hide SetValue, Drop, TrackFlags, IsTableLoad, WellFormed;
  }

  /** What a load of an X register from `address` leaves: the pointer that can be read there, unless it is 0. */
  predicate LoadsPointer(w: World, t: Track, u: Track, n: index, address: Address) {
    var loaded := w.peek(address.value, address.relative, 8);
    && (n in u.known <==> loaded.Read? && loaded.value != 0)
    && (n in u.known ==> u.known[n] == Address(loaded.value, false))
    && KeepsAllBut(t, u, n)
  }

  function TakenOf(u: Track, n: index): seq<Event> {
    if n in u.known then [Taken(u.known[n])] else []
  }

  lemma LoadValueFinds(w: World, t: Track, n: index, address: Address)
    ensures var r := LoadValue(w, t, Register(X(n), 8), address);
            LoadsPointer(w, t, r.track, n, address) && r.events == TakenOf(r.track, n)
  {
    var loaded := w.peek(address.value, address.relative, 8);
    if loaded.Read? {
      SetFinds(t, n, Address(loaded.value, false));
    }
    DropLoses(t, n);
    hide SetValue, Drop;
  }

  /** ldr Xn, literal */
  lemma LiteralLoadFinds(w: World, t: Track, inst: Instruction, offset: u64, next: u64, n: index)
    requires Loaded(w) && WellFormed(inst) && inst.cmd == Ldr && |inst.ops| == 2 && IsX(inst.ops[0], n)
    requires inst.ops[1].Memory? && inst.ops[1].base == PC
    ensures var r := TrackArm64(w, t, inst, offset, next);
            exists address ::
              && ConcreteOf(w, address) == AddressOf(w, Add64(next, inst.ops[1].disp)) && address.relative == w.relative
              && LoadsPointer(w, t, r.track, n, address) && r.events == TakenOf(r.track, n)
  {
    var u := TrackFlags(t, inst);
    FlagsKeepKnown(t, inst);
    var address := ModuleAddress(w, Add64(next, inst.ops[1].disp));
    ModuleAddressIsConcrete(w, Add64(next, inst.ops[1].disp));
    LoadValueFinds(w, u, n, address);
    assert !inst.call && !inst.unsupported;
    hide TrackFlags, WellFormed, LoadValue, Loaded, Add64, ConcreteOf;
  }

  /** ldr Xn, [Xm, #imm] with Xm known: the address is data, and the pointer there is known and taken. */
  lemma OffsetLoadFinds(w: World, t: Track, inst: Instruction, offset: u64, next: u64, n: index, m: index)
    requires WellFormed(inst) && inst.cmd == Ldr && |inst.ops| == 2 && IsX(inst.ops[0], n)
    requires inst.ops[1].Memory? && inst.ops[1].base == X(m) && inst.ops[1].kind == UnsignedOffset && m in t.known
    ensures var r := TrackArm64(w, t, inst, offset, next);
            exists address ::
              && ConcreteOf(w, address) == Add64(ConcreteOf(w, t.known[m]), inst.ops[1].disp)
              && address.relative == t.known[m].relative
              && LoadsPointer(w, t, r.track, n, address) && r.events == [Data(address)] + TakenOf(r.track, n)
  {
    var u := TrackFlags(t, inst);
    FlagsKeepKnown(t, inst);
    var address := Address(Add64(t.known[m].value, inst.ops[1].disp), t.known[m].relative);
    ConcreteSum(w, t.known[m], inst.ops[1].disp);
    LoadValueFinds(w, u, n, address);
    assert !inst.call && !inst.unsupported;
    hide TrackFlags, WellFormed, LoadValue, Add64, ConcreteOf;
  }

  // ------------------------------------------------------------------ what stays known

  /** An instruction that may write any register leaves nothing known, and a call what its callee keeps: X19 to X29. */
  lemma CallsForget(w: World, t: Track, inst: Instruction, offset: u64, next: u64, i: index)
    requires WellFormed(inst) && (inst.unsupported || inst.call)
    ensures var r := TrackArm64(w, t, inst, offset, next);
            && r.events == []
            && if !inst.unsupported && 19 <= i <= 29 then Keeps(t, r.track, i) else i !in r.track.known
  {
    FlagsKeepKnown(t, inst);
    hide TrackFlags, TrackOther;
  }

  lemma OthersKept(t: Track, reg: Reg, i: index)
    requires RegisterIndex(reg) != Some(i)
    ensures forall value: Address :: Keeps(t, SetValue(t, reg, value), i)
    ensures Keeps(t, Drop(t, reg), i)
  {
  }

  lemma FirstUnnamed(ops: seq<Operand>, i: index)
    requires 0 < |ops| && !IsNamedIn(ops, i)
    ensures RegisterIndex(DestinationOf(ops[0])) != Some(i)
  {
    assert !IsNamed(ops[0], i);
  }

  lemma UnnamedDropped(t: Track, ops: seq<Operand>, i: index)
    requires !IsNamedIn(ops, i)
    ensures Keeps(t, DropNamed(t, ops), i)
  {
    NamedExactly(ops, i);
    DropNamedForgets(t, ops);
  }

  lemma TableKeeps(u: Track, inst: Instruction, i: index)
    requires 0 < |inst.ops| && RegisterIndex(DestinationOf(inst.ops[0])) != Some(i)
    ensures IsTableLoad(u, inst) ==> Keeps(u, LoadTable(u, inst).track, i)
    ensures IsTableTarget(u, inst) ==> Keeps(u, TargetOfTable(u, inst), i)
  {
  }

  lemma LoadKeeps(w: World, u: Track, op: Operand, address: Address, i: index)
    requires RegisterIndex(DestinationOf(op)) != Some(i)
    ensures Keeps(u, LoadValue(w, u, op, address).track, i)
  {
    OthersKept(u, DestinationOf(op), i);
    hide SetValue, Drop;
  }

  /** A register that an instruction does not name stays as known as it was. */
  lemma UnnamedIsKept(w: World, t: Track, inst: Instruction, offset: u64, next: u64, i: index)
    requires WellFormed(inst) && !inst.unsupported && !inst.call && !IsNamedIn(inst.ops, i)
    ensures Keeps(t, TrackArm64(w, t, inst, offset, next).track, i)
  {
    var u := TrackFlags(t, inst);
    FlagsKeepKnown(t, inst);
    UnnamedByOther(w, u, inst, offset, next, i);
    hide *;
    TrackIs(w, t, inst, offset, next);
    ValuesKeep(w, u, inst, offset, next, i);
    SameKeeps(t, u, i);
    KeepsTransitive(t, u, TrackArm64(w, t, inst, offset, next).track, i);
  }

  lemma TrackIs(w: World, t: Track, inst: Instruction, offset: u64, next: u64)
    ensures TrackArm64(w, t, inst, offset, next) == TrackValues(w, TrackFlags(t, inst), inst, offset, next)
  {
    hide TrackValues, TrackFlags;
  }

  lemma SameKeeps(t: Track, u: Track, i: index)
    requires u.known == t.known
    ensures Keeps(t, u, i)
  {
  }

  lemma KeepsTransitive(t: Track, u: Track, v: Track, i: index)
    requires Keeps(t, u, i) && Keeps(u, v, i)
    ensures Keeps(t, v, i)
  {
  }

  lemma ValuesKeep(w: World, u: Track, inst: Instruction, offset: u64, next: u64, i: index)
    requires WellFormed(inst) && !inst.unsupported && !inst.call && !IsNamedIn(inst.ops, i)
    requires Keeps(u, TrackOther(w, u, inst, offset, next).track, i)
    ensures Keeps(u, TrackValues(w, u, inst, offset, next).track, i)
  {
    assert IsTableLoad(u, inst) || IsTableTarget(u, inst) ==> 0 < |inst.ops|;
    hide WellFormed, IsNamedIn, SetValue, Add64, ModuleAddress, LoadTable, TargetOfTable, IsTableLoad, IsTableTarget, GetValue,
         TrackOther;
    if 0 < |inst.ops| {
      FirstUnnamed(inst.ops, i);
      OthersKept(u, DestinationOf(inst.ops[0]), i);
      TableKeeps(u, inst, i);
    }
  }

  lemma UnnamedByOther(w: World, u: Track, inst: Instruction, offset: u64, next: u64, i: index)
    requires !IsNamedIn(inst.ops, i)
    ensures Keeps(u, TrackOther(w, u, inst, offset, next).track, i)
  {
    UnnamedDropped(u, inst.ops, i);
    hide DropNamed, IsNamedIn, SetValue, Drop, Add64, Shl64, PageOf, ModuleAddress, LoadValue, DataEvents, GetValue, Keeps;
    if 0 < |inst.ops| {
      FirstUnnamed(inst.ops, i);
      OthersKept(u, DestinationOf(inst.ops[0]), i);
      LoadsKeep(w, u, inst.ops[0], i);
    }
  }

  lemma LoadsKeep(w: World, u: Track, op: Operand, i: index)
    requires RegisterIndex(DestinationOf(op)) != Some(i)
    ensures forall address: Address :: Keeps(u, LoadValue(w, u, op, address).track, i)
  {
    forall address: Address
      ensures Keeps(u, LoadValue(w, u, op, address).track, i)
    {
      LoadKeeps(w, u, op, address, i);
    }
  }

  // ------------------------------------------------------------------ the references it finds

  /** An access to a known address: nothing is added to a known register but an unsigned offset. */
  predicate IsKnownAccess(t: Track, op: Operand, address: Address) {
    && op.Memory? && op.kind == UnsignedOffset && !op.writeback && op.base.X? && op.base.n in t.known
    && address == Address(Add64(t.known[op.base.n].value, op.disp), t.known[op.base.n].relative)
  }

  predicate HasKnownAccess(t: Track, ops: seq<Operand>, address: Address) {
    exists k | 0 <= k < |ops| :: IsKnownAccess(t, ops[k], address)
  }

  lemma {:induction false} DataEventsExactly(t: Track, ops: seq<Operand>, e: Event)
    requires forall op | op in ops :: WellFormedOperand(op)
    ensures e in DataEvents(t, ops) <==> e.Data? && HasKnownAccess(t, ops, e.address)
  {
    if |ops| != 0 {
      DataEventsExactly(t, ops[1..], e);
      assert WellFormedOperand(ops[0]);
      if e.Data? && HasKnownAccess(t, ops[1..], e.address) {
        var k :| 0 <= k < |ops[1..]| && IsKnownAccess(t, ops[1..][k], e.address);
        assert ops[k + 1] == ops[1..][k];
      }
      if e.Data? && HasKnownAccess(t, ops, e.address) && !IsKnownAccess(t, ops[0], e.address) {
        var k :| 0 <= k < |ops| && IsKnownAccess(t, ops[k], e.address);
        assert ops[1..][k - 1] == ops[k];
      }
    }
  }

  lemma SameKnownAccess(t: Track, u: Track, ops: seq<Operand>, address: Address)
    requires u.known == t.known
    ensures HasKnownAccess(u, ops, address) <==> HasKnownAccess(t, ops, address)
  {
    if HasKnownAccess(t, ops, address) {
      var k :| 0 <= k < |ops| && IsKnownAccess(t, ops[k], address);
      assert IsKnownAccess(u, ops[k], address);
    }
    if HasKnownAccess(u, ops, address) {
      var k :| 0 <= k < |ops| && IsKnownAccess(u, ops[k], address);
      assert IsKnownAccess(t, ops[k], address);
    }
  }

  lemma LoadValueTakes(w: World, t: Track, op: Operand, address: Address, e: Event)
    ensures e in LoadValue(w, t, op, address).events ==> e.Taken?
  {
  }

  lemma LoadsTake(w: World, t: Track, op: Operand, e: Event)
    ensures forall address: Address | e in LoadValue(w, t, op, address).events :: e.Taken?
  {
    forall address: Address | e in LoadValue(w, t, op, address).events
      ensures e.Taken?
    {
      LoadValueTakes(w, t, op, address, e);
    }
  }

  /** Two operands, a register and a memory operand: the access is the second one. */
  lemma OneAccess(t: Track, ops: seq<Operand>, address: Address)
    requires |ops| == 2 && ops[0].Register?
    ensures HasKnownAccess(t, ops, address) <==> IsKnownAccess(t, ops[1], address)
  {
  }

  lemma NoKnownAccess(t: Track, ops: seq<Operand>, address: Address)
    requires forall k | 0 <= k < |ops| :: !ops[k].Memory?
    ensures !HasKnownAccess(t, ops, address)
  {
  }

  /** An instruction makes a data reference exactly to the addresses it is known to access, and to the base of a table
      that it begins. */
  lemma DataExactly(w: World, t: Track, inst: Instruction, offset: u64, next: u64, address: Address)
    requires WellFormed(inst) && !inst.unsupported && !inst.call
    ensures Data(address) in TrackArm64(w, t, inst, offset, next).events <==>
            || HasKnownAccess(t, inst.ops, address)
            || (IsTableLoad(TrackFlags(t, inst), inst) && t.known[inst.ops[1].base.n] == address)
  {
    var u := TrackFlags(t, inst);
    FlagsKeepKnown(t, inst);
    SameKnownAccess(t, u, inst.ops, address);
    DataEventsExactly(u, inst.ops, Data(address));
    hide TrackFlags, DropNamed, SetValue, Drop, Add64, Shl64, PageOf, ModuleAddress, LoadValue, TargetOfTable, DataEvents,
         HasKnownAccess, IsExactTable, Forget;
    TableDataExactly(w, t, u, inst, offset, next, address);
  }

  lemma TableDataExactly(w: World, t: Track, u: Track, inst: Instruction, offset: u64, next: u64, address: Address)
    requires WellFormed(inst) && !inst.unsupported && !inst.call && u.known == t.known
    requires HasKnownAccess(t, inst.ops, address) <==> Data(address) in DataEvents(u, inst.ops)
    ensures Data(address) in TrackValues(w, u, inst, offset, next).events <==>
            || HasKnownAccess(t, inst.ops, address)
            || (IsTableLoad(u, inst) && t.known[inst.ops[1].base.n] == address)
  {
    hide TrackFlags, DropNamed, SetValue, Drop, Add64, Shl64, PageOf, ModuleAddress, LoadValue, TargetOfTable, DataEvents,
         HasKnownAccess, IsExactTable, Forget;
    if |inst.ops| == 2 && inst.ops[0].Register? && inst.ops[1].Memory? {
      OneAccess(t, inst.ops, address);
      assert WellFormedOperand(inst.ops[1]);
      LoadsTake(w, u, inst.ops[0], Data(address));
      if IsTableLoad(u, inst) {
        assert TrackValues(w, u, inst, offset, next).events == [Data(t.known[inst.ops[1].base.n])];
      } else if inst.cmd == Ldr && inst.ops[1].kind == UnsignedOffset && GetValue(u, inst.ops[1].base, 8).Some? {
        var base := GetValue(u, inst.ops[1].base, 8).value;
        var at := Address(Add64(base.value, inst.ops[1].disp), base.relative);
        assert TrackValues(w, u, inst, offset, next).events == [Data(at)] + LoadValue(w, u, inst.ops[0], at).events;
      }
    } else if forall k | 0 <= k < |inst.ops| :: !inst.ops[k].Memory? {
      NoKnownAccess(t, inst.ops, address);
    }
  }

  // ------------------------------------------------------------------ the bounds it finds

  /** cmp Rn, #imm */
  lemma CompareIsKept(w: World, t: Track, inst: Instruction, offset: u64, next: u64, n: index)
    requires inst.cmd == Subs && |inst.ops| == 3 && inst.ops[0].Register? && inst.ops[0].reg in {WZR, XZR}
    requires inst.ops[1].Register? && inst.ops[1].reg in {X(n), W(n)} && inst.ops[2].Imm? && inst.ops[2].shift == 0
    ensures var r := TrackArm64(w, t, inst, offset, next);
            && r.track == t.(cmpReg := Some(n), cmpImm := inst.ops[2].value, cmpWide := inst.ops[1].reg == X(n)) && r.events == []
  {
  }

  /** How many values the register of a compare can have where the condition holds, or where it does not. */
  function CountAfter(cond: nat, imm: u64): nat {
    if cond in {8, 9, 12, 13} then imm + 1 else imm
  }

  predicate IsBounding(cond: nat, holds: bool) {
    if holds then cond in {3, 9, 11, 13} else cond in {2, 8, 10, 12}
  }

  /** The count is the right one: where the branch goes that way the register can be anything below it, at least where
      it is not negative, and nothing else. */
  lemma CountIsTight(cond: nat, holds: bool, imm: u64, wide: bool, v: u64)
    requires IsBounding(cond, holds) && imm < 4096 && v < (if wide then TWO64 / 2 else TWO32 / 2)
    ensures Holds(cond, CompareFlags(v, imm, wide)) == holds <==> v < CountAfter(cond, imm)
  {
  }

  /** A conditional branch bounds the compared register on the next instruction for hi, hs, gt and ge, and nothing else. */
  lemma BranchIsBounding(w: World, t: Track, inst: Instruction, offset: u64, next: u64, n: index)
    requires WellFormed(inst) && inst.cmd == BCond && 2 <= |inst.ops| && inst.ops[1].Cond? && t.cmpReg == Some(n)
    requires !IsNamedIn(inst.ops, n) && (t.boundReg.Some? ==> !IsNamedIn(inst.ops, t.boundReg.value))
    ensures var u := TrackArm64(w, t, inst, offset, next).track;
            var cond := inst.ops[1].cond;
            && u.cmpReg == None
            && BoundOf(u) == if IsBounding(cond, false) then Bound(Some(n), CountAfter(cond, t.cmpImm), t.cmpWide, cond in {2, 8})
                             else BoundOf(t)
  {
    NamedExactly(inst.ops, n);
    if t.boundReg.Some? {
      NamedExactly(inst.ops, t.boundReg.value);
    }
    DropNamedForgets(TrackFlags(t, inst), inst.ops);
    hide DropNamed, Named, IsNamedIn;
  }

  /** The target of the branch gets the bound for ls, lo, le and lt. */
  lemma TargetIsBounded(s: RouteBounds, t: Track, inst: Instruction, n: index)
    requires inst.cmd == BCond && 2 <= |inst.ops| && inst.ops[1].Cond? && t.cmpReg == Some(n)
    ensures var cond := inst.ops[1].cond;
            && (IsBounding(cond, true) ==>
                  RouteBound(s, t, inst) == Bound(Some(n), CountAfter(cond, t.cmpImm), t.cmpWide, cond in {3, 9}))
            && (IsBounding(cond, false) ==>
                  RouteBound(s, t, inst) == Bound(s.reg, CountAfter(cond, t.cmpImm), t.cmpWide, false))
            && (!IsBounding(cond, true) && !IsBounding(cond, false) ==>
                  RouteBound(s, t, inst) == Bound(s.reg, s.count, t.cmpWide, false))
  {
  }

  /** A route that no conditional branch leads to has the bound that is in the fields. */
  lemma PlainTargetIsNotBounded(s: RouteBounds, t: Track, inst: Instruction)
    requires inst.cmd != BCond || t.cmpReg == None
    ensures RouteBound(s, t, inst) == Bound(s.reg, s.count, t.cmpWide, false)
  {
  }

  predicate MayBranchOrSetFlags(inst: Instruction) {
    inst.linked || inst.unsupported || inst.cmd in {Subs, SetsFlags}
  }

  /** What belongs to the registers of a bound, a compare and a table. */
  ghost predicate KeepsMarks(t: Track, u: Track, n: index) {
    && (t.cmpReg == Some(n) ==> u.cmpReg == t.cmpReg && u.cmpImm == t.cmpImm && u.cmpWide == t.cmpWide)
    && (t.boundReg == Some(n) ==> BoundOf(u) == BoundOf(t))
  }

  lemma ForgetKeepsMarks(t: Track, mask: set<index>, n: index)
    requires n !in mask
    ensures KeepsMarks(t, Forget(t, mask), n)
  {
  }

  lemma OthersKeepMarks(t: Track, reg: Reg, n: index)
    requires RegisterIndex(reg) != Some(n)
    ensures forall value: Address :: KeepsMarks(t, SetValue(t, reg, value), n)
    ensures KeepsMarks(t, Drop(t, reg), n)
  {
  }

  lemma DropNamedKeepsMarks(t: Track, ops: seq<Operand>, n: index)
    requires !IsNamedIn(ops, n)
    ensures KeepsMarks(t, DropNamed(t, ops), n)
  {
    NamedExactly(ops, n);
    DropNamedForgets(t, ops);
    ForgetKeepsMarks(t, Named(ops), n);
  }

  lemma LoadKeepsMarks(w: World, t: Track, op: Operand, n: index)
    requires RegisterIndex(DestinationOf(op)) != Some(n)
    ensures forall address: Address :: KeepsMarks(t, LoadValue(w, t, op, address).track, n)
  {
    OthersKeepMarks(t, DestinationOf(op), n);
    hide SetValue, Drop;
  }

  lemma TableKeepsMarks(u: Track, inst: Instruction, n: index)
    requires 0 < |inst.ops| && RegisterIndex(DestinationOf(inst.ops[0])) != Some(n)
    ensures IsTableLoad(u, inst) ==> KeepsMarks(u, LoadTable(u, inst).track, n)
    ensures IsTableTarget(u, inst) ==> KeepsMarks(u, TargetOfTable(u, inst), n)
  {
  }

  lemma MarksByOther(w: World, t: Track, inst: Instruction, offset: u64, next: u64, n: index)
    requires !IsNamedIn(inst.ops, n)
    ensures KeepsMarks(t, TrackOther(w, t, inst, offset, next).track, n)
  {
    DropNamedKeepsMarks(t, inst.ops, n);
    hide DropNamed, IsNamedIn, SetValue, Drop, Add64, Shl64, PageOf, ModuleAddress, LoadValue, DataEvents, GetValue, KeepsMarks;
    if 0 < |inst.ops| {
      FirstUnnamed(inst.ops, n);
      OthersKeepMarks(t, DestinationOf(inst.ops[0]), n);
      LoadKeepsMarks(w, t, inst.ops[0], n);
    }
  }

  /** A compare lives until the flags may change or its register may, and a bound until its register may. */
  lemma MarksAreKept(w: World, t: Track, inst: Instruction, offset: u64, next: u64, n: index)
    requires WellFormed(inst) && !MayBranchOrSetFlags(inst) && !IsNamedIn(inst.ops, n)
    ensures KeepsMarks(t, TrackArm64(w, t, inst, offset, next).track, n)
  {
    assert TrackFlags(t, inst) == t && !IsCompare(inst) && !inst.call;
    assert IsTableLoad(t, inst) || IsTableTarget(t, inst) ==> 0 < |inst.ops|;
    MarksByOther(w, t, inst, offset, next, n);
    hide TrackFlags, WellFormed, IsNamedIn, SetValue, Add64, ModuleAddress, LoadTable, TargetOfTable, IsTableLoad, IsTableTarget,
         GetValue, TrackOther, IsCompare, KeepsMarks;
    if 0 < |inst.ops| {
      FirstUnnamed(inst.ops, n);
      OthersKeepMarks(t, DestinationOf(inst.ops[0]), n);
      TableKeepsMarks(t, inst, n);
    }
  }

  // ------------------------------------------------------------------ the tables it finds

  function SizeOf(cmd: Cmd, size: nat): nat {
    match cmd
    case Ldrb => 1
    case Ldrsb => 1
    case Ldrh => 2
    case Ldrsh => 2
    case Ldrsw => 4
    case _ => size
  }

  /** The load is scaled by the size of what it loads. */
  predicate IsScaled(op: Operand, size: nat)
    requires op.Memory?
  {
    if size == 1 then op.amount == 0
    else op.hasAmount && op.amount == (if size == 2 then 1 else if size == 4 then 2 else 3)
  }

  /** ldr Rn, [Xm, Rb, lsl #scale] with Xm known and Rb bounded: a table of as many entries as the bound says. */
  lemma TableIsFound(w: World, t: Track, inst: Instruction, offset: u64, next: u64, n: index, m: index, b: index)
    requires WellFormed(inst) && IsLoad(inst.cmd) && |inst.ops| == 2
    requires inst.ops[0].Register? && inst.ops[0].reg in {X(n), W(n)}
    requires inst.ops[1].Memory? && inst.ops[1].kind == RegisterOffset && inst.ops[1].base == X(m) && m in t.known
    requires inst.ops[1].indexed in {X(b), W(b)} && t.boundReg == Some(b) && t.boundCount != 0
    requires IsScaled(inst.ops[1], SizeOf(inst.cmd, inst.ops[0].size))
    ensures var r := TrackArm64(w, t, inst, offset, next);
            && r.events == [Data(t.known[m])] && n !in r.track.known && KeepsAllBut(t, r.track, n) && r.track.table.Some?
            && (var table := r.track.table.value;
                && table.reg == n && table.stage == 1 && table.address == t.known[m]
                && table.entrySize == SizeOf(inst.cmd, inst.ops[0].size)
                && (table.signed <==> inst.cmd in {Ldrsb, Ldrsh, Ldrsw}) && table.count == t.boundCount
                && (table.exact <==>
                      && t.boundExact && (inst.ops[1].indexed == W(b) || t.boundWide)
                      && (inst.cmd in {Ldrsb, Ldrsh, Ldrsw} ==> inst.ops[0].reg == X(n))))
  {
    assert !inst.linked && !inst.unsupported && !inst.call;
    assert TrackFlags(t, inst) == t;
    hide WellFormed;
  }

  /** add Xn, Xm, Rk, extend #shift with the table's entry in Rk and Xm known: Xn is where the entry leads. */
  lemma TableTargetIsFound(w: World, t: Track, inst: Instruction, offset: u64, next: u64, n: index, m: index)
    requires WellFormed(inst) && inst.cmd == Add && |inst.ops| == 3 && t.table.Some? && t.table.value.stage == 1
    requires IsX(inst.ops[0], n) && IsX(inst.ops[1], m) && m in t.known
    requires inst.ops[2].Shifted? && inst.ops[2].reg in {X(t.table.value.reg), W(t.table.value.reg)}
    requires inst.ops[2].extend !in {LSR, ASR, ROR}
    ensures var r := TrackArm64(w, t, inst, offset, next);
            && r.events == [] && n !in r.track.known && KeepsAllBut(t, r.track, n)
            && r.track.table == Some(t.table.value.(reg := n, stage := 2, base := t.known[m], extend := inst.ops[2].extend,
                                                    shift := inst.ops[2].amount))
  {
    assert !inst.linked && !inst.unsupported && !inst.call;
    assert TrackFlags(t, inst) == t;
    hide WellFormed;
  }

  // ------------------------------------------------------------------ what is found is what is written

  /** The instruction computes what it writes into Xn from what is known. */
  predicate Computes(w: World, t: Track, inst: Instruction, next: u64, n: index) {
    var ops := inst.ops;
    2 <= |ops| && IsX(ops[0], n) &&
    (|| (inst.cmd == Adr && |ops| == 2 && ops[1].Rel?)
     || (inst.cmd == Adrp && |ops| == 2 && ops[1].Special? && !w.baseUnknown)
     || (inst.cmd == Add && |ops| == 3 && ops[1].Register? && ops[1].reg.X? && ops[1].reg.n in t.known && ops[2].Imm?)
     || (inst.cmd == Orr && |ops| == 3 && ops[1].Register? && ops[1].reg == XZR
         && ops[2].Shifted? && ops[2].reg.X? && ops[2].amount == 0 && ops[2].reg.n in t.known))
  }

  /** Whatever an instruction computes from known registers is known after it: what the machine has written. */
  lemma WhatIsWrittenIsFound(w: World, t: Track, inst: Instruction, offset: u64, next: u64, n: index, a: machine, b: machine)
    requires Loaded(w) && WellFormed(inst) && Agrees(w, t, a) && FallsThrough(w, inst, offset, next, a, b)
    requires Computes(w, t, inst, next, n)
    ensures var u := TrackArm64(w, t, inst, offset, next).track; n in u.known && ConcreteOf(w, u.known[n]) == b.x[n]
  {
    StepIsSound(w, t, inst, offset, next, a, b);
    assert forall op | op in inst.ops :: WellFormedOperand(op);
    assert WellFormedOperand(inst.ops[0]) && WellFormedOperand(inst.ops[1]);
    if inst.cmd == Adr {
      AdrFinds(w, t, inst, offset, next, n);
    } else if inst.cmd == Adrp {
      AdrpFinds(w, t, inst, offset, next, n);
    } else if inst.cmd == Add {
      AddFinds(w, t, inst, offset, next, n, inst.ops[1].reg.n);
    } else {
      assert WellFormedOperand(inst.ops[2]);
      MoveFinds(w, t, inst, offset, next, n, inst.ops[2].reg.n);
    }
    hide TrackArm64, FallsThrough, Loaded, IsReal, CompareAgrees, TableAgrees, IsBelow;
  }

  /** A pointer in a known place that the file holds is known after it is loaded, as the machine has loaded it. */
  lemma WhatIsLoadedIsFound(w: World, t: Track, inst: Instruction, offset: u64, next: u64, n: index, m: index, a: machine, b: machine)
    requires Loaded(w) && WellFormed(inst) && Agrees(w, t, a) && FallsThrough(w, inst, offset, next, a, b)
    requires inst.cmd == Ldr && |inst.ops| == 2 && IsX(inst.ops[0], n) && inst.ops[1].Memory? && inst.ops[1].kind == UnsignedOffset
    requires inst.ops[1].base == X(m) && m in t.known
    requires forall address: Address | ConcreteOf(w, address) == Add64(a.x[m], inst.ops[1].disp) ::
               w.peek(address.value, address.relative, 8).Read?
    requires b.x[n] != 0
    ensures var r := TrackArm64(w, t, inst, offset, next);
            && n in r.track.known && r.track.known[n] == Address(b.x[n], false) && Taken(Address(b.x[n], false)) in r.events
  {
    OffsetLoadFinds(w, t, inst, offset, next, n, m);
    assert !inst.unsupported && !inst.call;
    OffsetLoad(w, t, inst, offset, next, a, b);
    hide TrackArm64, FallsThrough, WellFormed;
  }

  // ------------------------------------------------------------------ a jump table, from the compare to the jump

  /** cmp w0, #last; b.hi; adr x1, entries; ldrb w2, [x1, w0, uxtw]; adr x3, base; add x3, x3, w2, sxtb #2 */
  function TableCode(last: u64, entries: u64, base: u64, at: seq<u64>): seq<RouteStep>
    requires |at| == 7
  {
    var compare := Instruction(Subs, [Register(WZR, 4), Register(W(0), 4), Imm(last, 0)], false, false, false);
    var above := Instruction(BCond, [Rel(0), Cond(8)], true, false, false);
    var toEntries := Instruction(Adr, [Register(X(1), 8), Rel(entries)], false, false, false);
    var load := Instruction(Ldrb, [Register(W(2), 4), Memory(X(1), W(0), 0, RegisterOffset, false, UXTW, false, 0)], false, false, false);
    var toBase := Instruction(Adr, [Register(X(3), 8), Rel(base)], false, false, false);
    var sum := Instruction(Add, [Register(X(3), 8), Register(X(3), 8), Shifted(W(2), 4, SXTB, 2)], false, false, false);
    [RouteStep(compare, at[0], at[1]), RouteStep(above, at[1], at[2]), RouteStep(toEntries, at[2], at[3]),
     RouteStep(load, at[3], at[4]), RouteStep(toBase, at[4], at[5]), RouteStep(sum, at[5], at[6])]
  }

  /** After the branch falls through. */
  function Bounded(last: u64): Track {
    Track(map[], None, last, false, Some(0), last + 1, false, true, None)
  }

  lemma CodeBounds(w: World, last: u64, entries: u64, base: u64, at: seq<u64>)
    requires |at| == 7
    ensures var code := TableCode(last, entries, base, at);
            var t := TrackArm64(w, Reset(NoBound), code[0].inst, at[0], at[1]).track;
            TrackArm64(w, t, code[1].inst, at[1], at[2]).track == Bounded(last)
  {
  }

  lemma CodeAddresses(w: World, t: Track, n: index, rel: u64, offset: u64, next: u64)
    requires t.boundReg != Some(n) && t.cmpReg == None && (t.table.Some? ==> t.table.value.reg != n)
    ensures TrackArm64(w, t, Instruction(Adr, [Register(X(n), 8), Rel(rel)], false, false, false), offset, next).track ==
            t.(known := t.known[n := ModuleAddress(w, Add64(next, rel))])
  {
    assert (t.known - {n})[n := ModuleAddress(w, Add64(next, rel))] == t.known[n := ModuleAddress(w, Add64(next, rel))];
    hide ModuleAddress, Add64;
  }

  function FoundTable(t: Track, entries: Address): Track {
    t.(table := Some(Table(2, 1, entries, 1, false, t.boundCount, entries, LSL, 0, t.boundExact)))
  }

  lemma CodeLoads(w: World, t: Track, entries: Address, offset: u64, next: u64)
    requires t.known == map[1 := entries] && t.cmpReg == None && t.boundReg == Some(0) && t.boundCount != 0
    ensures var load := Instruction(Ldrb, [Register(W(2), 4), Memory(X(1), W(0), 0, RegisterOffset, false, UXTW, false, 0)],
                                    false, false, false);
            TrackArm64(w, t, load, offset, next).track == FoundTable(t, entries)
  {
    assert t.known - {2} == t.known;
  }

  lemma CodeSums(w: World, t: Track, base: Address, offset: u64, next: u64)
    requires t.table.Some? && t.table.value.stage == 1 && t.table.value.reg == 2 && 3 in t.known && t.known[3] == base
    ensures var sum := Instruction(Add, [Register(X(3), 8), Register(X(3), 8), Shifted(W(2), 4, SXTB, 2)], false, false, false);
            TrackArm64(w, t, sum, offset, next).track.table ==
            Some(t.table.value.(reg := 3, stage := 2, base := base, extend := SXTB, shift := 2))
  {
  }

  /** The table is found with all its entries and with where they lead, and it is exact: the jump through X3 is covered. */
  lemma TableCodeIsFound(w: World, last: u64, entries: u64, base: u64, at: seq<u64>)
    requires |at| == 7 && last < 4096
    ensures var t := TrackRoute(w, Reset(NoBound), TableCode(last, entries, base, at));
            && t.table == Some(Table(3, 2, ModuleAddress(w, Add64(at[3], entries)), 1, false, last + 1,
                                     ModuleAddress(w, Add64(at[5], base)), SXTB, 2, true))
            && IsTableJump(t, X(3))
  {
    hide *;
    var code := TableCode(last, entries, base, at);
    var first, second := ModuleAddress(w, Add64(at[3], entries)), ModuleAddress(w, Add64(at[5], base));
    CodeIs(last, entries, base, at);
    CodeStates(last, first, second);
    CodeBounds(w, last, entries, base, at);
    CodeAddresses(w, Bounded(last), 1, entries, at[2], at[3]);
    CodeLoads(w, Bounded(last).(known := map[1 := first]), first, at[3], at[4]);
    CodeAddresses(w, CodeState(last, first), 3, base, at[4], at[5]);
    CodeSums(w, CodeState(last, first).(known := map[1 := first, 3 := second]), second, at[5], at[6]);
    Unrolled(w, Reset(NoBound), code);
    IsJump(TrackRoute(w, Reset(NoBound), code));
  }

  /** When the entry is loaded. */
  function CodeState(last: u64, entries: Address): Track {
    FoundTable(Bounded(last).(known := map[1 := entries]), entries)
  }

  lemma CodeStates(last: u64, first: Address, second: Address)
    ensures Bounded(last).boundReg == Some(0) && Bounded(last).cmpReg == None && Bounded(last).table == None
    ensures Bounded(last).boundCount == last + 1 && Bounded(last).known[1 := first] == map[1 := first]
    ensures var t := CodeState(last, first);
            && t == FoundTable(Bounded(last).(known := map[1 := first]), first)
            && t.boundReg == Some(0) && t.cmpReg == None && t.known[3 := second] == map[1 := first, 3 := second]
            && t.table == Some(Table(2, 1, first, 1, false, last + 1, first, LSL, 0, true))
  {
  }

  lemma CodeIs(last: u64, entries: u64, base: u64, at: seq<u64>)
    requires |at| == 7
    ensures var code := TableCode(last, entries, base, at);
            && |code| == 6
            && (forall k | 0 <= k < 6 :: code[k].offset == at[k] && code[k].next == at[k + 1])
            && code[2].inst == Instruction(Adr, [Register(X(1), 8), Rel(entries)], false, false, false)
            && code[3].inst == Instruction(Ldrb, [Register(W(2), 4), Memory(X(1), W(0), 0, RegisterOffset, false, UXTW, false, 0)],
                                           false, false, false)
            && code[4].inst == Instruction(Adr, [Register(X(3), 8), Rel(base)], false, false, false)
            && code[5].inst == Instruction(Add, [Register(X(3), 8), Register(X(3), 8), Shifted(W(2), 4, SXTB, 2)], false, false, false)
  {
  }

  lemma IsJump(t: Track)
    requires t.table.Some? && t.table.value.reg == 3 && t.table.value.stage == 2
    ensures IsTableJump(t, X(3))
  {
  }

  lemma Unrolled(w: World, t: Track, code: seq<RouteStep>)
    requires |code| == 6
    ensures var t1 := TrackArm64(w, t, code[0].inst, code[0].offset, code[0].next).track;
            var t2 := TrackArm64(w, t1, code[1].inst, code[1].offset, code[1].next).track;
            var t3 := TrackArm64(w, t2, code[2].inst, code[2].offset, code[2].next).track;
            var t4 := TrackArm64(w, t3, code[3].inst, code[3].offset, code[3].next).track;
            var t5 := TrackArm64(w, t4, code[4].inst, code[4].offset, code[4].next).track;
            var t6 := TrackArm64(w, t5, code[5].inst, code[5].offset, code[5].next).track;
            TrackRoute(w, t, code) == t6
  {
    hide TrackArm64;
    OneStep(w, t, code, 0);
    var t1 := TrackArm64(w, t, code[0].inst, code[0].offset, code[0].next).track;
    OneStep(w, t1, code, 1);
    var t2 := TrackArm64(w, t1, code[1].inst, code[1].offset, code[1].next).track;
    OneStep(w, t2, code, 2);
    var t3 := TrackArm64(w, t2, code[2].inst, code[2].offset, code[2].next).track;
    OneStep(w, t3, code, 3);
    var t4 := TrackArm64(w, t3, code[3].inst, code[3].offset, code[3].next).track;
    OneStep(w, t4, code, 4);
    var t5 := TrackArm64(w, t4, code[4].inst, code[4].offset, code[4].next).track;
    OneStep(w, t5, code, 5);
    assert code[0..] == code;
  }

  lemma OneStep(w: World, t: Track, code: seq<RouteStep>, k: nat)
    requires k < |code|
    ensures var u := TrackArm64(w, t, code[k].inst, code[k].offset, code[k].next).track;
            && TrackRoute(w, t, code[k..]) == TrackRoute(w, u, code[k + 1..])
            && (k + 1 == |code| ==> TrackRoute(w, t, code[k..]) == u)
  {
    hide TrackArm64;
    assert code[k..][0] == code[k] && code[k..][1..] == code[k + 1..];
  }
}
