/** The tracker as the program runs it: armRegs, armKnown and the other fields of the session change in
    place, one method for each function of the program. */
module ArmTracker {
  import opened Wrappers
  import opened ArmMachine
  import opened ArmTracking
  import opened ArmSoundness

  class RegisterTracker {
    const w: World
    const armRegs: array<u64>
    var armKnown: set<index>
    var armRelative: set<index>
    var cmpReg: Option<index>
    var cmpImm: u64
    var boundReg: Option<index>
    var boundCount: nat
    var routeBoundReg: Option<index>
    var routeBoundCount: nat
    var table: Option<Table>
    // not in the program: which bounds are exact, and at what width
    var cmpWide: bool
    var boundWide: bool
    var boundExact: bool

    predicate Valid() {
      armRegs.Length == 31
    }

    ghost function Values(): map<index, Address>
      requires Valid()
      reads this, armRegs
    {
      map i | i in armKnown :: Address(armRegs[i], i in armRelative)
    }

    ghost function View(): Track
      requires Valid()
      reads this, armRegs
    {
      Track(Values(), cmpReg, cmpImm, cmpWide, boundReg, boundCount, boundWide, boundExact, table)
    }

    /** A session: its fields are zeroed, and the route of the seed has no bound. */
    constructor (w: World)
      ensures Valid() && fresh(armRegs) && View() == Reset(NoBound) && NextBounds() == FirstBounds && this.w == w
    {
      this.w := w;
      armRegs := new u64[31](_ => 0);
      armKnown, armRelative := {}, {};
      cmpReg, cmpImm, cmpWide, table := None, 0, false, None;
      boundReg, boundCount, boundWide, boundExact := None, 0, false, false;
      routeBoundReg, routeBoundCount := Some(0), 0;
    }

    ghost function NextBounds(): RouteBounds
      reads this
    {
      RouteBounds(routeBoundReg, routeBoundCount)
    }

    /** ResetArm64State with the route that is popped. */
    method StartRoute(bound: Bound)
      requires Valid()
      modifies this
      ensures Valid() && View() == Reset(bound) && NextBounds() == old(NextBounds())
    {
      armKnown, cmpReg, cmpImm, cmpWide, table := {}, None, 0, false, None;
      boundReg, boundCount, boundWide, boundExact := bound.reg, bound.count, bound.wide, bound.exact;
    }

    /** The bound of the route to an in-module branch target, with what SaveNewRoute is called between. */
    method BranchRoute(inst: Instruction) returns (bound: Bound)
      requires Valid()
      modifies this`routeBoundReg, this`routeBoundCount
      ensures bound == RouteBound(old(NextBounds()), View(), inst) && NextBounds() == LaterBounds
      ensures View() == old(View())
    {
      var exact := false;
      if inst.cmd == BCond && 2 <= |inst.ops| && inst.ops[1].Cond? && cmpReg.Some? {
        var cond := inst.ops[1].cond;
        if cond in {8, 9, 12, 13} {
          routeBoundCount := cmpImm + 1;
        } else if cond in {2, 3, 10, 11} {
          routeBoundCount := cmpImm;
        }
        if cond in {3, 9, 11, 13} {
          routeBoundReg := cmpReg;
          exact := cond in {3, 9};
        }
      }
      bound := Bound(routeBoundReg, routeBoundCount, cmpWide, exact);
      routeBoundReg, routeBoundCount := None, 0;
    }

    method GetValueOf(reg: Reg, size: nat) returns (value: Option<Address>)
      requires Valid()
      ensures value == GetValue(View(), reg, size)
    {
      var i := RegisterIndex(reg);
      if size != 8 || i.None? || i.value !in armKnown {
        return None;
      }
      value := Some(Address(armRegs[i.value], i.value in armRelative));
    }

    /** ForgetArm64Registers */
    method ForgetRegisters(mask: set<index>)
      requires Valid()
      modifies this
      ensures NextBounds() == old(NextBounds())
      ensures View() == Forget(old(View()), mask)
    {
      armKnown := armKnown - mask;
      if cmpReg.Some? && cmpReg.value in mask {
        cmpReg := None;
      }
      if boundReg.Some? && boundReg.value in mask {
        boundCount := 0;
      }
      if table.Some? && table.value.reg in mask {
        table := None;
      }
      assert Values() == old(Values()) - mask;
    }

    /** SetArm64Value */
    method SetRegister(reg: Reg, value: Address)
      requires Valid()
      modifies this, armRegs
      ensures NextBounds() == old(NextBounds())
      ensures View() == SetValue(old(View()), reg, value)
    {
      var i := RegisterIndex(reg);
      if i.None? {
        return;
      }
      ForgetRegisters({i.value});
      ghost var forgotten := View();
      armRegs[i.value] := value.value;
      armKnown := armKnown + {i.value};
      if value.relative {
        armRelative := armRelative + {i.value};
      } else {
        armRelative := armRelative - {i.value};
      }
      assert Values() == forgotten.known[i.value := value];
    }

    /** DropArm64Register */
    method DropRegister(reg: Reg)
      requires Valid()
      modifies this
      ensures NextBounds() == old(NextBounds())
      ensures View() == Drop(old(View()), reg)
    {
      var i := RegisterIndex(reg);
      if i.Some? {
        ForgetRegisters({i.value});
      }
    }

    /** LoadArm64Value */
    method LoadRegister(target: Operand, address: Address) returns (events: seq<Event>)
      requires Valid()
      modifies this, armRegs
      ensures NextBounds() == old(NextBounds())
      ensures Tracked(View(), events) == LoadValue(w, old(View()), target, address)
    {
      var isX := target.Register? && target.reg.X?;
      var reg := match target case Register(r, _) => r case Shifted(r, _, _, _) => r case _ => NoReg;
      var loaded := w.peek(address.value, address.relative, 8);
      if !isX || loaded.Unreadable? || loaded.value == 0 {
        DropRegister(reg);
        return [];
      }
      SetRegister(reg, Address(loaded.value, false));
      return [Taken(Address(loaded.value, false))];
    }

    /** GetArm64BranchBound on the next instruction. */
    method UpdateBound(inst: Instruction)
      requires Valid()
      modifies this`boundReg, this`boundCount, this`boundWide, this`boundExact
      ensures match BranchBound(old(View()), inst, false)
              case None => BoundOf(View()) == BoundOf(old(View()))
              case Some(b) => BoundOf(View()) == b
    {
      if inst.cmd == BCond && 2 <= |inst.ops| && inst.ops[1].Cond? && cmpReg.Some? {
        var cond := inst.ops[1].cond;
        if cond == 8 || cond == 12 || cond == 2 || cond == 10 {
          boundReg := cmpReg;
          boundCount := if cond == 8 || cond == 12 then cmpImm + 1 else cmpImm;
          boundWide, boundExact := cmpWide, cond == 8 || cond == 2;
        }
      }
    }

    method UpdateFlags(inst: Instruction)
      requires Valid()
      modifies this
      ensures NextBounds() == old(NextBounds())
      ensures View() == TrackFlags(old(View()), inst)
    {
      hide MayChangeFlags, RegisterIndex, BranchBound;
      UpdateBound(inst);
      if MayChangeFlags(inst) {
        cmpReg := None;
      }
      assert Values() == old(Values());
    }

    /** The addresses of the operands with a known base, one event for each. */
    method DataReferences(ops: seq<Operand>) returns (events: seq<Event>)
      requires Valid()
      ensures events == DataEvents(View(), ops)
    {
      events := [];
      var k := 0;
      while k < |ops|
        invariant 0 <= k <= |ops| && events + DataEvents(View(), ops[k..]) == DataEvents(View(), ops)
      {
        var op := ops[k];
        assert ops[k..][0] == op && ops[k..][1..] == ops[k + 1..];
        var value := None;
        if op.Memory? {
          value := GetValueOf(op.base, 8);
        }
        ghost var rest := DataEvents(View(), ops[k + 1..]);
        if op.Memory? && op.kind == UnsignedOffset && !op.writeback && value.Some? {
          var event := Data(Address(Add64(value.value.value, op.disp), value.value.relative));
          assert events + ([event] + rest) == (events + [event]) + rest;
          events := events + [event];
        } else {
          assert [] + rest == rest;
        }
        k := k + 1;
      }
    }

    /** Nothing stays known of any register among the operands, bases that are updated included. */
    method DropAllNamed(ops: seq<Operand>)
      requires Valid()
      modifies this
      ensures NextBounds() == old(NextBounds())
      ensures View() == DropNamed(old(View()), ops)
    {
      var k := 0;
      while k < |ops|
        invariant k <= |ops| && DropNamed(View(), ops[k..]) == DropNamed(old(View()), ops)
        invariant NextBounds() == old(NextBounds())
      {
        assert ops[k..][0] == ops[k] && ops[k..][1..] == ops[k + 1..];
        match ops[k] {
          case Register(reg, _) => DropRegister(reg);
          case Shifted(reg, _, _, _) => DropRegister(reg);
          case Memory(base, _, _, _, writeback, _, _, _) => if writeback { DropRegister(base); }
          case _ =>
        }
        k := k + 1;
      }
    }

    method StartTable(inst: Instruction) returns (events: seq<Event>)
      requires Valid() && IsTableLoad(View(), inst)
      modifies this
      ensures NextBounds() == old(NextBounds())
      ensures Tracked(View(), events) == LoadTable(old(View()), inst)
    {
      ghost var was := View();
      var i := RegisterIndex(inst.ops[0].reg).value;
      var address := GetValueOf(inst.ops[1].base, 8);
      var exact := && boundExact && (inst.ops[1].indexed.W? || boundWide)
                   && (inst.cmd in {Ldrsb, Ldrsh, Ldrsw} ==> inst.ops[0].reg.X?);
      assert exact == IsExactTable(was, inst);
      // ForgetRegisters can drop the bound: the table has to take it over before
      var count := boundCount;
      ForgetRegisters({i});
      table := Some(Table(i, 1, address.value, LoadSize(inst.cmd, inst.ops[0]), inst.cmd in {Ldrsb, Ldrsh, Ldrsw}, count,
                          address.value, LSL, 0, exact));
      assert Values() == Forget(was, {i}).known;
      return [Data(address.value)];
    }

    method FinishTable(inst: Instruction)
      requires Valid() && IsTableTarget(View(), inst)
      modifies this
      ensures NextBounds() == old(NextBounds())
      ensures View() == TargetOfTable(old(View()), inst)
    {
      ghost var was := View();
      var i := RegisterIndex(inst.ops[0].reg).value;
      var base := GetValueOf(inst.ops[1].reg, inst.ops[1].size);
      var entry := table.value;
      ForgetRegisters({i});
      table := Some(entry.(reg := i, stage := 2, base := base.value, extend := inst.ops[2].extend, shift := inst.ops[2].amount));
      assert Values() == Forget(was, {i}).known;
    }

    /** SaveArm64JumpTable: the targets of the entries, up to the first that cannot be read. */
    method TableTargets() returns (targets: seq<Address>)
      requires Valid() && table.Some?
      ensures var count := if table.value.count < MAX_JUMP_TABLE then table.value.count else MAX_JUMP_TABLE;
              && (forall a | a in targets :: exists k | 0 <= k < count :: IsEntryTarget(w, table.value, k, a))
              && (forall k | 0 <= k < count && (forall j | 0 <= j <= k :: IsReadable(w, table.value, j)) ::
                    TargetAt(w, table.value, k) in targets)
    {
      targets := [];
      var k, last := 0, Address(0, false);
      var t := table.value;
      while k < t.count && k < MAX_JUMP_TABLE
        invariant k <= t.count && k <= MAX_JUMP_TABLE
        invariant forall a | a in targets :: exists j | 0 <= j < k :: IsEntryTarget(w, t, j, a)
        invariant forall j | 0 <= j < k :: IsReadable(w, t, j) && TargetAt(w, t, j) in targets
        invariant 0 < k ==> last == TargetAt(w, t, k - 1)
      {
        var address := EntryAddress(t, k);
        var entry := w.peek(address.value, address.relative, t.entrySize);
        if entry.Unreadable? {
          assert !IsReadable(w, t, k);
          return;
        }
        var target := EntryTarget(t, SignedEntry(entry.value, t.entrySize, t.signed));
        assert IsEntryTarget(w, t, k, target);
        if !(k != 0 && target.value == last.value) {
          targets := targets + [target];
        } else {
          assert target == last;
        }
        last := target;
        k := k + 1;
      }
    }

    /** TrackArm64 */
    method Track64(inst: Instruction, offset: u64, next: u64) returns (events: seq<Event>)
      requires Valid()
      modifies this, armRegs
      ensures NextBounds() == old(NextBounds())
      ensures Tracked(View(), events) == TrackArm64(w, old(View()), inst, offset, next)
    {
      UpdateFlags(inst);
      events := TrackKnown(inst, offset, next);
    }

    method TrackKnown(inst: Instruction, offset: u64, next: u64) returns (events: seq<Event>)
      requires Valid()
      modifies this, armRegs
      ensures NextBounds() == old(NextBounds())
      ensures Tracked(View(), events) == TrackValues(w, old(View()), inst, offset, next)
    {
      hide SetValue, Forget, LoadTable, TargetOfTable, IsTableLoad, IsTableTarget, TrackOther, Add64, ModuleAddress;
      var ops := inst.ops;
      events := [];
      if IsCompare(inst) {
        cmpReg, cmpImm, cmpWide := RegisterIndex(ops[1].reg), ops[2].value, ops[1].reg.X?;
        assert Values() == old(Values());
        return;
      }
      if inst.cmd == Adr && |ops| == 2 && ops[1].Rel? {
        SetRegister(match ops[0] case Register(r, _) => r case _ => NoReg, ModuleAddress(w, Add64(next, ops[1].offset)));
        return;
      }
      var isLoad := StartsTable(inst);
      if isLoad {
        events := StartTable(inst);
        return;
      }
      var isTarget := FinishesTable(inst);
      if isTarget {
        FinishTable(inst);
        return;
      }
      if inst.unsupported {
        ForgetRegisters(AllRegisters());
        return;
      }
      if inst.call {
        ForgetRegisters(CallerSaved());
        return;
      }
      events := TrackRest(inst, offset, next);
    }

    method StartsTable(inst: Instruction) returns (yes: bool)
      requires Valid()
      ensures yes == IsTableLoad(View(), inst)
    {
      if !(IsLoad(inst.cmd) && |inst.ops| == 2 && inst.ops[1].Memory? && inst.ops[1].kind == RegisterOffset
           && boundCount != 0 && RegisterIndex(inst.ops[1].indexed) == boundReg) {
        return false;
      }
      var scale := Log2(LoadSize(inst.cmd, inst.ops[0]));
      var scaled := if scale == 0 then inst.ops[1].amount == 0 else inst.ops[1].hasAmount && inst.ops[1].amount == scale;
      var base := GetValueOf(inst.ops[1].base, 8);
      yes := scaled && inst.ops[0].Register? && RegisterIndex(inst.ops[0].reg).Some? && base.Some?;
    }

    method FinishesTable(inst: Instruction) returns (yes: bool)
      requires Valid()
      ensures yes == IsTableTarget(View(), inst)
    {
      if !(inst.cmd == Add && |inst.ops| == 3 && table.Some? && inst.ops[1].Register?) {
        return false;
      }
      var base := GetValueOf(inst.ops[1].reg, inst.ops[1].size);
      yes := && table.value.stage == 1 && inst.ops[0].Register? && inst.ops[0].size == 8
             && inst.ops[2].Shifted? && RegisterIndex(inst.ops[2].reg) == Some(table.value.reg) && base.Some?
             && inst.ops[2].extend !in {LSR, ASR, ROR} && RegisterIndex(inst.ops[0].reg).Some?;
    }

    method TrackRest(inst: Instruction, offset: u64, next: u64) returns (events: seq<Event>)
      requires Valid()
      modifies this, armRegs
      ensures NextBounds() == old(NextBounds())
      ensures Tracked(View(), events) == TrackOther(w, old(View()), inst, offset, next)
    {
      hide SetValue, Drop, DropNamed, DataEvents, LoadValue, Add64, Shl64, PageOf, ModuleAddress, RegisterIndex;
      var ops := inst.ops;
      events := [];
      if inst.cmd == Adrp && |ops| == 2 && ops[1].Special? {
        var reg := match ops[0] case Register(r, _) => r case _ => NoReg;
        if w.baseUnknown {
          DropRegister(reg);
        } else {
          var page := ModuleAddress(w, offset);
          SetRegister(reg, Address(Add64(PageOf(page.value), ops[1].page), page.relative));
        }
        return;
      }
      var base := None;
      if |ops| == 3 && ops[1].Register? {
        base := GetValueOf(ops[1].reg, ops[1].size);
      } else if |ops| == 2 && ops[1].Memory? {
        base := GetValueOf(ops[1].base, 8);
      }
      if inst.cmd == Add && |ops| == 3 && ops[2].Imm? && ops[0].Register? && ops[0].size == 8 && ops[1].Register? && base.Some? {
        var value := Address(Add64(base.value.value, Shl64(ops[2].value, ops[2].shift)), base.value.relative);
        SetRegister(ops[0].reg, value);
        events := [Taken(value)];
      } else if inst.cmd == Orr && |ops| == 3 && ops[1].Register? && ops[1].reg == XZR && ops[2].Shifted? && ops[2].amount == 0
                && ops[0].Register? {
        var source := GetValueOf(ops[2].reg, ops[2].size);
        if source.Some? {
          SetRegister(ops[0].reg, source.value);
        } else {
          DropRegister(ops[0].reg);
        }
      } else if inst.cmd == Ldr && |ops| == 2 && ops[1].Memory? && ops[1].base == PC {
        events := LoadRegister(ops[0], ModuleAddress(w, Add64(next, ops[1].disp)));
      } else if inst.cmd == Ldr && |ops| == 2 && ops[1].Memory? && ops[1].kind == UnsignedOffset && base.Some? {
        var address := Address(Add64(base.value.value, ops[1].disp), base.value.relative);
        events := LoadRegister(ops[0], address);
        events := [Data(address)] + events;
      } else {
        events := DataReferences(ops);
        DropAllNamed(ops);
      }
    }
  }

  // ------------------------------------------------------------------ jump tables

  predicate IsReadable(w: World, t: Table, k: nat) {
    w.peek(EntryAddress(t, k).value, EntryAddress(t, k).relative, t.entrySize).Read?
  }

  function TargetAt(w: World, t: Table, k: nat): Address {
    match w.peek(EntryAddress(t, k).value, EntryAddress(t, k).relative, t.entrySize)
    case Unreadable => Address(0, false)
    case Read(entry) => EntryTarget(t, SignedEntry(entry, t.entrySize, t.signed))
  }

  predicate IsEntryTarget(w: World, t: Table, k: nat, a: Address) {
    IsReadable(w, t, k) && a == TargetAt(w, t, k)
  }

  /** br Xn through an exact table whose entries can be read: a route goes where the branch goes. */
  lemma TableJumpHasRoute(w: World, t: Track, reg: Reg, c: machine, targets: seq<Address>)
    requires Loaded(w) && Agrees(w, t, c) && IsTableJump(t, reg) && t.table.value.exact
    requires forall k | 0 <= k < t.table.value.count :: IsReadable(w, t.table.value, k)
    requires forall k | 0 <= k < t.table.value.count :: TargetAt(w, t.table.value, k) in targets
    ensures exists a | a in targets :: ConcreteOf(w, a) == c.x[t.table.value.reg]
  {
    var table := t.table.value;
    TableJumpIsCovered(w, t, reg, c);
    var k :| 0 <= k < table.count &&
             c.x[table.reg] == ConcreteOf(w, EntryTarget(table, SignedEntry(w.read(ConcreteOf(w, EntryAddress(table, k)), table.entrySize),
                                                                          table.entrySize, table.signed)));
    assert IsReadable(w, table, k);
    assert TargetAt(w, table, k) in targets;
  }
}
