/** The IT blocks of T32 (DianaA32_DecodeT32, AdvanceIt): the decoder keeps ITSTATE between instructions, as
    section A2.5.2 of ARM DDI 0406C says, and marks the instructions of a block. */
module ItState {
  import opened Wrappers

  /** What the tables say of a halfword: IT itself, another instruction (perhaps with a condition field), nothing. */
  datatype Decoded = It(hw1: bv32) | Cmd(condition: Option<bv32>) | Undefined

  datatype Prefix = Prefix(condition: bv32, itCondition: Option<bv32>, notLast: bool)

  const ALWAYS: bv32 := 14

  /** AdvanceIt: ITAdvance() of the manual. */
  function Advance(state: bv32): bv32 {
    if state & 7 == 0 then 0 else (state & 0xE0) | ((state << 1) & 0x1F)
  }

  predicate InBlock(state: bv32) {
    state & 15 != 0
  }

  /** The condition of the next instruction of a block. */
  function ConditionOf(state: bv32): bv32 {
    state >> 4
  }

  predicate IsLast(state: bv32) {
    Advance(state) == 0
  }

  function PrefixOf(state: bv32, d: Decoded): Prefix {
    var own := match d
      case It(_) => if InBlock(state) then ConditionOf(state) else ALWAYS
      case Cmd(condition) =>
        if condition.Some? then condition.value else if InBlock(state) then ConditionOf(state) else ALWAYS
      case Undefined => ALWAYS;
    if InBlock(state) then Prefix(own, Some(ConditionOf(state)), !IsLast(state)) else Prefix(own, None, false)
  }

  /** IT sets firstcond and mask. */
  function StartOf(hw1: bv32): bv32 {
    hw1 & 0xFF
  }

  function NextState(state: bv32, d: Decoded): bv32 {
    if d.It? then StartOf(d.hw1) else Advance(state)
  }

  // ------------------------------------------------------------------ the flags

  function ItOf(flags: bv32): bv32 {
    flags & 0xFF
  }

  function OthersOf(flags: bv32): bv32 {
    flags & !0xFF
  }

  function WithIt(flags: bv32, state: bv32): bv32 {
    OthersOf(flags) | state
  }

  lemma NextIsByte(state: bv32, d: Decoded)
    requires state & !0xFF == 0
    ensures NextState(state, d) & !0xFF == 0
  {
  }

  lemma ByteReplaced(flags: bv32, state: bv32)
    requires state & !0xFF == 0
    ensures ((flags & !0xFF) | state) & 0xFF == state
    ensures ((flags & !0xFF) | state) & !0xFF == flags & !0xFF
  {
  }

  lemma WithItKeepsOthers(flags: bv32, d: Decoded)
    ensures var state := NextState(ItOf(flags), d);
            var flags' := WithIt(flags, state);
            ItOf(flags') == state && OthersOf(flags') == OthersOf(flags)
  {
    NextIsByte(ItOf(flags), d);
    hide NextState;
    ByteReplaced(flags, NextState(ItOf(flags), d));
  }

  /** The part of the context that the decoder of T32 changes. */
  class Context {
    var armFlags: bv32

    constructor ()
      ensures armFlags == 0
    {
      armFlags := 0;
    }

    method DecodeT32(d: Decoded) returns (p: Prefix)
      modifies this
      ensures p == PrefixOf(ItOf(old(armFlags)), d)
      ensures ItOf(armFlags) == NextState(ItOf(old(armFlags)), d)
      ensures OthersOf(armFlags) == OthersOf(old(armFlags))
    {
      hide Advance, InBlock, ItOf, OthersOf, WithIt, ConditionOf, IsLast, StartOf;
      var state := ItOf(armFlags);
      var condition, itCondition, notLast := ALWAYS, None, false;
      if d.Cmd? && d.condition.Some? {
        condition := d.condition.value;
      } else if !d.Undefined? && InBlock(state) {
        condition := ConditionOf(state);
      }
      if InBlock(state) {
        itCondition := Some(ConditionOf(state));
        notLast := !IsLast(state);
      }
      WithItKeepsOthers(armFlags, d);
      if d.It? {
        armFlags := WithIt(armFlags, StartOf(d.hw1));
      } else {
        armFlags := WithIt(armFlags, Advance(state));
      }
      return Prefix(condition, itCondition, notLast);
    }

    method ResetItState()
      modifies this
      ensures ItOf(armFlags) == 0 && OthersOf(armFlags) == OthersOf(old(armFlags))
    {
      armFlags := OthersOf(armFlags);
    }
  }

  // ------------------------------------------------------------------ the block that IT encodes

  /** IT, ITx, ITxy, ITxyz: the lowest bit that is set in the mask ends the block. */
  function BlockLength(it: bv32): nat {
    if it & 1 != 0 then 4 else if it & 2 != 0 then 3 else if it & 4 != 0 then 2 else if it & 8 != 0 then 1 else 0
  }

  /** The condition of instruction k: the first one as encoded, then its last bit comes from the mask. */
  function ConditionAt(it: bv32, k: nat): bv32
    requires k < 4
  {
    ((it >> 4) & 14) | ((it >> (4 - k)) & 1)
  }

  /** The prefixes of the instructions, decoded one after another. */
  function Prefixes(state: bv32, ds: seq<Decoded>): seq<Prefix>
    decreases |ds|
  {
    if |ds| == 0 then [] else [PrefixOf(state, ds[0])] + Prefixes(NextState(state, ds[0]), ds[1..])
  }

  function StateAfter(it: bv32, k: nat): bv32 {
    if k == 0 then it else Advance(StateAfter(it, k - 1))
  }

  /** The state before instruction k of the block. */
  lemma StateInBlock(it: bv32, k: nat)
    requires it <= 0xFF && k < BlockLength(it)
    ensures InBlock(StateAfter(it, k)) && StateAfter(it, k) >> 4 == ConditionAt(it, k)
    ensures (Advance(StateAfter(it, k)) != 0) <==> k + 1 < BlockLength(it)
  {
    assert StateAfter(it, 1) == Advance(it);
    assert StateAfter(it, 2) == Advance(Advance(it));
    assert StateAfter(it, 3) == Advance(Advance(Advance(it)));
    if k == 0 {
    } else if k == 1 {
    } else if k == 2 {
    } else {
    }
  }

  lemma {:induction false} StateAfterBlock(it: bv32, k: nat)
    requires it <= 0xFF && k >= BlockLength(it) && k >= 1
    ensures StateAfter(it, k) == 0
  {
    if k == BlockLength(it) {
      StateInBlock(it, k - 1);
    } else if k == 1 {
    } else {
      StateAfterBlock(it, k - 1);
    }
  }

  lemma {:induction false} PrefixesAt(it: bv32, n: nat, ds: seq<Decoded>, k: nat)
    requires k < |ds| && forall j | 0 <= j < |ds| :: !ds[j].It?
    ensures |Prefixes(StateAfter(it, n), ds)| == |ds|
    ensures Prefixes(StateAfter(it, n), ds)[k] == PrefixOf(StateAfter(it, n + k), ds[k])
    decreases |ds|
  {
    hide Advance, PrefixOf;
    var rest := Prefixes(StateAfter(it, n + 1), ds[1..]);
    assert Prefixes(StateAfter(it, n), ds) == [PrefixOf(StateAfter(it, n), ds[0])] + rest;
    if |ds| > 1 {
      PrefixesAt(it, n + 1, ds[1..], if k == 0 then 0 else k - 1);
    }
  }

  lemma InBlockPrefix(it: bv32, k: nat, d: Decoded)
    requires it <= 0xFF && !d.It? && k < BlockLength(it)
    ensures var p := PrefixOf(StateAfter(it, k), d);
            && p.itCondition == Some(ConditionAt(it, k)) && (p.notLast <==> k + 1 < BlockLength(it))
            && p.condition == (match d case Cmd(None) => ConditionAt(it, k) case Cmd(Some(own)) => own case _ => 14)
  {
    StateInBlock(it, k);
    hide Advance, StateAfter, ConditionAt, BlockLength, InBlock;
  }

  /** After IT, exactly the instructions of the encoded block are marked, each with the condition that the mask
      gives it, and all but the last as not last; those after it are not. */
  lemma BlockIsAsEncoded(it: bv32, ds: seq<Decoded>, k: nat)
    requires it <= 0xFF && InBlock(it) && k < |ds| && forall j | 0 <= j < |ds| :: !ds[j].It?
    ensures var ps := Prefixes(it, ds);
            && |ps| == |ds|
            && (ps[k].itCondition.Some? <==> k < BlockLength(it))
            && (k < BlockLength(it) ==> ps[k].itCondition.value == ConditionAt(it, k))
            && (ps[k].notLast <==> k + 1 < BlockLength(it))
            && ps[k].condition == (match ds[k]
                                   case Cmd(None) => if k < BlockLength(it) then ConditionAt(it, k) else 14
                                   case Cmd(Some(own)) => own
                                   case _ => 14)
  {
    PrefixesAt(it, 0, ds, k);
    if k < BlockLength(it) {
      InBlockPrefix(it, k, ds[k]);
      hide ConditionAt, PrefixOf, BlockLength, Prefixes;
    } else {
      StateAfterBlock(it, k);
    }
  }

  /** IT starts a block whatever it is in, and has the condition of the block it is in. */
  lemma ItStartsBlock(state: bv32, hw1: bv32)
    requires state <= 0xFF
    ensures NextState(state, It(hw1)) == hw1 & 0xFF
    ensures PrefixOf(state, It(hw1)).condition == if state & 15 == 0 then 14 else state >> 4
    ensures PrefixOf(state, It(hw1)).itCondition == if state & 15 == 0 then None else Some(state >> 4)
  {
  }

  /** ITSTATE is the low byte of the flags. */
  lemma ItIsLowByte(flags: bv32)
    ensures ItOf(flags) <= 0xFF && OthersOf(flags) & 0xFF == 0 && OthersOf(flags) | ItOf(flags) == flags
  {
  }
}
