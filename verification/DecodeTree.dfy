/** The decode trees of AArch64, A32 and T32 (DianaA64_DecodeWord, Lookup, WalkTree, GetUndefinedCmd): a word
    is looked up through nodes that switch on its bits. The tree is an index: it decodes every word as a
    scan of the flat table of encodings does. */
module DecodeTree {
  import opened Wrappers

  /** A decision on `bits` bits of the word; its slots begin at `first`. */
  datatype Node = Node(shift: nat, bits: nat, first: nat)

  datatype Leaf = Leaf(mask: bv32, value: bv32, cmd: nat)

  datatype MaskValue = MaskValue(mask: bv32, value: bv32)

  /** A pair of fields that must differ; with spIs31, 31 is SP in the first field and equals nothing. */
  datatype FieldPair = FieldPair(lsb1: nat, lsb2: nat, width: nat, spIs31: bool)

  /** `fills` says for which words the operands can be filled in. */
  datatype Cmd = Cmd(features: bv64, anyOf: bv64, needsAny: bool, unless: seq<MaskValue>, distinct: seq<FieldPair>,
                     fills: bv32 -> bool)

  datatype Tree = Tree(nodes: seq<Node>, slots: seq<bv32>, leaves: seq<Leaf>)

  datatype Class = Supported(cmd: nat) | Disabled | Unsupported | Unallocated

  const NODE_FLAG: bv32 := 0x8000_0000

  // ------------------------------------------------------------------ the words

  function Field(word: bv32, lsb: nat, bits: nat): bv32
    requires lsb < 32 && bits < 32
  {
    (word >> lsb) & (((1 as bv32) << bits) - 1)
  }

  predicate Matches(word: bv32, mask: bv32, value: bv32) {
    word & mask == value
  }

  predicate IsNode(slot: bv32) {
    slot & NODE_FLAG != 0
  }

  function ChildOf(slot: bv32): nat {
    (slot & 0x7FFF_FFFF) as nat
  }

  function FirstLeaf(slot: bv32): nat {
    (slot >> 4) as nat
  }

  function LeafCount(slot: bv32): nat {
    (slot & 15) as nat
  }

  predicate HasLeaves(t: Tree, slot: bv32) {
    FirstLeaf(slot) + LeafCount(slot) <= |t.leaves|
  }

  function LeavesOf(t: Tree, slot: bv32): seq<Leaf>
    requires HasLeaves(t, slot)
  {
    t.leaves[FirstLeaf(slot)..FirstLeaf(slot) + LeafCount(slot)]
  }

  // ------------------------------------------------------------------ what accepts a word

  predicate IsUnless(cmd: Cmd, word: bv32) {
    exists k | 0 <= k < |cmd.unless| :: Matches(word, cmd.unless[k].mask, cmd.unless[k].value)
  }

  predicate IsPairValid(p: FieldPair) {
    p.lsb1 < 32 && p.lsb2 < 32 && p.width < 32
  }

  predicate IsEqualPair(p: FieldPair, word: bv32)
    requires IsPairValid(p)
  {
    var v := Field(word, p.lsb1, p.width);
    v == Field(word, p.lsb2, p.width) && !(p.spIs31 && v == ((1 as bv32) << p.width) - 1)
  }

  predicate IsCmdValid(cmd: Cmd) {
    forall k | 0 <= k < |cmd.distinct| :: IsPairValid(cmd.distinct[k])
  }

  predicate HasEqualPair(cmd: Cmd, word: bv32)
    requires IsCmdValid(cmd)
  {
    exists k | 0 <= k < |cmd.distinct| :: IsEqualPair(cmd.distinct[k], word)
  }

  predicate HasNothingOutside(features: bv64, profile: bv64) {
    features & !profile == 0
  }

  predicate Meet(features: bv64, profile: bv64) {
    features & profile != 0
  }

  predicate IsEnabled(cmd: Cmd, profile: bv64) {
    HasNothingOutside(cmd.features, profile) && (!cmd.needsAny || Meet(cmd.anyOf, profile))
  }

  predicate IsLeafValid(cmds: seq<Cmd>, l: Leaf) {
    l.cmd < |cmds| && IsCmdValid(cmds[l.cmd])
  }

  /** The encoding of the leaf is one of the word, whatever the features are. */
  predicate Encodes(cmds: seq<Cmd>, l: Leaf, word: bv32) {
    && IsLeafValid(cmds, l) && Matches(word, l.mask, l.value)
    && !IsUnless(cmds[l.cmd], word) && !HasEqualPair(cmds[l.cmd], word)
  }

  predicate Accepts(cmds: seq<Cmd>, l: Leaf, word: bv32, profile: bv64) {
    Encodes(cmds, l, word) && IsEnabled(cmds[l.cmd], profile) && cmds[l.cmd].fills(word)
  }

  predicate IsDisabledBy(cmds: seq<Cmd>, l: Leaf, word: bv32, profile: bv64) {
    Encodes(cmds, l, word) && !IsEnabled(cmds[l.cmd], profile)
  }

  // ------------------------------------------------------------------ the flat table

  function FirstAccepted(cmds: seq<Cmd>, table: seq<Leaf>, word: bv32, profile: bv64): Option<nat> {
    if |table| == 0 then None
    else if Accepts(cmds, table[0], word, profile) then Some(table[0].cmd)
    else FirstAccepted(cmds, table[1..], word, profile)
  }

  predicate AnyDisabled(cmds: seq<Cmd>, table: seq<Leaf>, word: bv32, profile: bv64) {
    exists k | 0 <= k < |table| :: IsDisabledBy(cmds, table[k], word, profile)
  }

  predicate AnyMatches(table: seq<Leaf>, word: bv32) {
    exists k | 0 <= k < |table| :: Matches(word, table[k].mask, table[k].value)
  }

  /** What a scan of the flat tables says of a word. */
  function Classify(cmds: seq<Cmd>, table: seq<Leaf>, unsupported: seq<Leaf>, word: bv32, profile: bv64): Class {
    match FirstAccepted(cmds, table, word, profile)
    case Some(cmd) => Supported(cmd)
    case None =>
      if AnyDisabled(cmds, table, word, profile) then Disabled
      else if AnyMatches(unsupported, word) then Unsupported
      else Unallocated
  }

  // ------------------------------------------------------------------ well-formed trees

  /** A branch of a node: the field has this value. */
  datatype Decision = Decision(node: Node, value: bv32)

  predicate IsNodeValid(n: Node) {
    n.shift < 32 && n.bits < 32
  }

  predicate Takes(d: Decision, word: bv32) {
    IsNodeValid(d.node) && Field(word, d.node.shift, d.node.bits) == d.value
  }

  predicate Follows(path: seq<Decision>, word: bv32) {
    forall k | 0 <= k < |path| :: Takes(path[k], word)
  }

  /** Some word that takes the path has the encoding: the fixed bits do not contradict the branches. */
  ghost predicate IsCompatible(path: seq<Decision>, l: Leaf) {
    exists word: bv32 :: Follows(path, word) && Matches(word, l.mask, l.value)
  }

  /** The encodings of the table that are compatible with the path, in the order of the table. */
  ghost function Compatible(table: seq<Leaf>, path: seq<Decision>): seq<Leaf> {
    if |table| == 0 then []
    else (if IsCompatible(path, table[0]) then [table[0]] else []) + Compatible(table[1..], path)
  }

  /** The leaves of every slot below the node are the encodings compatible with the way there. The tree has no
      cycle: no way is longer than `height`. */
  ghost predicate IsIndexOf(t: Tree, n: nat, path: seq<Decision>, table: seq<Leaf>, height: nat)
    decreases height, 1
  {
    && n < |t.nodes| && IsNodeValid(t.nodes[n])
    && forall v: bv32 | v <= ((1 as bv32) << t.nodes[n].bits) - 1 :: IsSlotIndex(t, n, v, path, table, height)
  }

  ghost predicate IsSlotIndex(t: Tree, n: nat, v: bv32, path: seq<Decision>, table: seq<Leaf>, height: nat)
    requires n < |t.nodes|
    decreases height, 0
  {
    var place := t.nodes[n].first + v as nat;
    var way := path + [Decision(t.nodes[n], v)];
    && place < |t.slots|
    && (var slot := t.slots[place];
        if IsNode(slot) then 0 < height && IsIndexOf(t, ChildOf(slot), way, table, height - 1)
        else HasLeaves(t, slot) && LeavesOf(t, slot) == Compatible(table, way))
  }

  // ------------------------------------------------------------------ the tree agrees with the table

  lemma {:induction false} CompatibleKeepsFirst(cmds: seq<Cmd>, table: seq<Leaf>, path: seq<Decision>, word: bv32,
                                                profile: bv64)
    requires Follows(path, word)
    ensures FirstAccepted(cmds, Compatible(table, path), word, profile) == FirstAccepted(cmds, table, word, profile)
  {
    if |table| != 0 {
      CompatibleKeepsFirst(cmds, table[1..], path, word, profile);
      var rest := Compatible(table[1..], path);
      hide Encodes;
      if IsCompatible(path, table[0]) {
        assert ([table[0]] + rest)[1..] == rest;
      } else {
        NotAccepted(cmds, path, table[0], word, profile);
        assert [] + rest == rest;
      }
    }
  }

  lemma NotAccepted(cmds: seq<Cmd>, path: seq<Decision>, l: Leaf, word: bv32, profile: bv64)
    requires Follows(path, word) && !IsCompatible(path, l)
    ensures !Accepts(cmds, l, word, profile)
  {
  }

  /** No encoding of the word is lost, and none comes from nowhere. */
  lemma {:induction false} CompatibleKeepsMatches(table: seq<Leaf>, path: seq<Decision>, word: bv32, l: Leaf)
    requires Follows(path, word) && Matches(word, l.mask, l.value)
    ensures l in Compatible(table, path) <==> l in table
  {
    if |table| != 0 {
      CompatibleKeepsMatches(table[1..], path, word, l);
      assert table == [table[0]] + table[1..];
    }
  }

  lemma FieldIsSmall(word: bv32, lsb: nat, bits: nat)
    requires lsb < 32 && bits < 32
    ensures Field(word, lsb, bits) <= ((1 as bv32) << bits) - 1
  {
    AndIsSmall(word >> lsb, ((1 as bv32) << bits) - 1);
  }

  lemma AndIsSmall(x: bv32, m: bv32)
    ensures x & m <= m
  {
  }

  lemma WalkOn(t: Tree, n: nat, path: seq<Decision>, table: seq<Leaf>, height: nat, word: bv32)
    requires IsIndexOf(t, n, path, table, height) && Follows(path, word)
    ensures n < |t.nodes| && IsNodeValid(t.nodes[n])
    ensures var node := t.nodes[n];
            var v := Field(word, node.shift, node.bits);
            var way, place := path + [Decision(node, v)], node.first + v as nat;
            && Follows(way, word) && place < |t.slots|
            && (var slot := t.slots[place];
                if IsNode(slot) then 0 < height && IsIndexOf(t, ChildOf(slot), way, table, height - 1)
                else HasLeaves(t, slot) && LeavesOf(t, slot) == Compatible(table, way))
  {
    hide Compatible, IsNode, ChildOf, FirstLeaf, LeafCount, HasLeaves, LeavesOf, Field;
    var node := t.nodes[n];
    FieldIsSmall(word, node.shift, node.bits);
    assert IsSlotIndex(t, n, Field(word, node.shift, node.bits), path, table, height);
  }


  lemma StartFollows(word: bv32)
    ensures Follows([], word)
  {
  }

  /** WalkTree: the leaves of the word are those of the table that are compatible with a path the word takes. */
  method WalkTree(t: Tree, word: bv32, ghost table: seq<Leaf>, ghost height: nat)
    returns (slot: bv32, ghost path: seq<Decision>)
    requires IsIndexOf(t, 0, [], table, height)
    ensures !IsNode(slot) && HasLeaves(t, slot) && LeavesOf(t, slot) == Compatible(table, path) && Follows(path, word)
  {
    hide Follows, Compatible, IsIndexOf, Field, IsNode, ChildOf, HasLeaves, LeavesOf;
    var n: nat := 0;
    path := [];
    ghost var h := height;
    StartFollows(word);
    while true
      invariant IsIndexOf(t, n, path, table, h) && Follows(path, word)
      decreases h
    {
      WalkOn(t, n, path, table, h, word);
      var node := t.nodes[n];
      var v := Field(word, node.shift, node.bits);
      slot := t.slots[node.first + v as nat];
      path := path + [Decision(node, v)];
      if !IsNode(slot) {
        return;
      }
      n, h := ChildOf(slot), h - 1;
    }
  }

  method MatchesUnless(cmd: Cmd, word: bv32) returns (yes: bool)
    ensures yes == IsUnless(cmd, word)
  {
    var i := 0;
    while i < |cmd.unless|
      invariant 0 <= i <= |cmd.unless|
      invariant forall k | 0 <= k < i :: !Matches(word, cmd.unless[k].mask, cmd.unless[k].value)
    {
      if Matches(word, cmd.unless[i].mask, cmd.unless[i].value) {
        return true;
      }
      i := i + 1;
    }
    return false;
  }

  method HasEqualFields(cmd: Cmd, word: bv32) returns (yes: bool)
    requires IsCmdValid(cmd)
    ensures yes == HasEqualPair(cmd, word)
  {
    var i := 0;
    while i < |cmd.distinct|
      invariant 0 <= i <= |cmd.distinct|
      invariant forall k | 0 <= k < i :: !IsEqualPair(cmd.distinct[k], word)
    {
      var p := cmd.distinct[i];
      var mask := ((1 as bv32) << p.width) - 1;
      var value1 := Field(word, p.lsb1, p.width);
      if value1 == Field(word, p.lsb2, p.width) && !(p.spIs31 && value1 == mask) {
        assert IsEqualPair(p, word);
        return true;
      }
      i := i + 1;
    }
    return false;
  }

  predicate AreLeavesValid(t: Tree, cmds: seq<Cmd>) {
    forall k | 0 <= k < |t.leaves| :: IsLeafValid(cmds, t.leaves[k])
  }

  lemma {:induction false} AcceptedAt(cmds: seq<Cmd>, table: seq<Leaf>, word: bv32, profile: bv64, i: nat)
    requires i < |table| && Accepts(cmds, table[i], word, profile)
    requires forall k | 0 <= k < i :: !Accepts(cmds, table[k], word, profile)
    ensures FirstAccepted(cmds, table, word, profile) == Some(table[i].cmd)
  {
    hide Accepts;
    if i != 0 {
      AcceptedAt(cmds, table[1..], word, profile, i - 1);
    }
  }

  lemma {:induction false} NothingAccepted(cmds: seq<Cmd>, table: seq<Leaf>, word: bv32, profile: bv64)
    requires forall k | 0 <= k < |table| :: !Accepts(cmds, table[k], word, profile)
    ensures FirstAccepted(cmds, table, word, profile) == None
  {
    hide Accepts;
    if |table| != 0 {
      NothingAccepted(cmds, table[1..], word, profile);
    }
  }

  /** The checks of one candidate. */
  method AcceptLeaf(cmds: seq<Cmd>, leaf: Leaf, word: bv32, profile: bv64) returns (yes: bool)
    requires IsLeafValid(cmds, leaf)
    ensures yes == Accepts(cmds, leaf, word, profile)
  {
    hide Matches, IsEnabled;
    if !Matches(word, leaf.mask, leaf.value) {
      return false;
    }
    var c := cmds[leaf.cmd];
    var hidden := MatchesUnless(c, word);
    var equal := HasEqualFields(c, word);
    return !hidden && !equal && IsEnabled(c, profile) && c.fills(word);
  }

  /** Lookup, and the loop of DianaA64_DecodeWord: the first encoding of the flat table that passes all checks, although
      only the leaves of one slot are looked at. */
  method Lookup(t: Tree, cmds: seq<Cmd>, word: bv32, profile: bv64, ghost table: seq<Leaf>, ghost height: nat)
    returns (cmd: Option<nat>)
    requires IsIndexOf(t, 0, [], table, height) && AreLeavesValid(t, cmds)
    ensures cmd == FirstAccepted(cmds, table, word, profile)
  {
    hide IsIndexOf, Follows, FirstAccepted, Compatible, Accepts, FirstLeaf, LeafCount;
    ghost var path;
    var slot;
    slot, path := WalkTree(t, word, table, height);
    ghost var here := LeavesOf(t, slot);
    CompatibleKeepsFirst(cmds, table, path, word, profile);
    var i, end := FirstLeaf(slot), FirstLeaf(slot) + LeafCount(slot);
    while i < end
      invariant FirstLeaf(slot) <= i <= end <= |t.leaves|
      invariant forall k | 0 <= k < i - FirstLeaf(slot) :: !Accepts(cmds, here[k], word, profile)
    {
      var leaf := t.leaves[i];
      assert leaf == here[i - FirstLeaf(slot)];
      var yes := AcceptLeaf(cmds, leaf, word, profile);
      if yes {
        AcceptedAt(cmds, here, word, profile, i - FirstLeaf(slot));
        return Some(leaf.cmd);
      }
      i := i + 1;
    }
    NothingAccepted(cmds, here, word, profile);
    return None;
  }

  lemma {:induction false} CompatibleKeepsDisabled(cmds: seq<Cmd>, table: seq<Leaf>, path: seq<Decision>, word: bv32,
                                                   profile: bv64)
    requires Follows(path, word)
    ensures AnyDisabled(cmds, Compatible(table, path), word, profile) <==> AnyDisabled(cmds, table, word, profile)
    ensures AnyMatches(Compatible(table, path), word) <==> AnyMatches(table, word)
  {
    hide Follows, Compatible;
    var some := Compatible(table, path);
    forall l: Leaf | Matches(word, l.mask, l.value)
      ensures l in some <==> l in table
    {
      CompatibleKeepsMatches(table, path, word, l);
    }
    SameMatches(cmds, some, table, word, profile);
    SameMatches(cmds, table, some, word, profile);
  }

  lemma SameMatches(cmds: seq<Cmd>, a: seq<Leaf>, b: seq<Leaf>, word: bv32, profile: bv64)
    requires forall l: Leaf | Matches(word, l.mask, l.value) :: l in a <==> l in b
    ensures AnyDisabled(cmds, a, word, profile) ==> AnyDisabled(cmds, b, word, profile)
    ensures AnyMatches(a, word) ==> AnyMatches(b, word)
  {
    hide IsUnless, HasEqualPair, IsEnabled;
    if AnyDisabled(cmds, a, word, profile) {
      var k :| 0 <= k < |a| && IsDisabledBy(cmds, a[k], word, profile);
      assert a[k] in b;
    }
    if AnyMatches(a, word) {
      var k :| 0 <= k < |a| && Matches(word, a[k].mask, a[k].value);
      assert a[k] in b;
    }
  }

  /** One candidate that only the profile leaves out. */
  method DisableLeaf(cmds: seq<Cmd>, leaf: Leaf, word: bv32, profile: bv64) returns (yes: bool)
    requires IsLeafValid(cmds, leaf)
    ensures yes == IsDisabledBy(cmds, leaf, word, profile)
  {
    hide Matches, IsEnabled;
    var command := cmds[leaf.cmd];
    if !Matches(word, leaf.mask, leaf.value) || IsEnabled(command, profile) {
      return false;
    }
    var hidden := MatchesUnless(command, word);
    var equal := HasEqualFields(command, word);
    return !hidden && !equal;
  }

  /** The first loop of GetUndefinedCmd: an instruction that the profile leaves out. */
  method IsWordDisabled(t: Tree, cmds: seq<Cmd>, word: bv32, profile: bv64, ghost table: seq<Leaf>, ghost height: nat)
    returns (yes: bool)
    requires IsIndexOf(t, 0, [], table, height) && AreLeavesValid(t, cmds)
    ensures yes == AnyDisabled(cmds, table, word, profile)
  {
    hide IsIndexOf, Follows, Compatible, AnyDisabled, IsDisabledBy, FirstLeaf, LeafCount;
    ghost var path;
    var slot;
    slot, path := WalkTree(t, word, table, height);
    ghost var here := LeavesOf(t, slot);
    CompatibleKeepsDisabled(cmds, table, path, word, profile);
    var i, end := FirstLeaf(slot), FirstLeaf(slot) + LeafCount(slot);
    while i < end
      invariant FirstLeaf(slot) <= i <= end <= |t.leaves|
      invariant forall k | 0 <= k < i - FirstLeaf(slot) :: !IsDisabledBy(cmds, here[k], word, profile)
    {
      var leaf := t.leaves[i];
      assert leaf == here[i - FirstLeaf(slot)];
      var disabled := DisableLeaf(cmds, leaf, word, profile);
      if disabled {
        DisabledHere(cmds, here, word, profile, i - FirstLeaf(slot));
        return true;
      }
      i := i + 1;
    }
    NothingDisabledHere(cmds, here, word, profile);
    return false;
  }

  lemma DisabledHere(cmds: seq<Cmd>, here: seq<Leaf>, word: bv32, profile: bv64, k: nat)
    requires k < |here| && IsDisabledBy(cmds, here[k], word, profile)
    ensures AnyDisabled(cmds, here, word, profile)
  {
  }

  lemma NothingDisabledHere(cmds: seq<Cmd>, here: seq<Leaf>, word: bv32, profile: bv64)
    requires forall k | 0 <= k < |here| :: !IsDisabledBy(cmds, here[k], word, profile)
    ensures !AnyDisabled(cmds, here, word, profile)
  {
  }

  lemma MatchesHere(here: seq<Leaf>, word: bv32, k: nat)
    requires k < |here| && Matches(word, here[k].mask, here[k].value)
    ensures AnyMatches(here, word)
  {
  }

  lemma NothingMatchesHere(here: seq<Leaf>, word: bv32)
    requires forall k | 0 <= k < |here| :: !Matches(word, here[k].mask, here[k].value)
    ensures !AnyMatches(here, word)
  {
  }

  /** The second loop: Arm allocates the word, the tables do not decode it. */
  method IsWordUnsupported(u: Tree, word: bv32, ghost unsupported: seq<Leaf>, ghost height: nat) returns (yes: bool)
    requires IsIndexOf(u, 0, [], unsupported, height)
    ensures yes == AnyMatches(unsupported, word)
  {
    hide IsIndexOf, Follows, Compatible, AnyMatches, Matches, FirstLeaf, LeafCount;
    ghost var path;
    var slot;
    slot, path := WalkTree(u, word, unsupported, height);
    ghost var here := LeavesOf(u, slot);
    CompatibleKeepsDisabled([], unsupported, path, word, 0);
    var i, end := FirstLeaf(slot), FirstLeaf(slot) + LeafCount(slot);
    while i < end
      invariant FirstLeaf(slot) <= i <= end <= |u.leaves|
      invariant forall k | 0 <= k < i - FirstLeaf(slot) :: !Matches(word, here[k].mask, here[k].value)
    {
      var leaf := u.leaves[i];
      assert leaf == here[i - FirstLeaf(slot)];
      if Matches(word, leaf.mask, leaf.value) {
        MatchesHere(here, word, i - FirstLeaf(slot));
        return true;
      }
      i := i + 1;
    }
    NothingMatchesHere(here, word);
    return false;
  }

  /** DianaA64_DecodeWord, DianaA32_DecodeA32 and the lookup of DianaA32_DecodeT32, with GetUndefinedCmd: every
      word is classified as by a scan of the flat tables. */
  method DecodeWord(t: Tree, u: Tree, cmds: seq<Cmd>, word: bv32, profile: bv64,
                    ghost table: seq<Leaf>, ghost unsupported: seq<Leaf>, ghost height: nat)
    returns (c: Class)
    requires IsIndexOf(t, 0, [], table, height) && IsIndexOf(u, 0, [], unsupported, height) && AreLeavesValid(t, cmds)
    ensures c == Classify(cmds, table, unsupported, word, profile)
  {
    var found := Lookup(t, cmds, word, profile, table, height);
    if found.Some? {
      return Supported(found.value);
    }
    var disabled := IsWordDisabled(t, cmds, word, profile, table, height);
    if disabled {
      return Disabled;
    }
    var known := IsWordUnsupported(u, word, unsupported, height);
    return if known then Unsupported else Unallocated;
  }

  // ------------------------------------------------------------------ features

  predicate IsSubProfile(p: bv64, q: bv64) {
    p & !q == 0
  }

  lemma NothingOutsideGrows(features: bv64, p: bv64, q: bv64)
    requires HasNothingOutside(features, p) && IsSubProfile(p, q)
    ensures HasNothingOutside(features, q)
  {
  }

  lemma MeetGrows(features: bv64, p: bv64, q: bv64)
    requires Meet(features, p) && IsSubProfile(p, q)
    ensures Meet(features, q)
  {
  }

  lemma EnabledGrows(cmd: Cmd, p: bv64, q: bv64)
    requires IsSubProfile(p, q) && IsEnabled(cmd, p)
    ensures IsEnabled(cmd, q)
  {
    hide HasNothingOutside, Meet, IsSubProfile;
    NothingOutsideGrows(cmd.features, p, q);
    if cmd.needsAny {
      MeetGrows(cmd.anyOf, p, q);
    }
  }

  /** One bit, which is set. */
  predicate IsFeatureOf(f: bv64, features: bv64) {
    f != 0 && f & (f - 1) == 0 && f & features == f
  }

  ghost predicate HasCommonFeature(a: bv64, b: bv64) {
    exists f: bv64 :: IsFeatureOf(f, a) && IsFeatureOf(f, b)
  }

  lemma LowestBit(x: bv64) returns (f: bv64)
    requires x != 0
    ensures f != 0 && f & (f - 1) == 0 && f & x == f
  {
    f := x & (!x + 1);
  }

  lemma OneFeature(x: bv64) returns (f: bv64)
    requires x != 0
    ensures IsFeatureOf(f, x)
  {
    f := LowestBit(x);
  }

  lemma InBoth(f: bv64, a: bv64, b: bv64)
    requires f & (a & b) == f
    ensures f & a == f && f & b == f
  {
  }

  lemma FeatureOfBoth(f: bv64, a: bv64, b: bv64)
    requires IsFeatureOf(f, a & b)
    ensures IsFeatureOf(f, a) && IsFeatureOf(f, b)
  {
    InBoth(f, a, b);
  }

  lemma NotInBoth(f: bv64, a: bv64, b: bv64)
    requires f & a == f && f & b == f && f != 0
    ensures a & b != 0
  {
    assert f == (f & a) & (f & b) == f & (a & b);
  }

  lemma FeatureInBoth(a: bv64, b: bv64)
    requires Meet(a, b)
    ensures HasCommonFeature(a, b)
  {
    var f := OneFeature(a & b);
    hide IsFeatureOf, Meet;
    FeatureOfBoth(f, a, b);
  }

  lemma CommonFeature(a: bv64, b: bv64)
    requires HasCommonFeature(a, b)
    ensures Meet(a, b)
  {
    var f: bv64 :| IsFeatureOf(f, a) && IsFeatureOf(f, b);
    NotInBoth(f, a, b);
  }

  predicate IsWithin(features: bv64, profile: bv64) {
    features & profile == features
  }

  lemma TwoParts(a: bv64, b: bv64)
    ensures a == (a & b) | (a & !b)
  {
  }

  lemma WithinProfile(a: bv64, b: bv64)
    requires HasNothingOutside(a, b)
    ensures IsWithin(a, b)
  {
    TwoParts(a, b);
  }

  lemma NothingOutside(a: bv64, b: bv64)
    requires IsWithin(a, b)
    ensures HasNothingOutside(a, b)
  {
    assert (a & b) & !b == 0;
  }

  /** What a profile must have: all features of the command, and one at least of those it needs any of. */
  lemma EnabledExactly(cmd: Cmd, profile: bv64)
    ensures IsEnabled(cmd, profile) <==>
            IsWithin(cmd.features, profile) && (cmd.needsAny ==> HasCommonFeature(cmd.anyOf, profile))
  {
    hide HasCommonFeature, IsWithin, HasNothingOutside, Meet;
    if HasCommonFeature(cmd.anyOf, profile) {
      CommonFeature(cmd.anyOf, profile);
    }
    if Meet(cmd.anyOf, profile) {
      FeatureInBoth(cmd.anyOf, profile);
    }
    if HasNothingOutside(cmd.features, profile) {
      WithinProfile(cmd.features, profile);
    }
    if IsWithin(cmd.features, profile) {
      NothingOutside(cmd.features, profile);
    }
  }

  /** Where the first encoding that accepts the word is. */
  function FirstIndex(cmds: seq<Cmd>, table: seq<Leaf>, word: bv32, profile: bv64): nat {
    if |table| == 0 || Accepts(cmds, table[0], word, profile) then 0
    else 1 + FirstIndex(cmds, table[1..], word, profile)
  }

  /** With more features a word that is an instruction stays one, by an encoding at least as specific. */
  lemma {:induction false} SupportedGrows(cmds: seq<Cmd>, table: seq<Leaf>, word: bv32, p: bv64, q: bv64)
    requires IsSubProfile(p, q) && FirstAccepted(cmds, table, word, p).Some?
    ensures FirstAccepted(cmds, table, word, q).Some?
    ensures FirstIndex(cmds, table, word, q) <= FirstIndex(cmds, table, word, p)
  {
    if Accepts(cmds, table[0], word, p) {
      EnabledGrows(cmds[table[0].cmd], p, q);
    } else {
      SupportedGrows(cmds, table[1..], word, p, q);
    }
  }

  lemma NotEncoded(cmds: seq<Cmd>, l: Leaf, word: bv32, p: bv64, q: bv64)
    requires IsSubProfile(p, q) && !Accepts(cmds, l, word, p) && !IsDisabledBy(cmds, l, word, p)
    ensures !Accepts(cmds, l, word, q) && !IsDisabledBy(cmds, l, word, q)
  {
    if Encodes(cmds, l, word) {
      EnabledGrows(cmds[l.cmd], p, q);
    }
  }

  lemma {:induction false} NothingDisabled(cmds: seq<Cmd>, table: seq<Leaf>, word: bv32, p: bv64, q: bv64)
    requires IsSubProfile(p, q) && FirstAccepted(cmds, table, word, p).None?
    requires forall k | 0 <= k < |table| :: !IsDisabledBy(cmds, table[k], word, p)
    ensures FirstAccepted(cmds, table, word, q).None?
    ensures forall k | 0 <= k < |table| :: !IsDisabledBy(cmds, table[k], word, q)
  {
    hide Accepts, IsDisabledBy;
    if |table| != 0 {
      NotEncoded(cmds, table[0], word, p, q);
      NothingDisabled(cmds, table[1..], word, p, q);
      forall k | 0 < k < |table|
        ensures !IsDisabledBy(cmds, table[k], word, q)
      {
        assert table[k] == table[1..][k - 1];
      }
    }
  }

  /** Growing the feature set changes only words that are instructions or disabled: a supported word stays
      supported, an unsupported or unallocated one keeps its class. */
  lemma MoreFeatures(cmds: seq<Cmd>, table: seq<Leaf>, unsupported: seq<Leaf>, word: bv32, p: bv64, q: bv64)
    requires IsSubProfile(p, q)
    ensures var was := Classify(cmds, table, unsupported, word, p);
            var now := Classify(cmds, table, unsupported, word, q);
            && (was.Supported? ==> now.Supported?)
            && (was.Unsupported? || was.Unallocated? ==> now == was)
  {
    match Classify(cmds, table, unsupported, word, p)
    case Supported(_) => SupportedGrows(cmds, table, word, p, q);
    case Disabled =>
    case _ => NothingDisabled(cmds, table, word, p, q);
  }

  // ------------------------------------------------------------------ how trees and fields are encoded

  /** A slot is a node with its number, or the place of up to 15 leaves. */
  lemma SlotsAreEncoded(n: bv32, first: bv32, count: bv32)
    requires n <= 0x7FFF_FFFF && first <= 0x07FF_FFFF && count <= 15
    ensures IsNode(0x8000_0000 | n) && ChildOf(0x8000_0000 | n) == n as nat
    ensures !IsNode((first << 4) | count)
    ensures FirstLeaf((first << 4) | count) == first as nat && LeafCount((first << 4) | count) == count as nat
  {
    NodeSlot(n);
    LeafSlot(first, count);
  }

  lemma NodeSlot(n: bv32)
    requires n <= 0x7FFF_FFFF
    ensures (0x8000_0000 | n) & 0x8000_0000 != 0 && (0x8000_0000 | n) & 0x7FFF_FFFF == n
  {
  }

  lemma LeafSlot(first: bv32, count: bv32)
    requires first <= 0x07FF_FFFF && count <= 15
    ensures var slot := (first << 4) | count;
            slot & 0x8000_0000 == 0 && slot >> 4 == first && slot & 15 == count
  {
  }

  /** A field is `bits` bits of the word from bit `lsb` on: rd, rn and rm of an AArch64 instruction. */
  lemma FieldsOfWord(word: bv32)
    ensures Field(word, 0, 5) == word & 31 && Field(word, 5, 5) == (word >> 5) & 31 && Field(word, 16, 5) == (word >> 16) & 31
    ensures Field(word, 31, 1) == word >> 31
  {
  }

  /** With spIs31, 31 equals nothing: two stack pointers are no equal registers. */
  lemma StackPointersDiffer(word: bv32)
    ensures IsEqualPair(FieldPair(0, 5, 5, false), word) <==> word & 31 == (word >> 5) & 31
    ensures IsEqualPair(FieldPair(0, 5, 5, true), word) <==> (word & 31 == (word >> 5) & 31 && word & 31 != 31)
  {
  }

  /** What each class means: the tables have an encoding that is accepted; or one that only the profile leaves out; or the
      second table has one; or none of these. */
  lemma ClassExactly(cmds: seq<Cmd>, table: seq<Leaf>, unsupported: seq<Leaf>, word: bv32, profile: bv64)
    ensures var c := Classify(cmds, table, unsupported, word, profile);
            var accepted := exists k :: 0 <= k < |table| && Accepts(cmds, table[k], word, profile);
            var disabled := exists k :: 0 <= k < |table| && IsDisabledBy(cmds, table[k], word, profile);
            var known := exists k :: 0 <= k < |unsupported| && word & unsupported[k].mask == unsupported[k].value;
            && (c.Supported? <==> accepted) && (c.Disabled? <==> !accepted && disabled)
            && (c.Unsupported? <==> !accepted && !disabled && known)
            && (c.Unallocated? <==> !accepted && !disabled && !known)
  {
    hide Accepts, IsDisabledBy;
    if forall k | 0 <= k < |table| :: !Accepts(cmds, table[k], word, profile) {
      NothingAccepted(cmds, table, word, profile);
    } else {
      var k :| 0 <= k < |table| && Accepts(cmds, table[k], word, profile);
      AcceptedSomewhere(cmds, table, word, profile, k);
    }
    assert forall k | 0 <= k < |unsupported| ::
        Matches(word, unsupported[k].mask, unsupported[k].value) == (word & unsupported[k].mask == unsupported[k].value);
  }

  lemma {:induction false} AcceptedSomewhere(cmds: seq<Cmd>, table: seq<Leaf>, word: bv32, profile: bv64, k: nat)
    requires k < |table| && Accepts(cmds, table[k], word, profile)
    ensures FirstAccepted(cmds, table, word, profile).Some?
  {
    hide Accepts;
    if k != 0 {
      AcceptedSomewhere(cmds, table[1..], word, profile, k - 1);
    }
  }
}
