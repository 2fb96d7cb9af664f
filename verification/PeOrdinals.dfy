/** The ordinal pass of DianaPeFile_QueryExports: the functions without a name are reported by ordinal. The pass
    stops after NumberOfFunctions - NumberOfNames reports; its loop variable is 16 bits wide. */
module PeOrdinals {
  import opened Words

  datatype Exports = Exports(functions: seq<nat>, nameOrdinals: seq<nat>, virtualAddress: nat, size: nat)

  /** Nothing at the ordinal, or a forwarder. */
  predicate IsSkipped(e: Exports, i: nat)
    requires i < |e.functions|
  {
    e.functions[i] == 0 || e.virtualAddress <= e.functions[i] < (e.virtualAddress + e.size) % TWO32
  }

  predicate IsEligible(e: Exports, i: nat)
    requires i < |e.functions|
  {
    !IsSkipped(e, i) && i !in e.nameOrdinals
  }

  /** What has to be reported by ordinal: a function that is there, that no name leads to, and that does not lie in the export
      directory, where the forwarders are. */
  lemma EligibleExactly(e: Exports, i: nat)
    requires i < |e.functions| && e.virtualAddress < TWO32 && e.size < TWO32
    ensures IsEligible(e, i) <==>
            && e.functions[i] != 0 && (forall k | 0 <= k < |e.nameOrdinals| :: e.nameOrdinals[k] != i)
            && (e.functions[i] < e.virtualAddress || e.virtualAddress + e.size <= e.functions[i]
                || TWO32 <= e.virtualAddress + e.size)
  {
  }

  /** The eligible ordinals from `i` on, up to `end`. */
  function EligibleFrom(e: Exports, i: nat, end: nat): seq<nat>
    requires i <= end <= |e.functions|
    decreases end - i
  {
    if i == end then []
    else if IsEligible(e, i) then [i] + EligibleFrom(e, i + 1, end)
    else EligibleFrom(e, i + 1, end)
  }

  /** They are the eligible ordinals, each once, in order. */
  lemma {:induction false} EligibleAreAll(e: Exports, i: nat, end: nat)
    requires i <= end <= |e.functions|
    ensures var r := EligibleFrom(e, i, end);
            && (forall j, k | 0 <= j < k < |r| :: r[j] < r[k])
            && (forall o: nat :: o in r <==> i <= o < end && IsEligible(e, o))
    decreases end - i
  {
    hide IsEligible;
    if i < end {
      EligibleAreAll(e, i + 1, end);
      var rest := EligibleFrom(e, i + 1, end);
      assert forall k | 0 <= k < |rest| :: rest[k] in rest;
    }
  }

  /** The functions that have to be reported by ordinal. */
  function Eligible(e: Exports): seq<nat> {
    EligibleFrom(e, 0, |e.functions|)
  }

  /** The ordinals that the loop variable reaches. */
  function Reach(e: Exports): (n: nat)
    ensures n <= |e.functions| && n <= TWO16
  {
    if |e.functions| < TWO16 then |e.functions| else TWO16
  }

  /** One round of the loop variable. */
  function Round(e: Exports): seq<nat> {
    EligibleFrom(e, 0, Reach(e))
  }

  function FirstOf(s: seq<nat>, n: nat): seq<nat> {
    if |s| <= n then s else s[..n]
  }

  /** The first `n` of `s` over and over. */
  function Cycle(s: seq<nat>, n: nat): seq<nat> {
    if n <= |s| then s[..n] else if |s| == 0 then [] else s + Cycle(s, n - |s|)
  }

  // ------------------------------------------------------------------ the loop

  /** The loop at its head: the loop variable, the reports that are left, and what has been reported. */
  datatype Pass = Pass(i: Word16, left: nat, reported: seq<nat>)

  predicate IsOver(e: Exports, p: Pass) {
    p.left == 0 || |e.functions| <= p.i
  }

  function Turn(e: Exports, p: Pass): Pass
    requires !IsOver(e, p)
  {
    var next := (p.i + 1) % TWO16;
    if IsEligible(e, p.i) then Pass(next, p.left - 1, p.reported + [p.i]) else p.(i := next)
  }

  /** The loop is over after `n` turns at the latest. */
  predicate Settles(e: Exports, p: Pass, n: nat)
    decreases n
  {
    IsOver(e, p) || (n != 0 && Settles(e, Turn(e, p), n - 1))
  }

  function Final(e: Exports, p: Pass, n: nat): seq<nat>
    requires Settles(e, p, n)
    decreases n
  {
    if IsOver(e, p) then p.reported else Final(e, Turn(e, p), n - 1)
  }

  function Start(e: Exports): Pass
    requires |e.nameOrdinals| < |e.functions|
  {
    Pass(0, |e.functions| - |e.nameOrdinals|, [])
  }

  // ------------------------------------------------------------------ when the loop ends

  /** A caller can see it before the call: the loop variable leaves the table, or reaches an ordinal to report. */
  predicate CanEnd(e: Exports) {
    |e.functions| < TWO16 || Round(e) != []
  }

  function Distance(i: Word16, o: Word16): nat {
    if i <= o then o - i else TWO16 - i + o
  }

  lemma {:induction false} EndsAtOrdinal(e: Exports, p: Pass, o: Word16) returns (n: nat)
    requires TWO16 <= |e.functions| && IsEligible(e, o)
    ensures Settles(e, p, n)
    decreases p.left, Distance(p.i, o)
  {
    hide IsEligible;
    n := 0;
    if !IsOver(e, p) {
      n := EndsAtOrdinal(e, Turn(e, p), o);
      n := n + 1;
    }
  }

  lemma {:induction false} EndsInTable(e: Exports, p: Pass) returns (n: nat)
    requires |e.functions| < TWO16 && p.i <= |e.functions|
    ensures Settles(e, p, n)
    decreases |e.functions| - p.i
  {
    hide IsEligible;
    n := 0;
    if !IsOver(e, p) {
      n := EndsInTable(e, Turn(e, p));
      n := n + 1;
    }
  }

  lemma {:induction false} NeverEnds(e: Exports, p: Pass, n: nat)
    requires TWO16 <= |e.functions| && p.left != 0 && forall o: Word16 :: !IsEligible(e, o)
    ensures !Settles(e, p, n)
    decreases n
  {
    if n != 0 {
      NeverEnds(e, Turn(e, p), n - 1);
    }
  }

  lemma Ends(e: Exports) returns (n: nat)
    requires |e.nameOrdinals| < |e.functions| && CanEnd(e)
    ensures Settles(e, Start(e), n)
  {
    hide IsEligible;
    if |e.functions| < TWO16 {
      n := EndsInTable(e, Start(e));
    } else {
      EligibleAreAll(e, 0, TWO16);
      assert Round(e)[0] in Round(e);
      n := EndsAtOrdinal(e, Start(e), Round(e)[0]);
    }
  }

  /** The loop ends if and only if the table has at most 65535 functions, or an ordinal below 65536 has to be reported. */
  lemma EndsExactly(e: Exports)
    requires |e.nameOrdinals| < |e.functions|
    ensures CanEnd(e) <==> |e.functions| <= 0xFFFF || exists o: Word16 :: o < |e.functions| && IsEligible(e, o)
    ensures CanEnd(e) <==> exists n :: Settles(e, Start(e), n)
  {
    hide IsEligible, Settles;
    if CanEnd(e) {
      var n := Ends(e);
    }
    if TWO16 <= |e.functions| {
      EligibleAreAll(e, 0, TWO16);
      if Round(e) != [] {
        assert Round(e)[0] in Round(e);
      }
      forall n ensures Round(e) == [] ==> !Settles(e, Start(e), n) {
        if Round(e) == [] {
          assert forall o: Word16 :: o !in Round(e);
          NeverEnds(e, Start(e), n);
        }
      }
    }
  }

  // ------------------------------------------------------------------ what is reported

  /** What is reported from ordinal `i` on: the rest of the round, and rounds until nothing is left. */
  function Rest(e: Exports, i: nat, left: nat): seq<nat>
    requires i <= Reach(e)
  {
    var tail := EligibleFrom(e, i, Reach(e));
    if left <= |tail| then tail[..left]
    else tail + (if |e.functions| < TWO16 then [] else Cycle(Round(e), left - |tail|))
  }

  /** The ordinals in the order in which the observer sees them: those of one round, until the loop variable leaves the
      table; and if it never does, over and over until there have been enough. */
  function Reported(e: Exports): seq<nat> {
    if |e.functions| <= |e.nameOrdinals| then []
    else
      var n := |e.functions| - |e.nameOrdinals|;
      if |e.functions| < TWO16 then FirstOf(Eligible(e), n) else Cycle(Round(e), n)
  }

  lemma RestStarts(e: Exports)
    requires |e.nameOrdinals| < |e.functions|
    ensures [] + Rest(e, 0, |e.functions| - |e.nameOrdinals|) == Reported(e)
  {
  }

  /** After its last ordinal the loop variable is at the first one again. */
  lemma RestWraps(e: Exports, left: nat)
    requires TWO16 <= |e.functions| && 0 < left && Round(e) != []
    ensures Rest(e, TWO16, left) == Rest(e, 0, left)
  {
    assert EligibleFrom(e, TWO16, TWO16) == [];
    assert [] + Cycle(Round(e), left) == Cycle(Round(e), left);
  }

  lemma RestUnfolds(e: Exports, i: nat, left: nat, reported: seq<nat>)
    requires i < Reach(e) && 0 < left
    ensures reported + Rest(e, i, left)
            == if IsEligible(e, i) then (reported + [i]) + Rest(e, i + 1, left - 1) else reported + Rest(e, i + 1, left)
  {
    hide IsEligible, Cycle;
    if IsEligible(e, i) {
      var tail := EligibleFrom(e, i + 1, Reach(e));
      assert left <= |tail| + 1 ==> ([i] + tail)[..left] == [i] + tail[..left - 1];
      assert Rest(e, i, left) == [i] + Rest(e, i + 1, left - 1);
    }
  }

  lemma {:induction false} FinalIs(e: Exports, p: Pass, n: nat)
    requires Settles(e, p, n) && p.i <= Reach(e) && CanEnd(e)
    ensures Final(e, p, n) == p.reported + Rest(e, p.i, p.left)
    decreases n
  {
    hide IsEligible, Rest, Round;
    if IsOver(e, p) {
      NothingIsLeft(e, p);
    } else {
      RestUnfolds(e, p.i, p.left, p.reported);
      var q := Turn(e, p);
      FinalIs(e, q, n - 1);
      if p.i + 1 == TWO16 {
        if q.left == 0 {
          NothingIsLeft(e, q);
          NothingFollows(e, TWO16);
        } else {
          RestWraps(e, q.left);
        }
      }
    }
  }

  lemma NothingFollows(e: Exports, i: nat)
    requires i <= Reach(e)
    ensures Rest(e, i, 0) == []
  {
  }

  lemma NothingIsLeft(e: Exports, p: Pass)
    requires IsOver(e, p) && p.i <= Reach(e)
    ensures p.reported + Rest(e, p.i, p.left) == p.reported && Rest(e, p.i, p.left) == []
  {
  }

  method ReportOrdinals(e: Exports) returns (reported: seq<nat>)
    requires |e.nameOrdinals| < |e.functions| ==> CanEnd(e)
    ensures reported == Reported(e)
  {
    reported := [];
    if |e.nameOrdinals| < |e.functions| {
      hide IsSkipped, Rest, Reported, CanEnd;
      var ordinalsToSearch := |e.functions| - |e.nameOrdinals|;
      var i: Word16 := 0;
      ghost var turns := Ends(e);
      FinalIs(e, Start(e), turns);
      RestStarts(e);
      while i < |e.functions|
        invariant ordinalsToSearch > 0
        invariant var p := Pass(i, ordinalsToSearch, reported); Settles(e, p, turns) && Final(e, p, turns) == Reported(e)
        decreases turns
      {
        if !IsSkipped(e, i) && i !in e.nameOrdinals {
          reported := reported + [i];
          ordinalsToSearch := ordinalsToSearch - 1;
          if ordinalsToSearch == 0 {
            return;
          }
        }
        i := (i + 1) % TWO16;
        turns := turns - 1;
      }
    }
  }

  // ------------------------------------------------------------------ when the pass is complete

  /** The ordinals of the export table that have a name. */
  ghost function Named(e: Exports): set<nat> {
    set o | 0 <= o < |e.functions| && o in e.nameOrdinals
  }

  ghost function Unnamed(e: Exports): set<nat> {
    set o | 0 <= o < |e.functions| && o !in e.nameOrdinals && IsSkipped(e, o)
  }

  /** The names that give no ordinal of their own: a second name of a function, or a name out of range. */
  ghost function Surplus(e: Exports): int {
    |e.nameOrdinals| - |Named(e)|
  }

  ghost function Below(n: nat): (r: set<nat>)
    ensures |r| == n && forall o: nat :: o in r <==> o < n
  {
    if n == 0 then {} else Below(n - 1) + {n - 1}
  }

  ghost function Elements(s: seq<nat>): set<nat> {
    set o | o in s
  }

  ghost predicate AreDistinct(s: seq<nat>) {
    forall j, k | 0 <= j < k < |s| :: s[j] != s[k]
  }

  lemma ElementsOfLonger(s: seq<nat>, x: nat)
    ensures Elements(s + [x]) == Elements(s) + {x}
  {
  }

  lemma {:induction false} DistinctSize(s: seq<nat>)
    requires AreDistinct(s)
    ensures |Elements(s)| == |s|
  {
    if |s| == 0 {
      assert Elements(s) == {};
    } else {
      var init, last := s[..|s| - 1], s[|s| - 1];
      assert s == init + [last];
      DistinctSize(init);
      ElementsOfLonger(init, last);
      assert last !in init;
      hide Elements;
      SizeOfMore(Elements(init), last);
    }
  }

  lemma SizeOfMore(s: set<nat>, x: nat)
    requires x !in s
    ensures |s + {x}| == |s| + 1
  {
  }

  lemma SizeOfParts(a: set<nat>, b: set<nat>, c: set<nat>)
    requires a !! b && (a + b) !! c
    ensures |a + b + c| == |a| + |b| + |c|
  {
  }

  /** Every ordinal is named, skipped or eligible. */
  lemma Partition(e: Exports)
    ensures |Named(e)| + |Unnamed(e)| + |Eligible(e)| == |e.functions|
  {
    hide IsSkipped;
    var eligible := Eligible(e);
    EligibleAreAll(e, 0, |e.functions|);
    DistinctSize(eligible);
    assert Below(|e.functions|) == Named(e) + Unnamed(e) + Elements(eligible);
    SizeOfParts(Named(e), Unnamed(e), Elements(eligible));
  }

  /** Every ordinal that has to be reported is. */
  ghost predicate IsComplete(e: Exports) {
    Elements(Reported(e)) == Elements(Eligible(e))
  }

  lemma {:induction false} CycleHasSame(s: seq<nat>, n: nat)
    ensures Elements(Cycle(s, n)) == Elements(FirstOf(s, n))
    decreases n
  {
    if |s| != 0 && |s| < n {
      CycleHasSame(s, n - |s|);
      ElementsOfFirst(s, n - |s|);
      ElementsOfBoth(s, Cycle(s, n - |s|));
    }
  }

  lemma ElementsOfFirst(s: seq<nat>, n: nat)
    ensures Elements(FirstOf(s, n)) <= Elements(s)
  {
  }

  lemma ElementsOfBoth(a: seq<nat>, b: seq<nat>)
    ensures Elements(a + b) == Elements(a) + Elements(b)
  {
  }

  lemma FirstHasAll(s: seq<nat>, n: nat)
    requires AreDistinct(s)
    ensures Elements(FirstOf(s, n)) == Elements(s) <==> |s| <= n
  {
    if n < |s| {
      assert s[n] in Elements(s);
      assert s[n] !in s[..n];
    }
  }

  /** The pass reports everything exactly when the surplus names are no more than the unnamed ordinals that are skipped
      anyway, and everything to report is below 65536. */
  lemma CompleteExactly(e: Exports)
    requires |e.nameOrdinals| < |e.functions|
    ensures IsComplete(e) <==> Surplus(e) <= |Unnamed(e)| && forall o | o in Eligible(e) :: o < TWO16
  {
    hide IsEligible, IsSkipped, Cycle, FirstOf, AreDistinct;
    var n := |e.functions| - |e.nameOrdinals|;
    Partition(e);
    EligibleIsDistinct(e, |e.functions|);
    EligibleIsDistinct(e, Reach(e));
    EligibleAreAll(e, 0, |e.functions|);
    EligibleAreAll(e, 0, Reach(e));
    CycleHasSame(Round(e), n);
    FirstHasAll(Round(e), n);
    ElementsOfFirst(Round(e), n);
    DistinctSize(Round(e));
    DistinctSize(Eligible(e));
    assert Elements(Round(e)) <= Elements(Eligible(e));
    if forall o | o in Eligible(e) :: o < TWO16 {
      assert Elements(Round(e)) == Elements(Eligible(e));
    } else {
      var o :| o in Eligible(e) && TWO16 <= o;
      assert o !in Round(e);
      assert o in Elements(Eligible(e)) && o !in Elements(Round(e));
    }
  }

  lemma EligibleIsDistinct(e: Exports, end: nat)
    requires end <= |e.functions|
    ensures AreDistinct(EligibleFrom(e, 0, end))
  {
    EligibleAreAll(e, 0, end);
    hide EligibleFrom;
  }

  /** A pass that ends reports no ordinal twice exactly when the table has at most 65535 functions, or enough to report in
      one round. */
  lemma ReportsOnceExactly(e: Exports)
    requires |e.nameOrdinals| < |e.functions| && CanEnd(e)
    ensures AreDistinct(Reported(e)) <==> |e.functions| <= 0xFFFF || |e.functions| - |e.nameOrdinals| <= |Round(e)|
  {
    hide IsEligible, IsSkipped;
    var s, n := Round(e), |e.functions| - |e.nameOrdinals|;
    EligibleIsDistinct(e, Reach(e));
    if TWO16 <= |e.functions| && |s| < n {
      var again := Cycle(s, n - |s|);
      assert Reported(e) == s + again && again[0] == s[0];
      assert (s + again)[0] == (s + again)[|s|];
    }
  }

  lemma OnlyOne(s: seq<nat>, x: nat)
    requires (forall o: nat :: o in s <==> o == x) && forall j, k | 0 <= j < k < |s| :: s[j] < s[k]
    ensures s == [x]
  {
    DistinctSize(s);
    assert x in s && Elements(s) == {x};
  }

  lemma HasFirst(s: seq<nat>)
    ensures s == [] || exists o :: o in s
  {
    assert s == [] || s[0] in s;
  }

  /** 65537 functions of which only the first is there: it is reported 65537 times. */
  lemma ReportsTwice()
    ensures var e := Exports([16] + seq(TWO16, _ => 0), [], 1, 1);
            CanEnd(e) && |Reported(e)| >= 2 && Reported(e)[0] == 0 && Reported(e)[1] == 0
  {
    var e := Exports([16] + seq(TWO16, _ => 0), [], 1, 1);
    EligibleAreAll(e, 0, TWO16);
    var r := Round(e);
    OnlyOne(r, 0);
    assert Cycle(r, TWO16) == r + Cycle(r, TWO16 - 1);
  }

  /** 65536 functions that are not there: the pass never ends. */
  lemma EmptyTableNeverEnds(n: nat)
    ensures var e := Exports(seq(TWO16, _ => 0), [], 1, 1); !CanEnd(e) && !Settles(e, Start(e), n)
  {
    var e := Exports(seq(TWO16, _ => 0), [], 1, 1);
    NeverEnds(e, Start(e), n);
    EligibleAreAll(e, 0, TWO16);
    HasFirst(Round(e));
  }

  ghost predicate AreDistinctInRange(e: Exports) {
    && AreDistinct(e.nameOrdinals)
    && (forall k | 0 <= k < |e.nameOrdinals| :: e.nameOrdinals[k] < |e.functions|)
  }

  /** With one name a function at most, all and only the functions without a name are reported, each once and in order, if
      the table has at most 65535 functions. */
  lemma DistinctNamesAreComplete(e: Exports)
    requires AreDistinctInRange(e)
    ensures |e.nameOrdinals| <= |e.functions|
    ensures |e.functions| <= 0xFFFF ==> Reported(e) == Eligible(e)
  {
    DistinctSize(e.nameOrdinals);
    assert Named(e) == Elements(e.nameOrdinals);
    Partition(e);
  }

  /** A second name of a function makes the pass stop too early. */
  lemma AliasLosesAnOrdinal()
    ensures var e := Exports([16, 16, 16], [0, 0], 1, 1); Eligible(e) == [1, 2] && Reported(e) == [1]
  {
    var e := Exports([16, 16, 16], [0, 0], 1, 1);
    assert EligibleFrom(e, 3, 3) == [];
    assert EligibleFrom(e, 2, 3) == [2];
    assert EligibleFrom(e, 1, 3) == [1, 2];
  }
}
