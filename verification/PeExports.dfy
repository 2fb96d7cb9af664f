/** The export table of a PE image: the binary search of DianaPeFile_GetProcAddressEx over the sorted names, in
    32-bit arithmetic, and the ordinal pass of DianaPeFile_QueryExports. */
module PeExports {
  import opened Words
  import opened Wrappers

  /** IMAGE_EXPORT_DIRECTORY, and where the directory itself is. */
  datatype Directory = Directory(virtualAddress: nat, size: nat, numberOfNames: nat, addressOfFunctions: nat,
                                 addressOfNames: nat, addressOfNameOrdinals: nat)

  datatype Search = Middle(k: nat) | Missing | Failed

  datatype Lookup = Function(offset: nat) | Forwarder(offset: nat) | NotFound | Error

  /** From here on, the offset of a name pointer does not fit 32 bits. */
  const WRAPPED := 0x4000_0000

  predicate IsWord(x: int) {
    0 <= x < TWO32
  }

  predicate IsDirectory(d: Directory) {
    IsWord(d.virtualAddress) && IsWord(d.size) && IsWord(d.numberOfNames) && IsWord(d.addressOfFunctions)
    && IsWord(d.addressOfNames) && IsWord(d.addressOfNameOrdinals)
  }

  // ------------------------------------------------------------------ reads

  function Read16(image: seq<Byte>, at: nat): (r: nat)
    requires at + 2 <= |image|
    ensures r < 0x1_0000
  {
    Get16(image[at..at + 2])
  }

  function Read32(image: seq<Byte>, at: nat): (r: nat)
    requires at + 4 <= |image|
    ensures IsWord(r)
  {
    Get32(image[at..at + 4])
  }

  /** ValidateVirtualAddress. */
  predicate IsValidAddress(image: seq<Byte>, address: nat) {
    0 < address < |image|
  }

  /** CaptureValue32: the entry must end before the image does; its offset is a 32-bit product. */
  function CaptureValue32(image: seq<Byte>, table: nat, k: nat): (r: Option<nat>)
    requires table <= |image|
    ensures r.Some? ==> IsWord(r.value)
  {
    var size := |image| - table;
    if size < 4 || k >= size - 4 || k * 4 >= size - 4 then None
    else Some(Read32(image, table + k * 4 % TWO32))
  }

  /** An entry is captured exactly if a byte follows it: the last possible entry of a table is rejected. */
  lemma CapturedExactly(image: seq<Byte>, table: nat, k: nat)
    requires table <= |image|
    ensures CaptureValue32(image, table, k).Some? <==> table + 4 * k + 4 < |image|
    ensures CaptureValue16(image, table, k).Some? <==> table + 2 * k + 2 < |image|
  {
  }

  /** What is captured is the entry, as long as its offset fits 32 bits. */
  lemma CapturedIs(image: seq<Byte>, table: nat, k: nat)
    requires table <= |image|
    ensures table + 4 * k + 4 < |image| && 4 * k < TWO32 ==>
              CaptureValue32(image, table, k) == Some(Get32(image[table + 4 * k..table + 4 * k + 4]))
    ensures table + 2 * k + 2 < |image| && 2 * k < TWO32 ==>
              CaptureValue16(image, table, k) == Some(Get16(image[table + 2 * k..table + 2 * k + 2]))
  {
  }

  /** A table of one entry that ends the image. */
  lemma LastEntryIsRejected()
    ensures CaptureValue32([0, 0, 0, 0, 1, 0, 0, 0], 4, 0) == None && CaptureValue32([0, 0, 0, 0, 1, 0, 0, 0, 0], 4, 0) == Some(1)
  {
    assert [0, 0, 0, 0, 1, 0, 0, 0, 0][4..8] == [1, 0, 0, 0];
  }

  function CaptureValue16(image: seq<Byte>, table: nat, k: nat): (r: Option<nat>)
    requires table <= |image|
    ensures r.Some? ==> IsWord(r.value)
  {
    var size := |image| - table;
    if size < 2 || k >= size - 2 || k * 2 >= size - 2 then None
    else Some(Read16(image, table + k * 2 % TWO32))
  }

  // ------------------------------------------------------------------ names

  /** A name ends at a zero byte. */
  predicate IsName(s: seq<Byte>) {
    0 !in s
  }

  /** The sign of the difference at the first byte where the names differ; a name is after its prefixes. */
  function Order(a: seq<Byte>, b: seq<Byte>): int
    decreases |a|
  {
    if |a| == 0 then (if |b| == 0 then 0 else -1)
    else if |b| == 0 then 1
    else if a[0] != b[0] then (if a[0] < b[0] then -1 else 1)
    else Order(a[1..], b[1..])
  }

  lemma {:induction false} OrderIsTotal(a: seq<Byte>, b: seq<Byte>)
    ensures Order(a, b) == 0 <==> a == b
    ensures Order(a, b) == -Order(b, a)
    decreases |a|
  {
    if |a| != 0 && |b| != 0 && a[0] == b[0] {
      OrderIsTotal(a[1..], b[1..]);
      assert a == [a[0]] + a[1..] && b == [b[0]] + b[1..];
    }
  }

  /** `a` and `b` have `k` bytes in common, and then `a` ends or has the smaller byte. */
  predicate DiffersAt(a: seq<Byte>, b: seq<Byte>, k: nat) {
    k < |b| && k <= |a| && a[..k] == b[..k] && (k < |a| ==> a[k] < b[k])
  }

  ghost predicate IsBefore(a: seq<Byte>, b: seq<Byte>) {
    exists k: nat :: DiffersAt(a, b, k)
  }

  lemma DiffersOn(a: seq<Byte>, b: seq<Byte>, k: nat)
    requires |a| != 0 && |b| != 0 && a[0] == b[0]
    ensures DiffersAt(a, b, k + 1) <==> DiffersAt(a[1..], b[1..], k)
  {
    if k < |b[1..]| && k <= |a[1..]| {
      assert a[..k + 1] == [a[0]] + a[1..][..k] && b[..k + 1] == [b[0]] + b[1..][..k];
      assert a[1..][..k] == a[..k + 1][1..] && b[1..][..k] == b[..k + 1][1..];
    }
  }

  lemma DiffersAtFirst(a: seq<Byte>, b: seq<Byte>, k: nat)
    requires DiffersAt(a, b, k) && k != 0
    ensures |a| != 0 && |b| != 0 && a[0] == b[0]
  {
    assert a[..k][0] == b[..k][0];
  }

  /** The order is the one of a dictionary, by unsigned bytes. */
  lemma {:induction false} OrderIsLexicographic(a: seq<Byte>, b: seq<Byte>)
    ensures Order(a, b) < 0 <==> IsBefore(a, b)
    decreases |a|
  {
    hide DiffersAt;
    if |a| != 0 && |b| != 0 && a[0] == b[0] {
      OrderIsLexicographic(a[1..], b[1..]);
      if IsBefore(a[1..], b[1..]) {
        var k: nat :| DiffersAt(a[1..], b[1..], k);
        DiffersOn(a, b, k);
      }
      if IsBefore(a, b) {
        var k: nat :| DiffersAt(a, b, k);
        SameFirst(a, b, k);
        DiffersOn(a, b, k - 1);
      }
    } else {
      FirstDiffers(a, b);
    }
  }

  lemma SameFirst(a: seq<Byte>, b: seq<Byte>, k: nat)
    requires |a| != 0 && |b| != 0 && a[0] == b[0] && DiffersAt(a, b, k)
    ensures k != 0
  {
  }

  lemma FirstDiffers(a: seq<Byte>, b: seq<Byte>)
    requires |a| == 0 || |b| == 0 || a[0] != b[0]
    ensures Order(a, b) < 0 <==> IsBefore(a, b)
  {
    if Order(a, b) < 0 {
      assert DiffersAt(a, b, 0);
    }
    if IsBefore(a, b) {
      var k: nat :| DiffersAt(a, b, k);
      if k != 0 {
        DiffersAtFirst(a, b, k);
      }
    }
  }

  /** The bytes of the image up to a zero byte or the end of the image. */
  function NameAt(image: seq<Byte>, at: nat): (s: seq<Byte>)
    requires at <= |image|
    ensures IsName(s)
    decreases |image| - at
  {
    if at == |image| || image[at] == 0 then [] else [image[at]] + NameAt(image, at + 1)
  }

  /** The name ends inside the image. */
  predicate IsTerminated(image: seq<Byte>, at: nat)
    requires at <= |image|
  {
    at + |NameAt(image, at)| < |image|
  }

  /** DIANA_STRNCMP with the rest of the image as the limit. */
  method CompareName(name: seq<Byte>, image: seq<Byte>, at: nat) returns (c: int)
    requires IsName(name) && at <= |image|
    ensures c == Compared(name, image, at)
  {
    var i := 0;
    while at + i < |image|
      invariant 0 <= i <= |name| && at + i <= |image|
      invariant Compared(name, image, at) == Compared(name[i..], image, at + i)
    {
      var x := if i < |name| then name[i] else 0;
      if x != image[at + i] {
        return if x < image[at + i] then -1 else 1;
      }
      if x == 0 {
        return 0;
      }
      assert name[i..][1..] == name[i + 1..];
      i := i + 1;
    }
    return 0;
  }

  function Compared(name: seq<Byte>, image: seq<Byte>, at: nat): int
    requires at <= |image|
    decreases |image| - at
  {
    if at == |image| then 0
    else
      var x := if |name| != 0 then name[0] else 0;
      if x != image[at] then (if x < image[at] then -1 else 1)
      else if |name| == 0 then 0
      else Compared(name[1..], image, at + 1)
  }

  /** The bounded comparison is the order of the names when the name in the image ends. */
  lemma {:induction false} ComparedIsOrder(name: seq<Byte>, image: seq<Byte>, at: nat)
    requires IsName(name) && at <= |image| && IsTerminated(image, at)
    ensures Compared(name, image, at) == Order(name, NameAt(image, at))
    decreases |image| - at
  {
    if image[at] == 0 {
    } else if |name| != 0 && name[0] == image[at] {
      assert NameAt(image, at)[1..] == NameAt(image, at + 1);
      ComparedIsOrder(name[1..], image, at + 1);
    }
  }

  // ------------------------------------------------------------------ the binary search

  function Increased(x: Word32): (y: Word32)
    ensures y == if x == TWO32 - 1 then 0 else x + 1
  {
    (x + 1) % TWO32
  }

  function Decreased(x: Word32): (y: Word32)
    ensures y == if x == 0 then TWO32 - 1 else x - 1
  {
    (x - 1) % TWO32
  }

  function MiddleOf(low: Word32, high: Word32): (m: Word32)
    ensures low <= high < TWO31 ==> low <= m <= high
  {
    (low + high) % TWO32 / 2
  }

  predicate GoesOn(low: Word32, high: Word32) {
    high >= low && AsInt32(high) >= 0
  }

  /** One comparison of the loop: None where a capture or an address fails. */
  function Probe(image: seq<Byte>, table: nat, name: seq<Byte>, k: Word32): Option<int>
    requires table <= |image|
  {
    match CaptureValue32(image, table, k)
    case None => None
    case Some(pointer) =>
      if IsValidAddress(image, pointer) then Some(Compared(name, image, pointer)) else None
  }

  /** What the loop and the test after it come to, from any bounds. */
  function SearchFrom(image: seq<Byte>, table: nat, name: seq<Byte>, low: Word32, middle: Word32, high: Word32): Search
    requires table <= |image|
    decreases if high < TWO31 then high - low + 1 else 0
  {
    if GoesOn(low, high) then
      var mid := MiddleOf(low, high);
      match Probe(image, table, name, mid)
      case None => Failed
      case Some(c) =>
        if c == 0 then Middle(mid)
        else if c > 0 then SearchFrom(image, table, name, Increased(mid), mid, high)
        else SearchFrom(image, table, name, low, mid, Decreased(mid))
    else if AsInt32(high) < AsInt32(low) then Missing
    else Middle(middle)
  }

  method ProbeName(image: seq<Byte>, table: nat, name: seq<Byte>, k: Word32) returns (r: Option<int>)
    requires IsName(name) && table <= |image|
    ensures r == Probe(image, table, name, k)
  {
    hide CaptureValue32, Compared, IsName;
    var pointer := CaptureValue32(image, table, k);
    if pointer.None? || !IsValidAddress(image, pointer.value) {
      return None;
    }
    var c := CompareName(name, image, pointer.value);
    return Some(c);
  }

  method SearchNames(image: seq<Byte>, table: nat, name: seq<Byte>, numberOfNames: Word32) returns (r: Search)
    requires IsName(name) && table <= |image| && 0 < numberOfNames
    ensures r == SearchFrom(image, table, name, 0, 0, numberOfNames - 1)
  {
    hide Probe, IsName, Increased, Decreased, MiddleOf;
    var low: Word32, middle: Word32, high: Word32 := 0, 0, numberOfNames - 1;
    while high >= low && AsInt32(high) >= 0
      invariant SearchFrom(image, table, name, low, middle, high) == SearchFrom(image, table, name, 0, 0, numberOfNames - 1)
      decreases if high < TWO31 then high - low + 1 else 0
    {
      middle := MiddleOf(low, high);
      var c := ProbeName(image, table, name, middle);
      if c.None? {
        return Failed;
      }
      if c.value == 0 {
        return Middle(middle);
      }
      if c.value > 0 {
        low := Increased(middle);
      } else {
        high := Decreased(middle);
      }
    }
    return if AsInt32(high) < AsInt32(low) then Missing else Middle(middle);
  }

  // ------------------------------------------------------------------ sorted tables

  /** The name that entry k of the table points to. */
  function EntryName(image: seq<Byte>, table: nat, k: nat): (s: seq<Byte>)
    requires HasEntry(image, table, k)
    ensures IsName(s)
  {
    NameAt(image, Read32(image, table + 4 * k))
  }

  /** The entry is inside the image, and so is its name. */
  predicate HasEntry(image: seq<Byte>, table: nat, k: nat) {
    table + 4 * k + 4 < |image|
    && (var p := Read32(image, table + 4 * k); IsValidAddress(image, p) && IsTerminated(image, p))
  }

  ghost predicate IsSorted(image: seq<Byte>, table: nat, n: nat) {
    && (forall k | 0 <= k < n :: HasEntry(image, table, k))
    && (forall i, j | 0 <= i < j < n :: Order(EntryName(image, table, i), EntryName(image, table, j)) < 0)
  }

  lemma WrappedEntry(k: Word32)
    ensures k * 4 % TWO32 == 4 * (k % WRAPPED) && k % WRAPPED <= k
  {
  }

  lemma ProbeIsOrder(image: seq<Byte>, table: nat, name: seq<Byte>, k: Word32)
    requires IsName(name) && table <= |image| && HasEntry(image, table, k) && HasEntry(image, table, k % WRAPPED)
    ensures Probe(image, table, name, k) == Some(Order(name, EntryName(image, table, k % WRAPPED)))
  {
    WrappedEntry(k);
    ComparedIsOrder(name, image, Read32(image, table + 4 * (k % WRAPPED)));
  }

  lemma SmallProbe(image: seq<Byte>, table: nat, name: seq<Byte>, k: Word32)
    requires IsName(name) && table <= |image| && HasEntry(image, table, k) && k < WRAPPED
    ensures Probe(image, table, name, k) == Some(Order(name, EntryName(image, table, k)))
  {
    hide Probe, HasEntry, EntryName, Order, IsName;
    ProbeIsOrder(image, table, name, k);
  }

  /** What the search has to answer: an entry of the name, or that there is none. */
  predicate IsAnswer(image: seq<Byte>, table: nat, n: nat, name: seq<Byte>, r: Search)
    requires forall k | 0 <= k < n :: HasEntry(image, table, k)
  {
    match r
    case Middle(k) => k < n && EntryName(image, table, k) == name
    case Missing => forall k | 0 <= k < n :: EntryName(image, table, k) != name
    case Failed => false
  }

  /** Where the comparison with one entry of a sorted table leaves the name. */
  lemma RuledOut(image: seq<Byte>, table: nat, n: nat, name: seq<Byte>, mid: nat, k: nat)
    requires IsSorted(image, table, n) && mid < n && k < n
    requires var c := Order(name, EntryName(image, table, mid)); (c > 0 && k <= mid) || (c < 0 && mid <= k)
    ensures EntryName(image, table, k) != name
  {
    hide HasEntry, Order, EntryName;
    OrderIsTotal(name, EntryName(image, table, mid));
  }

  /** The name is not outside the bounds. */
  ghost predicate OnlyWithin(image: seq<Byte>, table: nat, n: nat, name: seq<Byte>, low: int, high: int)
    requires forall k | 0 <= k < n :: HasEntry(image, table, k)
  {
    forall k | 0 <= k < n && !(low <= k <= high) :: EntryName(image, table, k) != name
  }

  lemma {:induction false} SearchIsRight(image: seq<Byte>, table: nat, n: nat, name: seq<Byte>, low: Word32, middle: Word32,
                                         high: Word32)
    requires IsName(name) && table <= |image| && IsSorted(image, table, n) && 0 < n <= WRAPPED
    requires 0 <= low <= AsInt32(high) + 1 <= n
    requires OnlyWithin(image, table, n, name, low, AsInt32(high))
    ensures IsAnswer(image, table, n, name, SearchFrom(image, table, name, low, middle, high))
    decreases if high < TWO31 then high - low + 1 else 0
  {
    hide Probe, HasEntry, Order, EntryName, IsName, Increased, Decreased, MiddleOf;
    if GoesOn(low, high) {
      var mid := MiddleOf(low, high);
      SmallProbe(image, table, name, mid);
      OrderIsTotal(name, EntryName(image, table, mid));
      var c := Order(name, EntryName(image, table, mid));
      forall k | 0 <= k < n && ((c > 0 && k <= mid) || (c < 0 && mid <= k))
        ensures EntryName(image, table, k) != name
      {
        RuledOut(image, table, n, name, mid, k);
      }
      if c > 0 {
        SearchIsRight(image, table, n, name, Increased(mid), mid, high);
      } else if c < 0 {
        SearchIsRight(image, table, n, name, low, mid, Decreased(mid));
      }
    }
  }

  ghost predicate SearchIsLinear(image: seq<Byte>, table: nat, n: Word32)
    requires 0 < n && table <= |image| && forall k | 0 <= k < n :: HasEntry(image, table, k)
  {
    forall name: seq<Byte> | IsName(name) ::
      IsAnswer(image, table, n, name, SearchFrom(image, table, name, 0, 0, n - 1))
  }

  lemma {:induction false} AlwaysAfter(image: seq<Byte>, table: nat, n: Word32, name: seq<Byte>, low: Word32, middle: Word32)
    requires table <= |image| && low <= n && 0 < n <= TWO31 && (low == n ==> middle == n - 1)
    requires forall k: Word32 | k < n :: Probe(image, table, name, k) == Some(1)
    ensures SearchFrom(image, table, name, low, middle, n - 1) == if n == TWO31 then Middle(n - 1) else Missing
    decreases n - low
  {
    hide Probe, Increased, Decreased, MiddleOf;
    if GoesOn(low, n - 1) {
      var mid := MiddleOf(low, n - 1);
      assert Probe(image, table, name, mid) == Some(1);
      AlwaysAfter(image, table, n, name, Increased(mid), mid);
    }
  }

  lemma {:induction false} LongerIsAfter(a: seq<Byte>, b: seq<Byte>, x: Byte)
    requires Order(a, b) >= 0
    ensures Order(a + [x], b) == 1
    decreases |a|
  {
    if |a| != 0 && |b| != 0 && a[0] == b[0] {
      LongerIsAfter(a[1..], b[1..], x);
      assert (a + [x])[1..] == a[1..] + [x];
    }
  }

  /** Entry 2^30 and those after it are never read: the last name, or a name after it, gets a wrong answer. */
  lemma LastIsLost(image: seq<Byte>, table: nat, n: Word32)
    requires table <= |image| && IsSorted(image, table, n) && WRAPPED < n
    ensures !SearchIsLinear(image, table, n)
  {
    hide Probe, HasEntry, Order, EntryName, IsName;
    var last := EntryName(image, table, n - 1);
    var name := if n == TWO31 then last + [1] else last;
    assert IsName(name) by {
      NameGrows(last);
    }
    if n <= TWO31 {
      forall k: Word32 | k < n
        ensures Probe(image, table, name, k) == Some(1)
      {
        ProbeIsOrder(image, table, name, k);
        AfterAll(image, table, n, k % WRAPPED);
      }
      AlwaysAfter(image, table, n, name, 0, 0);
    }
    assert last != last + [1];
    assert !IsAnswer(image, table, n, name, SearchFrom(image, table, name, 0, 0, n - 1));
  }

  lemma NameGrows(s: seq<Byte>)
    requires IsName(s)
    ensures IsName(s + [1])
  {
  }

  lemma AfterAll(image: seq<Byte>, table: nat, n: Word32, k: nat)
    requires table <= |image| && IsSorted(image, table, n) && k < n - 1
    ensures var last := EntryName(image, table, n - 1);
            Order(last, EntryName(image, table, k)) == 1 && Order(last + [1], EntryName(image, table, k)) == 1
  {
    hide HasEntry, EntryName;
    var last, e := EntryName(image, table, n - 1), EntryName(image, table, k);
    assert Order(e, last) < 0;
    OrderIsTotal(e, last);
    OrderIsTotal(last, e);
    LongerIsAfter(last, e, 1);
    OrderIsSign(last, e);
  }

  lemma OrderIsSign(a: seq<Byte>, b: seq<Byte>)
    ensures -1 <= Order(a, b) <= 1
    decreases |a|
  {
    if |a| != 0 && |b| != 0 && a[0] == b[0] {
      OrderIsSign(a[1..], b[1..]);
    }
  }

  // ------------------------------------------------------------------ a table that is too long

  function Ones(n: nat): (s: seq<Byte>)
    ensures |s| == n && forall k | 0 <= k < n :: s[k] == 1
  {
    seq(n, _ => 1)
  }

  function Pointers(n: Word32, k: nat): (s: seq<Byte>)
    requires k <= n
    ensures |s| == 4 * (n - k)
    decreases n - k
  {
    if k == n then [] else Put32(n - k) + Pointers(n, k + 1)
  }

  /** A zero byte, n bytes of 1, a zero byte, n pointers of which entry k is n - k, and a byte: the names are 1, 11, 111,
      and so on. */
  function Big(n: Word32): (s: seq<Byte>)
    ensures |s| == 5 * n + 3
  {
    ([0] + Ones(n) + [0]) + Pointers(n, 0) + [0]
  }

  lemma {:induction false} PointerAt(n: Word32, i: nat, k: nat)
    requires i <= k < n
    ensures Pointers(n, i)[4 * (k - i)..4 * (k - i) + 4] == Put32(n - k)
    decreases k - i
  {
    hide Put32;
    if i < k {
      PointerAt(n, i + 1, k);
      assert Pointers(n, i)[4..] == Pointers(n, i + 1);
    }
  }

  lemma BigPointer(n: Word32, k: nat)
    requires k < n
    ensures Read32(Big(n), n + 2 + 4 * k) == n - k
  {
    hide Put32, Get32, Pointers, Ones;
    PointerAt(n, 0, k);
    GetPut32(n - k);
    var head, pointers := [0] + Ones(n) + [0], Pointers(n, 0);
    Inside(head, pointers, [0], 4 * k, 4);
  }

  lemma Inside(a: seq<Byte>, b: seq<Byte>, c: seq<Byte>, i: nat, n: nat)
    requires i + n <= |b|
    ensures (a + b + c)[|a| + i..|a| + i + n] == b[i..i + n]
  {
  }

  lemma {:induction false} BigName(n: Word32, at: nat)
    requires 0 < at <= n + 1
    ensures NameAt(Big(n), at) == Ones(n + 1 - at)
    decreases n + 1 - at
  {
    hide Pointers;
    if at <= n {
      BigName(n, at + 1);
      assert Big(n)[at] == 1;
      assert [1] + Ones(n - at) == Ones(n + 1 - at);
    } else {
      assert Big(n)[at] == 0;
    }
  }

  lemma {:induction false} FewerOnesFirst(i: nat, j: nat)
    requires i < j
    ensures Order(Ones(i), Ones(j)) < 0
    decreases i
  {
    if i != 0 {
      FewerOnesFirst(i - 1, j - 1);
      assert Ones(i)[1..] == Ones(i - 1) && Ones(j)[1..] == Ones(j - 1);
    }
  }

  /** There are sorted tables of any length. */
  lemma BigIsSorted(n: Word32)
    requires 0 < n
    ensures IsSorted(Big(n), n + 2, n)
  {
    hide Big, Read32, Order, NameAt, Ones;
    var image, table := Big(n), n + 2;
    forall k | 0 <= k < n
      ensures HasEntry(image, table, k) && EntryName(image, table, k) == Ones(k + 1)
    {
      BigPointer(n, k);
      BigName(n, n - k);
    }
    forall i, j | 0 <= i < j < n
      ensures Order(EntryName(image, table, i), EntryName(image, table, j)) < 0
    {
      FewerOnesFirst(i + 1, j + 1);
    }
  }

  /** 2^30 + 1 names. */
  lemma BigIsLost()
    ensures var n: Word32 := WRAPPED + 1; IsSorted(Big(n), n + 2, n) && !SearchIsLinear(Big(n), n + 2, n)
  {
    hide IsSorted, SearchIsLinear, Big;
    BigIsSorted(WRAPPED + 1);
    LastIsLost(Big(WRAPPED + 1), WRAPPED + 3, WRAPPED + 1);
  }

  /** The binary search agrees with a linear search on a strictly sorted table exactly when every entry is at a
      32-bit offset. */
  lemma SearchIsLinearExactly(image: seq<Byte>, table: nat, n: Word32)
    requires table <= |image| && IsSorted(image, table, n) && 0 < n
    ensures SearchIsLinear(image, table, n) <==> n <= WRAPPED
  {
    hide HasEntry, EntryName, IsAnswer, SearchFrom, Order, IsName;
    if n <= WRAPPED {
      forall name: seq<Byte> | IsName(name)
        ensures IsAnswer(image, table, n, name, SearchFrom(image, table, name, 0, 0, n - 1))
      {
        SearchIsRight(image, table, n, name, 0, 0, n - 1);
      }
    } else {
      LastIsLost(image, table, n);
    }
  }

  // ------------------------------------------------------------------ the address of an export

  predicate IsForwarded(d: Directory, offset: nat) {
    d.virtualAddress <= offset < (d.virtualAddress + d.size) % TWO32
  }

  function OfOrdinal(image: seq<Byte>, d: Directory, ordinal: nat): Lookup
    requires d.addressOfFunctions <= |image|
  {
    match CaptureValue32(image, d.addressOfFunctions, ordinal)
    case None => Error
    case Some(offset) => if IsForwarded(d, offset) then Forwarder(offset) else Function(offset)
  }

  /** What an ordinal gives, whatever the image: the entry of the function table, which is a forwarder exactly when it lies
      in the export directory. A directory that goes beyond 4 GB contains none. */
  lemma OrdinalExactly(image: seq<Byte>, d: Directory, ordinal: nat)
    requires IsDirectory(d) && d.addressOfFunctions <= |image| && 4 * ordinal < TWO32
    ensures var at := d.addressOfFunctions + 4 * ordinal;
            OfOrdinal(image, d, ordinal) ==
            if |image| <= at + 4 then Error
            else
              var offset := Get32(image[at..at + 4]);
              if d.virtualAddress <= offset < d.virtualAddress + d.size && d.virtualAddress + d.size < TWO32 then Forwarder(offset)
              else Function(offset)
  {
    CapturedExactly(image, d.addressOfFunctions, ordinal);
    CapturedIs(image, d.addressOfFunctions, ordinal);
    hide CaptureValue32, Get32;
  }

  predicate AreTablesValid(image: seq<Byte>, d: Directory) {
    && IsValidAddress(image, d.addressOfFunctions) && IsValidAddress(image, d.addressOfNames)
    && IsValidAddress(image, d.addressOfNameOrdinals)
  }

  function OfName(image: seq<Byte>, d: Directory, name: seq<Byte>): Lookup
    requires IsDirectory(d) && AreTablesValid(image, d)
  {
    if d.numberOfNames == 0 then Error
    else match SearchFrom(image, d.addressOfNames, name, 0, 0, d.numberOfNames - 1)
      case Failed => Error
      case Missing => NotFound
      case Middle(k) =>
        match CaptureValue16(image, d.addressOfNameOrdinals, k)
        case None => Error
        case Some(ordinal) => OfOrdinal(image, d, ordinal)
  }

  /** DianaPeFile_GetProcAddressEx of a mapped image; `ordinal` is None for DIANA_PE_INVALID_ORDINAL_VALUE. */
  method GetProcAddress(image: seq<Byte>, d: Directory, name: seq<Byte>, ordinal: Option<nat>) returns (r: Lookup)
    requires IsDirectory(d) && IsName(name)
    ensures d.virtualAddress == 0 || d.size == 0 ==> r == NotFound
    ensures d.virtualAddress != 0 && d.size != 0 ==>
              if |image| < d.virtualAddress + d.size || d.addressOfFunctions == 0 || |image| <= d.addressOfFunctions then r == Error
              else if ordinal.Some? then r == OfOrdinal(image, d, ordinal.value)
              else if d.addressOfNames == 0 || |image| <= d.addressOfNames || d.addressOfNameOrdinals == 0
                      || |image| <= d.addressOfNameOrdinals || d.numberOfNames == 0 then r == Error
              else AreTablesValid(image, d) && r == OfName(image, d, name)
  {
    hide SearchFrom, CaptureValue16, CaptureValue32, IsName;
    if d.virtualAddress == 0 || d.size == 0 {
      return NotFound;
    }
    if d.virtualAddress > |image| || d.size > |image| || d.virtualAddress > |image| - d.size
       || !IsValidAddress(image, d.addressOfFunctions)
    {
      return Error;
    }
    var index := 0;
    if ordinal.Some? {
      index := ordinal.value;
    } else {
      if !IsValidAddress(image, d.addressOfNames) || !IsValidAddress(image, d.addressOfNameOrdinals)
         || d.numberOfNames == 0
      {
        return Error;
      }
      var found := SearchNames(image, d.addressOfNames, name, d.numberOfNames);
      if found.Failed? {
        return Error;
      }
      if found.Missing? {
        return NotFound;
      }
      var captured := CaptureValue16(image, d.addressOfNameOrdinals, found.k);
      if captured.None? {
        return Error;
      }
      index := captured.value;
    }
    var offset := CaptureValue32(image, d.addressOfFunctions, index);
    if offset.None? {
      return Error;
    }
    return if IsForwarded(d, offset.value) then Forwarder(offset.value) else Function(offset.value);
  }

  /** On a sorted table, a name has the export of the ordinal beside it, and is NOT_FOUND exactly when no entry has
      it. */
  lemma NamesResolve(image: seq<Byte>, d: Directory, name: seq<Byte>)
    requires IsDirectory(d) && IsName(name) && AreTablesValid(image, d)
    requires 0 < d.numberOfNames <= WRAPPED && IsSorted(image, d.addressOfNames, d.numberOfNames)
    requires d.addressOfNameOrdinals + 2 * d.numberOfNames < |image|
    ensures forall k | 0 <= k < d.numberOfNames && EntryName(image, d.addressOfNames, k) == name ::
              OfName(image, d, name) == OfOrdinal(image, d, Read16(image, d.addressOfNameOrdinals + 2 * k))
    ensures (forall k | 0 <= k < d.numberOfNames :: EntryName(image, d.addressOfNames, k) != name) ==>
              OfName(image, d, name) == NotFound
  {
    hide SearchFrom, HasEntry, EntryName, Order, OfOrdinal;
    var n := d.numberOfNames;
    SearchIsLinearExactly(image, d.addressOfNames, n);
    var r := SearchFrom(image, d.addressOfNames, name, 0, 0, n - 1);
    assert IsAnswer(image, d.addressOfNames, n, name, r);
    if r.Middle? {
      forall k | 0 <= k < n && EntryName(image, d.addressOfNames, k) == name
        ensures k == r.k
      {
        SameNameSameEntry(image, d.addressOfNames, n, k, r.k);
      }
    }
  }

  lemma SameNameSameEntry(image: seq<Byte>, table: nat, n: nat, i: nat, j: nat)
    requires IsSorted(image, table, n) && i < n && j < n && EntryName(image, table, i) == EntryName(image, table, j)
    ensures i == j
  {
    hide HasEntry, EntryName, Order;
    OrderIsTotal(EntryName(image, table, i), EntryName(image, table, j));
  }
}
