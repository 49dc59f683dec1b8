/** What a Vorbis code has to be, and the pool that finds it. */
module HuffmanCode {
  import opened Bits

  // A codeword is a leaf of the binary tree over 32-bit addresses: the block of 2^(32-len)
  // addresses that start with the codeword's bits, most significant bit first.

  const NO_CODE: nat := 255
  const MAX_LEN: nat := 31

  datatype Leaf = Leaf(addr: nat, len: nat)

  function Width(d: nat): (w: nat)
    requires d <= 32
    ensures w > 0
  {
    Pow2(32 - d)
  }

  ghost predicate IsBlock(l: Leaf) {
    l.len <= MAX_LEN && Low(l.addr, 32 - l.len) == 0 && l.addr + Width(l.len) <= TWO_32
  }

  /** Neither codeword is a prefix of the other. */
  ghost predicate Apart(a: Leaf, b: Leaf)
    requires a.len <= MAX_LEN && b.len <= MAX_LEN
  {
    a.addr + Width(a.len) <= b.addr || b.addr + Width(b.len) <= a.addr
  }

  ghost predicate Blocks(leaves: seq<Leaf>) {
    forall k :: 0 <= k < |leaves| ==> IsBlock(leaves[k])
  }

  ghost predicate PrefixFree(leaves: seq<Leaf>)
    requires Blocks(leaves)
  {
    forall j, k :: 0 <= j < k < |leaves| ==> Apart(leaves[j], leaves[k])
  }

  ghost predicate Unused(leaves: seq<Leaf>, l: Leaf)
    requires Blocks(leaves) && IsBlock(l)
  {
    forall k :: 0 <= k < |leaves| ==> Apart(leaves[k], l)
  }

  /** l is the lowest unused codeword of its length (section 3.2.1 of the Vorbis I specification). */
  ghost predicate LowestUnused(leaves: seq<Leaf>, l: Leaf)
    requires Blocks(leaves)
  {
    && IsBlock(l) && Unused(leaves, l)
    && forall a: nat :: IsBlock(Leaf(a, l.len)) && Unused(leaves, Leaf(a, l.len)) ==> l.addr <= a
  }

  ghost predicate Canonical(leaves: seq<Leaf>) {
    && Blocks(leaves)
    && forall k :: 0 <= k < |leaves| ==> LowestUnused(leaves[..k], leaves[k])
  }

  /** Measure of the leaves, in addresses: 2^32 times the Kraft sum. */
  function Measure(leaves: seq<Leaf>): nat
    requires forall k :: 0 <= k < |leaves| ==> leaves[k].len <= MAX_LEN
  {
    if leaves == [] then 0 else Measure(leaves[..|leaves| - 1]) + Width(leaves[|leaves| - 1].len)
  }

  ghost predicate LengthsOk(lens: seq<nat>) {
    forall k :: 0 <= k < |lens| ==> 1 <= lens[k] <= MAX_LEN || lens[k] == NO_CODE
  }

  function KraftSum(lens: seq<nat>): nat
    requires LengthsOk(lens)
  {
    if lens == [] then 0
    else KraftSum(lens[..|lens| - 1]) + if lens[|lens| - 1] == NO_CODE then 0 else Width(lens[|lens| - 1])
  }

  lemma {:induction false} KraftGrows(lens: seq<nat>, i: nat)
    requires LengthsOk(lens) && i <= |lens|
    ensures KraftSum(lens[..i]) <= KraftSum(lens)
    decreases |lens|
  {
    if i < |lens| {
      var init := lens[..|lens| - 1];
      KraftGrows(init, i);
      assert init[..i] == lens[..i];
    } else {
      assert lens[..i] == lens;
    }
  }

  lemma {:induction false} KraftNext(lens: seq<nat>, i: nat)
    requires LengthsOk(lens) && i < |lens|
    ensures KraftSum(lens[..i + 1]) == KraftSum(lens[..i]) + if lens[i] == NO_CODE then 0 else Width(lens[i])
  {
    assert lens[..i + 1][..i] == lens[..i];
  }

  // ---------------------------------------------------------------------------------------------
  // Blocks of addresses

  lemma {:induction false} WidthHalves(d: nat)
    requires d < 32
    ensures Width(d) == 2 * Width(d + 1)
  {
  }

  lemma {:induction false} WidthShrinks(d: nat, e: nat)
    requires d <= e <= 32
    ensures Width(e) <= Width(d)
  {
    Pow2Monotone(32 - e, 32 - d);
  }

  /** Two blocks are apart, or the one of the longer codeword lies inside the other. */
  lemma {:induction false} Nested(a: Leaf, b: Leaf)
    requires IsBlock(a) && IsBlock(b) && a.len <= b.len
    ensures Apart(a, b) || (a.addr <= b.addr && b.addr + Width(b.len) <= a.addr + Width(a.len))
  {
    var n := 32 - b.len;
    CoarserMultiple(a.addr, 32 - a.len, n);
    EndMultiple(a, n);
    if b.addr < a.addr {
      MultiplesApart(b.addr, a.addr, n);
    } else if b.addr < a.addr + Width(a.len) {
      MultiplesApart(b.addr, a.addr + Width(a.len), n);
    }
  }

  lemma {:induction false} EndMultiple(a: Leaf, n: nat)
    requires IsBlock(a) && n <= 32 - a.len
    ensures Low(a.addr + Width(a.len), n) == 0
  {
    CoarserMultiple(a.addr, 32 - a.len, n);
    Pow2Multiple(32 - a.len, n);
    MultipleSum(a.addr, Width(a.len), n);
  }

  // ---------------------------------------------------------------------------------------------
  // The pool of free leaves: level i holds the address of the one free leaf of depth i, or -1

  ghost predicate Slots(free: seq<int>) {
    |free| == 32 && forall i :: 0 <= i < 32 && free[i] >= 0 ==> IsBlock(Leaf(free[i], i))
  }

  /** Deeper free leaves have lower addresses, so there is never more than one on a level. */
  ghost predicate Decreasing(free: seq<int>)
    requires Slots(free)
  {
    forall i, j :: 0 <= i < j < 32 && free[i] >= 0 && free[j] >= 0 ==> free[j] + Width(j) <= free[i]
  }

  ghost predicate FreeUnused(free: seq<int>, leaves: seq<Leaf>)
    requires Slots(free) && Blocks(leaves)
  {
    forall i :: 0 <= i < 32 && free[i] >= 0 ==> Unused(leaves, Leaf(free[i], i))
  }

  ghost predicate Holds(free: seq<int>, i: nat, l: Leaf)
    requires |free| == 32 && l.len <= MAX_LEN && i < 32
  {
    0 <= free[i] <= l.addr && l.addr + Width(l.len) <= free[i] + Width(i)
  }

  /** No free space is hidden: an unused codeword lies under one single free leaf. */
  ghost predicate Maximal(free: seq<int>, leaves: seq<Leaf>)
    requires Slots(free) && Blocks(leaves)
  {
    forall l :: IsBlock(l) && Unused(leaves, l) ==> exists i :: 0 <= i <= l.len && Holds(free, i, l)
  }

  function FreeMeasure(free: seq<int>, n: nat): nat
    requires |free| == 32 && n <= 32
  {
    if n == 0 then 0 else FreeMeasure(free, n - 1) + if free[n - 1] >= 0 then Width(n - 1) else 0
  }

  ghost predicate Pool(free: seq<int>, leaves: seq<Leaf>) {
    && Slots(free) && Blocks(leaves) && PrefixFree(leaves)
    && Decreasing(free) && FreeUnused(free, leaves) && Maximal(free, leaves)
    && FreeMeasure(free, 32) + Measure(leaves) == TWO_32
  }

  /** Before any codeword is given out, the root is the only free leaf. */
  function Root(): (r: seq<int>)
    ensures |r| == 32
  {
    seq(32, i => if i == 0 then 0 else -1)
  }

  lemma {:induction false} RootPool()
    ensures Pool(Root(), [])
  {
    Pow2Is32();
    assert Width(0) == TWO_32;
    ShlZero(32);
    assert Low(0, 32) == 0;
    RootMeasure(32);
    forall l: Leaf | IsBlock(l) ensures exists i :: 0 <= i <= l.len && Holds(Root(), i, l) {
      assert Holds(Root(), 0, l);
    }
  }

  lemma {:induction false} RootMeasure(n: nat)
    requires n <= 32
    ensures FreeMeasure(Root(), n) == if n == 0 then 0 else Width(0)
  {
    if n > 0 {
      RootMeasure(n - 1);
    }
  }

  /** Gives the first codeword of length d under the free leaf on level z to the code; what is left
      of that leaf becomes one free leaf on each of the levels z+1..d. */
  ghost function Split(free: seq<int>, z: nat, d: nat): seq<int>
    requires |free| == 32 && z <= d <= MAX_LEN
  {
    seq(32, i requires 0 <= i < 32 =>
      if i == z then -1 else if z < i <= d then free[z] + Width(i) else free[i])
  }

  /** z is the deepest level, no deeper than d, that has a free leaf. */
  ghost predicate Deepest(free: seq<int>, z: nat, d: nat)
    requires |free| == 32
  {
    z <= d <= MAX_LEN && free[z] >= 0 && forall i :: z < i <= d ==> free[i] < 0
  }

  lemma {:induction false} LeftoverBlock(r: nat, z: nat, i: nat)
    requires z < i <= MAX_LEN && IsBlock(Leaf(r, z))
    ensures IsBlock(Leaf(r + Width(i), i)) && r + 2 * Width(i) <= r + Width(z)
  {
    CoarserMultiple(r, 32 - z, 32 - i);
    Pow2Multiple(32 - i, 32 - i);
    MultipleSum(r, Width(i), 32 - i);
    WidthShrinks(z, i - 1);
  }

  lemma {:induction false} NewBlock(r: nat, z: nat, d: nat)
    requires z <= d <= MAX_LEN && IsBlock(Leaf(r, z))
    ensures IsBlock(Leaf(r, d)) && r + Width(d) <= r + Width(z)
  {
    CoarserMultiple(r, 32 - z, 32 - d);
    WidthShrinks(z, d);
  }

  lemma {:induction false} SplitSlots(free: seq<int>, z: nat, d: nat)
    requires Slots(free) && Decreasing(free) && Deepest(free, z, d)
    ensures Slots(Split(free, z, d)) && Decreasing(Split(free, z, d))
    ensures IsBlock(Leaf(free[z], d)) && free[z] + Width(d) <= free[z] + Width(z)
  {
    NewBlock(free[z], z, d);
    forall i | 0 <= i < 32 && Split(free, z, d)[i] >= 0 ensures IsBlock(Leaf(Split(free, z, d)[i], i)) {
      if z < i <= d {
        LeftoverBlock(free[z], z, i);
      }
    }
    SplitDecreasing(free, z, d);
  }

  lemma {:induction false} SplitDecreasing(free: seq<int>, z: nat, d: nat)
    requires Slots(free) && Decreasing(free) && Deepest(free, z, d) && Slots(Split(free, z, d))
    ensures Decreasing(Split(free, z, d))
  {
    var s := Split(free, z, d);
    forall i, j | 0 <= i < j < 32 && s[i] >= 0 && s[j] >= 0 ensures s[j] + Width(j) <= s[i] {
      if z < i <= d && j <= d {
        WidthShrinks(i, j - 1);
        WidthHalves(j - 1);
      } else if z < j <= d {
        assert free[z] + Width(z) <= free[i];
        LeftoverBlock(free[z], z, j);
      } else if z < i <= d {
        assert free[j] + Width(j) <= free[z];
      } else {
        assert free[j] + Width(j) <= free[i];
      }
    }
  }

  lemma {:induction false} NewUnused(free: seq<int>, leaves: seq<Leaf>, z: nat, d: nat)
    requires Slots(free) && Blocks(leaves) && FreeUnused(free, leaves) && Deepest(free, z, d)
    ensures IsBlock(Leaf(free[z], d)) && Unused(leaves, Leaf(free[z], d))
  {
    NewBlock(free[z], z, d);
    InsideUnused(leaves, Leaf(free[z], z), Leaf(free[z], d));
  }

  lemma {:induction false} SplitUnused(free: seq<int>, leaves: seq<Leaf>, z: nat, d: nat)
    requires Slots(free) && Decreasing(free) && Blocks(leaves) && FreeUnused(free, leaves) && Deepest(free, z, d)
    ensures IsBlock(Leaf(free[z], d)) && Slots(Split(free, z, d)) && Unused(leaves, Leaf(free[z], d))
    ensures Blocks(leaves + [Leaf(free[z], d)]) && FreeUnused(Split(free, z, d), leaves + [Leaf(free[z], d)])
  {
    SplitSlots(free, z, d);
    NewUnused(free, leaves, z, d);
    var s := Split(free, z, d);
    forall i | 0 <= i < 32 && s[i] >= 0 ensures Unused(leaves + [Leaf(free[z], d)], Leaf(s[i], i)) {
      SlotUnused(free, leaves, z, d, i);
    }
  }

  lemma {:induction false} SlotUnused(free: seq<int>, leaves: seq<Leaf>, z: nat, d: nat, i: nat)
    requires Slots(free) && Decreasing(free) && Blocks(leaves) && FreeUnused(free, leaves) && Deepest(free, z, d)
    requires i < 32 && Split(free, z, d)[i] >= 0
    requires IsBlock(Leaf(Split(free, z, d)[i], i)) && IsBlock(Leaf(free[z], d))
    ensures Unused(leaves + [Leaf(free[z], d)], Leaf(Split(free, z, d)[i], i))
  {
    var slot := Leaf(Split(free, z, d)[i], i);
    if z < i <= d {
      LeftoverBlock(free[z], z, i);
      WidthShrinks(i, d);
      InsideUnused(leaves, Leaf(free[z], z), slot);
    } else {
      assert Unused(leaves, slot);
      NewBlock(free[z], z, d);
    }
    assert Apart(Leaf(free[z], d), slot);
  }

  lemma {:induction false} InsideUnused(leaves: seq<Leaf>, outer: Leaf, l: Leaf)
    requires Blocks(leaves) && IsBlock(outer) && IsBlock(l) && Unused(leaves, outer)
    requires outer.addr <= l.addr && l.addr + Width(l.len) <= outer.addr + Width(outer.len)
    ensures Unused(leaves, l)
  {
    forall k | 0 <= k < |leaves| ensures Apart(leaves[k], l) {
      assert Apart(leaves[k], outer);
    }
  }

  /** The leaf on level y, z < y <= d, that covers an address behind the new codeword. */
  lemma {:induction false} CoveringLevel(r: nat, z: nat, d: nat, b: nat) returns (y: nat)
    requires z < d <= MAX_LEN
    requires r + Width(d) <= b < r + Width(z)
    ensures z < y <= d && r + Width(y) <= b < r + 2 * Width(y)
    decreases d
  {
    WidthHalves(d - 1);
    if b < r + 2 * Width(d) {
      y := d;
    } else if d == z + 1 {
      assert false;
      y := d;
    } else {
      y := CoveringLevel(r, z, d - 1, b);
    }
  }

  lemma {:induction false} SplitMaximal(free: seq<int>, leaves: seq<Leaf>, z: nat, d: nat)
    requires Pool(free, leaves) && Deepest(free, z, d)
    ensures IsBlock(Leaf(free[z], d)) && Slots(Split(free, z, d))
    ensures Maximal(Split(free, z, d), leaves + [Leaf(free[z], d)])
  {
    SplitSlots(free, z, d);
    var new_ := Leaf(free[z], d);
    forall l | IsBlock(l) && Unused(leaves + [new_], l)
      ensures exists i :: 0 <= i <= l.len && Holds(Split(free, z, d), i, l)
    {
      forall k | 0 <= k < |leaves| ensures Apart(leaves[k], l) {
        assert (leaves + [new_])[k] == leaves[k];
      }
      assert Apart((leaves + [new_])[|leaves|], l);
      var i := SplitHolder(free, leaves, z, d, l);
    }
  }

  lemma {:induction false} SplitHolder(free: seq<int>, leaves: seq<Leaf>, z: nat, d: nat, l: Leaf) returns (i: nat)
    requires Slots(free) && Blocks(leaves) && Maximal(free, leaves) && Deepest(free, z, d)
    requires IsBlock(Leaf(free[z], d)) && IsBlock(l) && Unused(leaves, l) && Apart(Leaf(free[z], d), l)
    ensures i <= l.len && Holds(Split(free, z, d), i, l)
  {
    i := Holder(free, leaves, l);
    if i == z {
      i := SplitCovers(free[z], z, d, l);
    }
  }

  /** A block under the split leaf that avoids the new codeword lies under one of the leaves left over. */
  lemma {:induction false} SplitCovers(r: nat, z: nat, d: nat, l: Leaf) returns (y: nat)
    requires z <= d <= MAX_LEN && IsBlock(Leaf(r, z)) && IsBlock(Leaf(r, d)) && IsBlock(l)
    requires r <= l.addr && l.addr + Width(l.len) <= r + Width(z) && z <= l.len
    requires Apart(Leaf(r, d), l)
    ensures z < y <= d && y <= l.len && r + Width(y) <= l.addr && l.addr + Width(l.len) <= r + 2 * Width(y)
  {
    if d == z {
      assert false;
    }
    y := CoveringLevel(r, z, d, l.addr);
    LeftoverBlock(r, z, y);
    if y <= l.len {
      Nested(Leaf(r + Width(y), y), l);
    } else {
      // l would contain the covering leaf's parent, which starts at the new codeword
      NewBlock(r, z, y - 1);
      Nested(l, Leaf(r, y - 1));
      assert false;
    }
  }

  lemma {:induction false} SplitMeasure(free: seq<int>, z: nat, d: nat, n: nat)
    requires |free| == 32 && Deepest(free, z, d) && n <= 32
    ensures FreeMeasure(Split(free, z, d), n)
         == FreeMeasure(free, n) - if n <= z then 0 else if n <= d then Width(n - 1) else Width(d)
  {
    if n > 0 {
      SplitMeasure(free, z, d, n - 1);
      if z + 1 < n <= d + 1 {
        WidthHalves(n - 2);
      }
    }
  }

  /** The deepest free leaf that fits has the lowest unused codeword of the wanted length. */
  lemma {:induction false} DeepestIsLowest(free: seq<int>, leaves: seq<Leaf>, z: nat, d: nat)
    requires Pool(free, leaves) && Deepest(free, z, d)
    ensures LowestUnused(leaves, Leaf(free[z], d))
  {
    NewUnused(free, leaves, z, d);
    forall a: nat | IsBlock(Leaf(a, d)) && Unused(leaves, Leaf(a, d)) ensures free[z] <= a {
      NoLowerUnused(free, leaves, z, d, a);
    }
  }

  lemma {:induction false} NoLowerUnused(free: seq<int>, leaves: seq<Leaf>, z: nat, d: nat, a: nat)
    requires Slots(free) && Decreasing(free) && Blocks(leaves) && Maximal(free, leaves) && Deepest(free, z, d)
    requires IsBlock(Leaf(a, d)) && Unused(leaves, Leaf(a, d))
    ensures free[z] <= a
  {
    var i := Holder(free, leaves, Leaf(a, d));
    LowestSlot(free, i, z, d);
  }

  lemma {:induction false} LowestSlot(free: seq<int>, i: nat, z: nat, d: nat)
    requires Slots(free) && Decreasing(free) && Deepest(free, z, d) && i <= d && free[i] >= 0
    ensures free[z] <= free[i]
  {
    if i < z {
      assert free[z] + Width(z) <= free[i];
    }
  }

  lemma {:induction false} Holder(free: seq<int>, leaves: seq<Leaf>, l: Leaf) returns (i: nat)
    requires Slots(free) && Blocks(leaves) && Maximal(free, leaves) && IsBlock(l) && Unused(leaves, l)
    ensures i <= l.len && Holds(free, i, l)
  {
    i :| 0 <= i <= l.len && Holds(free, i, l);
  }

  /** One step of the construction: everything the pool promises survives giving out a codeword. */
  lemma {:induction false} SplitPool(free: seq<int>, leaves: seq<Leaf>, z: nat, d: nat)
    requires Pool(free, leaves) && Deepest(free, z, d)
    ensures Pool(Split(free, z, d), leaves + [Leaf(free[z], d)])
    ensures LowestUnused(leaves, Leaf(free[z], d))
  {
    SplitSlots(free, z, d);
    SplitUnused(free, leaves, z, d);
    SplitMaximal(free, leaves, z, d);
    SplitMeasure(free, z, d, 32);
    DeepestIsLowest(free, leaves, z, d);
    AppendLeaf(leaves, Leaf(free[z], d));
  }

  lemma {:induction false} AppendLeaf(leaves: seq<Leaf>, l: Leaf)
    requires Blocks(leaves) && PrefixFree(leaves) && IsBlock(l) && Unused(leaves, l)
    ensures Blocks(leaves + [l]) && PrefixFree(leaves + [l])
    ensures Measure(leaves + [l]) == Measure(leaves) + Width(l.len)
  {
    assert (leaves + [l])[..|leaves|] == leaves;
  }

  lemma {:induction false} EmptyLevelsMeasure(free: seq<int>, d: nat, n: nat)
    requires |free| == 32 && d <= MAX_LEN && d < n <= 32 && forall i :: 0 <= i <= d ==> free[i] < 0
    ensures FreeMeasure(free, n) + Width(n - 1) <= Width(d)
  {
    if n == d + 1 {
      NoneMeasure(free, d + 1);
    } else {
      EmptyLevelsMeasure(free, d, n - 1);
      WidthHalves(n - 2);
    }
  }

  lemma {:induction false} NoneMeasure(free: seq<int>, n: nat)
    requires |free| == 32 && n <= 32 && forall i :: 0 <= i < n ==> free[i] < 0
    ensures FreeMeasure(free, n) == 0
  {
    if n > 0 {
      NoneMeasure(free, n - 1);
    }
  }

  /** When no level down to d has a free leaf, the code is overfull as soon as it has one more codeword of length d. */
  lemma {:induction false} NoRoom(free: seq<int>, leaves: seq<Leaf>, d: nat)
    requires Pool(free, leaves) && d <= MAX_LEN && forall i :: 0 <= i <= d ==> free[i] < 0
    ensures Measure(leaves) + Width(d) > TWO_32
  {
    EmptyLevelsMeasure(free, d, 32);
  }

  // ---------------------------------------------------------------------------------------------
  // What the code is worth

  ghost predicate SameLengths(a: seq<Leaf>, b: seq<Leaf>) {
    |a| == |b| && forall k :: 0 <= k < |a| ==> a[k].len == b[k].len
  }

  /** The rule of the specification leaves no choice. */
  lemma {:induction false} CanonicalUnique(a: seq<Leaf>, b: seq<Leaf>)
    requires Canonical(a) && Canonical(b) && SameLengths(a, b)
    ensures a == b
  {
    if a != [] {
      var n := |a| - 1;
      CanonicalPrefix(a);
      CanonicalPrefix(b);
      CanonicalUnique(a[..n], b[..n]);
      assert LowestUnused(a[..n], a[n]) && LowestUnused(b[..n], b[n]);
      assert a[n] == Leaf(a[n].addr, b[n].len) && b[n] == Leaf(b[n].addr, a[n].len);
      assert a == a[..n] + [a[n]] && b == b[..n] + [b[n]];
    }
  }

  lemma {:induction false} CanonicalPrefix(a: seq<Leaf>)
    requires Canonical(a) && a != []
    ensures Canonical(a[..|a| - 1])
  {
    var p := a[..|a| - 1];
    forall k | 0 <= k < |p| ensures LowestUnused(p[..k], p[k]) {
      assert p[..k] == a[..k];
      assert LowestUnused(a[..k], a[k]);
    }
  }

  /** A canonical code is prefix-free. */
  lemma {:induction false} CanonicalPrefixFree(a: seq<Leaf>)
    requires Canonical(a)
    ensures PrefixFree(a)
  {
    forall j, k | 0 <= j < k < |a| ensures Apart(a[j], a[k]) {
      assert LowestUnused(a[..k], a[k]);
      assert Apart(a[..k][j], a[k]);
    }
  }

  /** A pool whose code has measure 2^32 is exhausted, so every address lies under a codeword. */
  lemma {:induction false} FullCodeCovers(free: seq<int>, leaves: seq<Leaf>, p: nat)
    requires Pool(free, leaves) && Measure(leaves) == TWO_32 && p < TWO_32
    ensures exists k :: 0 <= k < |leaves| && leaves[k].addr <= p < leaves[k].addr + Width(leaves[k].len)
  {
    if forall k :: 0 <= k < |leaves| ==> !(leaves[k].addr <= p < leaves[k].addr + Width(leaves[k].len)) {
      UncoveredIsFree(free, leaves, p);
      assert false;
    }
  }

  lemma {:induction false} UncoveredIsFree(free: seq<int>, leaves: seq<Leaf>, p: nat)
    requires Slots(free) && Blocks(leaves) && Maximal(free, leaves) && p < TWO_32
    requires forall k :: 0 <= k < |leaves| ==> !(leaves[k].addr <= p < leaves[k].addr + Width(leaves[k].len))
    ensures FreeMeasure(free, 32) > 0
  {
    assert Width(31) == 2 by { assert Pow2(1) == 2; }
    var l := Leaf(p / 2 * 2, 31);
    assert IsBlock(l);
    forall k | 0 <= k < |leaves| ensures Apart(leaves[k], l) {
      assert IsBlock(leaves[k]);
      Nested(leaves[k], l);
    }
    assert Unused(leaves, l);
    var i :| 0 <= i <= l.len && Holds(free, i, l);
    SomeMeasure(free, i, 32);
  }

  lemma {:induction false} SomeMeasure(free: seq<int>, i: nat, n: nat)
    requires |free| == 32 && i < n <= 32 && free[i] >= 0
    ensures FreeMeasure(free, n) > 0
  {
    if i < n - 1 {
      SomeMeasure(free, i, n - 1);
    }
  }

  // ---------------------------------------------------------------------------------------------
  // Codewords as they come out of the bit stream, least significant bit first

  /** The first l.len bits of acc are the codeword l. */
  ghost predicate Matches(l: Leaf, acc: nat)
    requires l.len <= MAX_LEN
  {
    Low(acc, l.len) == Reversed(l.addr)
  }

  /** Comparing the masked accumulator with the reversed codeword is looking up the reversed
      accumulator in the codeword's block of addresses. */
  lemma {:induction false} MatchesIsInBlock(l: Leaf, acc: nat)
    requires IsBlock(l) && acc < TWO_32
    ensures Reversed(l.addr) < Pow2(l.len)
    ensures Matches(l, acc) <==> l.addr <= Reversed(acc) < l.addr + Width(l.len)
  {
    var q := CodewordBits(l);
    AccumulatorBits(acc, l.len);
    ShrIsRange(Reversed(acc), q, 32 - l.len);
    RevLow(acc, l.len);
    RevInvolution(Low(acc, l.len), l.len);
    RevInvolution(q, l.len);
  }

  /** A codeword's reversed address is the reversal of its own len bits. */
  lemma {:induction false} CodewordBits(l: Leaf) returns (q: nat)
    requires IsBlock(l)
    ensures l.addr == Shl(q, 32 - l.len) && q < Pow2(l.len) && Reversed(l.addr) == RevBits(q, l.len)
  {
    q := Shr(l.addr, 32 - l.len);
    LowShr(l.addr, 32 - l.len);
    ReversedTwice(l.addr);
    RevShifted(q, 32 - l.len, l.len);
    Pow2Is32();
    ShlSmaller(q, l.len, 32 - l.len);
  }

  lemma {:induction false} ShlSmaller(q: nat, m: nat, n: nat)
    requires Shl(q, n) < Pow2(m + n)
    ensures q < Pow2(m)
    decreases n
  {
    if n > 0 {
      ShlSmaller(q, m, n - 1);
    }
  }

  /** The low len bits of the accumulator are the top len bits of its reversal. */
  lemma {:induction false} AccumulatorBits(acc: nat, len: nat)
    requires acc < TWO_32 && len <= 32
    ensures Shr(Reversed(acc), 32 - len) == RevBits(acc, len)
  {
    ReversedTwice(acc);
    RevSplit(acc, len, 32 - len);
    Join(RevBits(Shr(acc, len), 32 - len), RevBits(acc, len), 32 - len);
  }

  /** In a prefix-free code no word starts with two codewords. */
  lemma {:induction false} MatchUnique(leaves: seq<Leaf>, j: nat, k: nat, acc: nat)
    requires Blocks(leaves) && PrefixFree(leaves) && j < |leaves| && k < |leaves| && acc < TWO_32
    requires Matches(leaves[j], acc) && Matches(leaves[k], acc)
    ensures j == k
  {
    MatchesIsInBlock(leaves[j], acc);
    MatchesIsInBlock(leaves[k], acc);
  }

  /** Apart is what it says: two codewords are prefix-free exactly when no word starts with both. */
  lemma {:induction false} ApartMeansNoCommonWord(a: Leaf, b: Leaf)
    requires IsBlock(a) && IsBlock(b)
    ensures Apart(a, b) <==> !exists acc: nat :: CommonWord(a, b, acc)
  {
    forall acc: nat | CommonWord(a, b, acc) ensures !Apart(a, b) {
      MatchesIsInBlock(a, acc);
      MatchesIsInBlock(b, acc);
    }
    if !Apart(a, b) {
      var acc := OverlapWord(a, b);
    }
  }

  ghost predicate CommonWord(a: Leaf, b: Leaf, acc: nat)
    requires a.len <= MAX_LEN && b.len <= MAX_LEN
  {
    acc < TWO_32 && Matches(a, acc) && Matches(b, acc)
  }

  lemma {:induction false} OverlapWord(a: Leaf, b: Leaf) returns (acc: nat)
    requires IsBlock(a) && IsBlock(b) && !Apart(a, b)
    ensures CommonWord(a, b, acc)
  {
    var p := if a.addr < b.addr then b.addr else a.addr;
    acc := Reversed(p);
    ReversedTwice(p);
    MatchesIsInBlock(a, acc);
    MatchesIsInBlock(b, acc);
  }
}
