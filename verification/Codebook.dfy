/** The Vorbis codebook: its tables and how its code is built. */
module Codebooks {
  import opened Bits
  import opened HuffmanCode

  datatype Pointer<T> = Null | To(value: T)

  const FAST_HUFFMAN_LENGTH: nat := 10
  const FAST_HUFFMAN_TABLE_SIZE: nat := 1024
  const MAX_FAST_INDEX: nat := 32767

  /** The symbols that have a codeword, in increasing order. */
  function Coded(lens: seq<nat>): (syms: seq<nat>)
    ensures |syms| <= |lens|
    ensures forall k :: 0 <= k < |syms| ==> syms[k] < |lens| && lens[syms[k]] != NO_CODE
    ensures forall j, k :: 0 <= j < k < |syms| ==> syms[j] < syms[k]
  {
    if lens == [] then []
    else Coded(lens[..|lens| - 1]) + if lens[|lens| - 1] == NO_CODE then [] else [|lens| - 1]
  }

  lemma {:induction false} CodedNext(lens: seq<nat>, i: nat)
    requires i < |lens|
    ensures Coded(lens[..i + 1]) == Coded(lens[..i]) + if lens[i] == NO_CODE then [] else [i]
  {
    assert lens[..i + 1][..i] == lens[..i];
  }

  lemma {:induction false} CodedPrefix(lens: seq<nat>, i: nat)
    requires i <= |lens|
    ensures |Coded(lens[..i])| <= |Coded(lens)| && Coded(lens[..i]) == Coded(lens)[..|Coded(lens[..i])|]
    decreases |lens|
  {
    if i == |lens| {
      assert lens[..i] == lens;
    } else {
      var init := lens[..|lens| - 1];
      CodedPrefix(init, i);
      assert init[..i] == lens[..i];
    }
  }

  /** leaves[k] is the codeword of symbol Coded(lens)[k], and the code is the one the specification asks for. */
  ghost predicate CodeFor(lens: seq<nat>, leaves: seq<Leaf>) {
    && |leaves| == |Coded(lens)|
    && (forall k :: 0 <= k < |leaves| ==> leaves[k].len == lens[Coded(lens)[k]])
    && Canonical(leaves)
  }

  ghost predicate Covers(leaves: seq<Leaf>) {
    forall p: nat :: p < TWO_32 ==> Found(leaves, p)
  }

  ghost predicate Found(leaves: seq<Leaf>, p: nat) {
    exists k :: 0 <= k < |leaves| && InBlock(leaves[k], p)
  }

  ghost predicate InBlock(l: Leaf, p: nat) {
    l.len <= MAX_LEN && l.addr <= p < l.addr + Width(l.len)
  }

  /** The array of free leaves the construction keeps, 0 where there is none. */
  ghost predicate Mirrors(available: seq<nat>, free: seq<int>) {
    && |available| == |free| == 32 && free[0] < 0
    && forall i :: 1 <= i < 32 ==> if free[i] < 0 then available[i] == 0 else available[i] == free[i] > 0
  }

  /** The tables compute_codewords writes: by symbol, or, in a sparse book, one row per coded symbol. */
  datatype Tables = Tables(sparse: bool, codewords: seq<nat>, lengths: seq<nat>, values: seq<nat>)

  ghost predicate TablesFit(t: Tables, lens: seq<nat>) {
    if t.sparse then |t.codewords| == |t.lengths| == |t.values| == |Coded(lens)|
    else |t.codewords| == |lens| && t.lengths == lens
  }

  /** Row k, or the row of symbol syms[k], holds leaves[k]. */
  ghost predicate Stored(t: Tables, syms: seq<nat>, leaves: seq<Leaf>) {
    && |syms| == |leaves|
    && (t.sparse ==> |leaves| <= |t.codewords| == |t.lengths| == |t.values|)
    && forall k :: 0 <= k < |leaves| ==> StoredAt(t, k, syms[k], leaves[k])
  }

  ghost predicate StoredAt(t: Tables, k: nat, symbol: nat, l: Leaf) {
    if t.sparse then
      && k < |t.codewords| == |t.lengths| == |t.values|
      && t.codewords[k] == Reversed(l.addr) && t.lengths[k] == l.len && t.values[k] == symbol
    else
      symbol < |t.codewords| && t.codewords[symbol] == Reversed(l.addr)
  }

  function Entered(t: Tables, code: nat, symbol: nat, count: nat, len: nat): Tables
    requires if t.sparse then count < |t.codewords| == |t.lengths| == |t.values| else symbol < |t.codewords|
  {
    if t.sparse then
      Tables(true, t.codewords[count := code], t.lengths[count := len], t.values[count := symbol])
    else t.(codewords := t.codewords[symbol := code])
  }

  /** What holds after the lengths of the first i symbols have been worked off. */
  ghost predicate Built(t: Tables, lens: seq<nat>, i: nat, leaves: seq<Leaf>)
    requires LengthsOk(lens)
  {
    && i <= |lens| && TablesFit(t, lens)
    && Stored(t, Coded(lens[..i]), leaves)
    && CodeFor(lens[..i], leaves)
    && Measure(leaves) == KraftSum(lens[..i])
  }

  lemma {:induction false} BuiltStart(t: Tables, lens: seq<nat>)
    requires LengthsOk(lens) && TablesFit(t, lens)
    ensures Built(t, lens, 0, [])
  {
  }

  lemma {:induction false} BuiltSkip(t: Tables, lens: seq<nat>, i: nat, leaves: seq<Leaf>)
    requires LengthsOk(lens) && Built(t, lens, i, leaves) && i < |lens| && lens[i] == NO_CODE
    ensures Built(t, lens, i + 1, leaves)
  {
    CodedNext(lens, i);
    KraftNext(lens, i);
    assert Coded(lens[..i + 1]) == Coded(lens[..i]);
    forall k | 0 <= k < |leaves| ensures leaves[k].len == lens[..i + 1][Coded(lens[..i + 1])[k]] {
      assert leaves[k].len == lens[..i][Coded(lens[..i])[k]];
    }
  }

  lemma {:induction false} BuiltNext(t: Tables, lens: seq<nat>, i: nat, leaves: seq<Leaf>, l: Leaf)
    requires LengthsOk(lens) && Built(t, lens, i, leaves) && i < |lens| && lens[i] == l.len
    requires LowestUnused(leaves, l)
    ensures if t.sparse then |leaves| < |t.codewords| == |t.lengths| == |t.values| else i < |t.codewords|
    ensures Built(Entered(t, Reversed(l.addr), i, |leaves|, l.len), lens, i + 1, leaves + [l])
  {
    CodedNext(lens, i);
    KraftNext(lens, i);
    CodedPrefix(lens, i + 1);
    EnteredStored(t, lens, i, leaves, l);
    EnteredCode(lens, i, leaves, l);
    assert (leaves + [l])[..|leaves|] == leaves;
  }

  lemma {:induction false} EnteredStored(t: Tables, lens: seq<nat>, i: nat, leaves: seq<Leaf>, l: Leaf)
    requires TablesFit(t, lens) && i < |lens| && lens[i] == l.len
    requires Stored(t, Coded(lens[..i]), leaves)
    requires |leaves| < |Coded(lens)| && Coded(lens[..i + 1]) == Coded(lens[..i]) + [i]
    ensures TablesFit(Entered(t, Reversed(l.addr), i, |leaves|, l.len), lens)
    ensures Stored(Entered(t, Reversed(l.addr), i, |leaves|, l.len), Coded(lens[..i + 1]), leaves + [l])
  {
    hide Reversed;
    var t' := Entered(t, Reversed(l.addr), i, |leaves|, l.len);
    var syms := Coded(lens[..i]);
    forall k | 0 <= k < |leaves + [l]| ensures StoredAt(t', k, (syms + [i])[k], (leaves + [l])[k]) {
      assert k < |leaves| ==> StoredAt(t, k, syms[k], leaves[k]) && syms[k] < i;
    }
  }

  lemma {:induction false} EnteredCode(lens: seq<nat>, i: nat, leaves: seq<Leaf>, l: Leaf)
    requires i < |lens| && lens[i] == l.len && CodeFor(lens[..i], leaves) && LowestUnused(leaves, l)
    requires Coded(lens[..i + 1]) == Coded(lens[..i]) + [i]
    ensures CodeFor(lens[..i + 1], leaves + [l])
  {
    AppendCanonical(leaves, l);
    hide Canonical, LowestUnused;
    var syms := Coded(lens[..i]);
    forall k | 0 <= k < |leaves + [l]| ensures (leaves + [l])[k].len == lens[..i + 1][(syms + [i])[k]] {
      assert k < |leaves| ==> leaves[k].len == lens[..i][syms[k]];
    }
  }

  /** Takes the lowest free leaf that has room for a codeword of length d and gives back what is
      left of it; fails exactly when the codeword would overfill the tree. */
  method TakeLeaf(available: array<nat>, d: nat, ghost free: seq<int>, ghost leaves: seq<Leaf>)
    returns (ok: bool, res: nat, ghost free': seq<int>)
    requires available.Length == 32 && 1 <= d <= MAX_LEN
    requires Mirrors(available[..], free) && Pool(free, leaves)
    modifies available
    ensures !ok ==> Measure(leaves) + Width(d) > TWO_32
    ensures ok ==> LowestUnused(leaves, Leaf(res, d)) && Pool(free', leaves + [Leaf(res, d)])
    ensures ok ==> res < TWO_32 && Mirrors(available[..], free')
  {
    hide Pool, LowestUnused;
    var z := d;
    while z > 0 && available[z] == 0
      invariant 0 <= z <= d && forall j :: z < j <= d ==> available[j] == 0
    {
      z := z - 1;
    }
    if z == 0 {
      NoRoom(free, leaves, d);
      return false, 0, free;
    }
    res := available[z];
    SlotInWord(free, leaves, z);
    SplitPool(free, leaves, z, d);
    free' := Split(free, z, d);
    available[z] := 0;
    ghost var before := available[..];
    var y := d;
    while y > z
      invariant z <= y <= d
      invariant available[..] == Propagated(before, res, y, d)
    {
      assert available[y] == 0;
      available[y] := res + Pow2(32 - y);
      y := y - 1;
    }
    ok := true;
  }

  lemma {:induction false} SlotInWord(free: seq<int>, leaves: seq<Leaf>, z: nat)
    requires Pool(free, leaves) && z < 32
    ensures free[z] < TWO_32
  {
  }

  /** The free leaves once the first codeword, d zeros, is taken. */
  method OpenLeaves(d: nat) returns (available: array<nat>)
    requires 1 <= d <= MAX_LEN
    ensures fresh(available) && available.Length == 32
    ensures Mirrors(available[..], Split(Root(), 0, d))
  {
    available := new nat[32](_ => 0);
    var i := 1;
    while i <= d
      invariant 1 <= i <= d + 1
      invariant forall j :: 0 <= j < 32 ==> available[j] == if 1 <= j < i then Width(j) else 0
    {
      available[i] := Pow2(32 - i);
      i := i + 1;
    }
  }

  ghost function Propagated(before: seq<nat>, res: nat, y: nat, d: nat): seq<nat>
    requires |before| == 32
  {
    seq(32, j requires 0 <= j < 32 => if y < j <= d then res + Width(j) else before[j])
  }

  class Codebook {
    var entries: nat
    var sparse: bool
    var codewordLengths: seq<nat>
    var codewords: Pointer<seq<nat>>
    var sortedCodewords: Pointer<seq<nat>>
    var sortedValues: seq<int>     // sortedValues[x + 1] is sorted_values[x]; sorted_values[-1] exists and is -1
    var sortedEntries: nat
    const fastHuffman: array<int>

    constructor ()
      ensures fresh(fastHuffman) && fastHuffman.Length == FAST_HUFFMAN_TABLE_SIZE
      ensures entries == sortedEntries == 0 && !sparse && codewords.Null? && sortedCodewords.Null?
      ensures codewordLengths == [] && sortedValues == []
      ensures forall i :: 0 <= i < fastHuffman.Length ==> fastHuffman[i] == 0
    {
      entries, sparse, sortedEntries := 0, false, 0;
      codewordLengths, sortedValues := [], [];
      codewords, sortedCodewords := Null, Null;
      fastHuffman := new int[FAST_HUFFMAN_TABLE_SIZE](_ => 0);
    }

    ghost function TablesWith(values: seq<nat>): Tables
      requires codewords.To?
      reads this
    {
      Tables(sparse, codewords.value, codewordLengths, values)
    }

    method AddEntry(code: nat, symbol: nat, count: nat, len: nat, values: seq<nat>) returns (values': seq<nat>)
      requires codewords.To?
      requires if sparse then count < |codewords.value| == |codewordLengths| == |values| else symbol < |codewords.value|
      modifies this`codewords, this`codewordLengths
      ensures codewords.To?
      ensures TablesWith(values') == Entered(old(TablesWith(values)), code, symbol, count, len)
    {
      values' := values;
      if !sparse {
        codewords := To(codewords.value[symbol := code]);
      } else {
        codewords := To(codewords.value[count := code]);
        codewordLengths := codewordLengths[count := len];
        values' := values[count := symbol];
      }
    }

    /** Gives every coded symbol its codeword; fails exactly when the lengths overfill the code tree. */
    method ComputeCodewords(len: seq<nat>, vals: seq<nat>) returns (ok: bool, values: seq<nat>, ghost leaves: seq<Leaf>)
      requires LengthsOk(len) && codewords.To? && TablesFit(TablesWith(vals), len)
      modifies this`codewords, this`codewordLengths
      ensures ok <==> KraftSum(len) <= TWO_32
      ensures codewords.To? && (ok ==> Built(TablesWith(values), len, |len|, leaves))
      ensures ok ==> (KraftSum(len) == TWO_32 <==> Covers(leaves))
    {
      hide Pool, LowestUnused, Built, TablesFit, Covers, Mirrors, KraftSum, Measure, Reversed, Root, Split, Coded, Pow2;
      values := vals;
      leaves := [];
      var n, k, m := |len|, 0, 0;
      BuiltStart(TablesWith(values), len);
      while k < n && len[k] == NO_CODE
        invariant k <= n && codewords.To? && Built(TablesWith(values), len, k, [])
      {
        BuiltSkip(TablesWith(values), len, k, []);
        k := k + 1;
      }
      if k == n {
        assert len[..n] == len;
        BuiltMeasure(TablesWith(values), len, n, []);
        NothingCovers();
        return true, values, [];
      }
      // the first codeword is all zeros
      FirstLeaf(len[k]);
      BuiltNext(TablesWith(values), len, k, [], Leaf(0, len[k]));
      values := AddEntry(0, k, m, len[k], values);
      m := m + 1;
      leaves := [Leaf(0, len[k])];
      ghost var free := Split(Root(), 0, len[k]);
      var available := OpenLeaves(len[k]);
      var i := k + 1;
      while i < n
        invariant k < i <= n && m == |leaves| && codewords.To?
        invariant fresh(available) && Mirrors(available[..], free) && Pool(free, leaves)
        invariant Built(TablesWith(values), len, i, leaves)
      {
        if len[i] == NO_CODE {
          BuiltSkip(TablesWith(values), len, i, leaves);
          i := i + 1;
          continue;
        }
        KraftNext(len, i);
        KraftGrows(len, i + 1);
        BuiltMeasure(TablesWith(values), len, i, leaves);
        var taken, res, rest := TakeLeaf(available, len[i], free, leaves);
        if !taken {
          return false, values, leaves;
        }
        free := rest;
        BuiltNext(TablesWith(values), len, i, leaves, Leaf(res, len[i]));
        var code := BitReverse(res);
        values := AddEntry(code, i, m, len[i], values);
        m := m + 1;
        leaves := leaves + [Leaf(res, len[i])];
        i := i + 1;
      }
      assert len[..n] == len;
      BuiltMeasure(TablesWith(values), len, n, leaves);
      PoolMeasure(free, leaves);
      ok := true;
      PoolCovers(free, leaves);
    }
  }

  /** Every word starts with a codeword exactly if the code has full measure. */
  lemma {:induction false} PoolCovers(free: seq<int>, leaves: seq<Leaf>)
    requires Pool(free, leaves)
    ensures Covers(leaves) <==> Measure(leaves) == TWO_32
  {
    if Measure(leaves) == TWO_32 {
      forall p: nat | p < TWO_32 ensures Found(leaves, p) {
        FullCodeCovers(free, leaves, p);
      }
    } else {
      var i := FreeLevel(free, 32);
      assert Unused(leaves, Leaf(free[i], i)) && IsBlock(Leaf(free[i], i));
      hide Pool, LowestUnused;
      assert !Found(leaves, free[i]);
    }
  }

  lemma {:induction false} FreeLevel(free: seq<int>, n: nat) returns (i: nat)
    requires |free| == 32 && n <= 32 && FreeMeasure(free, n) > 0
    ensures i < n && free[i] >= 0
  {
    i := n - 1;
    if free[i] < 0 {
      i := FreeLevel(free, n - 1);
    }
  }

  lemma {:induction false} NothingCovers()
    ensures !Covers([])
  {
    assert !Found([], 0);
  }

  lemma {:induction false} BuiltMeasure(t: Tables, lens: seq<nat>, i: nat, leaves: seq<Leaf>)
    requires LengthsOk(lens) && Built(t, lens, i, leaves)
    ensures Blocks(leaves) && Measure(leaves) == KraftSum(lens[..i])
    ensures leaves == [] ==> KraftSum(lens[..i]) == 0
  {
  }

  lemma {:induction false} PoolMeasure(free: seq<int>, leaves: seq<Leaf>)
    requires Pool(free, leaves)
    ensures Measure(leaves) <= TWO_32
  {
  }

  lemma {:induction false} FirstLeaf(d: nat)
    requires 1 <= d <= MAX_LEN
    ensures Pool(Split(Root(), 0, d), [Leaf(0, d)]) && LowestUnused([], Leaf(0, d))
    ensures Reversed(0) == 0 && [] + [Leaf(0, d)] == [Leaf(0, d)]
  {
    ReversedZero();
    hide Reversed, LowestUnused, Pool;
    RootPool();
    var root := Root();
    assert Deepest(root, 0, d) && root[0] == 0;
    SplitPool(root, [], 0, d);
    assert [] + [Leaf(0, d)] == [Leaf(0, d)];
  }

  lemma {:induction false} ReversedZero()
    ensures Reversed(0) == 0
  {
    RevZero(WORD_BITS);
  }

  lemma {:induction false} AppendCanonical(leaves: seq<Leaf>, l: Leaf)
    requires Canonical(leaves) && LowestUnused(leaves, l)
    ensures Canonical(leaves + [l])
  {
    var all := leaves + [l];
    forall k | 0 <= k < |all| ensures LowestUnused(all[..k], all[k]) {
      assert all[..k] == if k < |leaves| then leaves[..k] else leaves;
      assert k < |leaves| ==> LowestUnused(leaves[..k], leaves[k]);
    }
  }
}
