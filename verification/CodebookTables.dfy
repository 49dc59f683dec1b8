/** The codewords of a codebook sorted by address. */
module CodebookTables {
  import opened Bits
  import opened HuffmanCode
  import opened Codebooks

  // ---------------------------------------------------------------------------------------------
  // Sorting and searching addresses

  ghost predicate Increasing(s: seq<nat>) {
    forall i, j :: 0 <= i < j < |s| ==> s[i] < s[j]
  }

  ghost predicate Distinct(s: seq<nat>) {
    forall i, j :: 0 <= i < j < |s| ==> s[i] != s[j]
  }

  /** Stands for the library's qsort: an increasing arrangement of distinct words. */
  method SortWords(a: seq<nat>) returns (b: seq<nat>)
    requires Distinct(a)
    ensures Increasing(b) && |b| == |a|
    ensures forall v :: v in b <==> v in a
  {
    b := [];
    for n := 0 to |a|
      invariant Increasing(b) && |b| == n
      invariant forall v :: v in b <==> v in a[..n]
    {
      var i := 0;
      while i < |b| && b[i] < a[n]
        invariant 0 <= i <= |b| && forall j :: 0 <= j < i ==> b[j] < a[n]
      {
        i := i + 1;
      }
      assert a[n] !in a[..n];
      assert a[..n + 1] == a[..n] + [a[n]];
      InsertedAt(b, i, a[n]);
      b := b[..i] + [a[n]] + b[i..];
    }
    assert a[..|a|] == a;
  }

  lemma {:induction false} InsertedAt(b: seq<nat>, i: nat, x: nat)
    requires Increasing(b) && i <= |b| && (forall j :: 0 <= j < i ==> b[j] < x) && (i < |b| ==> x < b[i])
    ensures var now := b[..i] + [x] + b[i..]; Increasing(now) && forall v :: v in now <==> v in b || v == x
  {
    assert b == b[..i] + b[i..];
  }

  /** The last of the first n words that is at most code; 0 when there is none. */
  ghost function LastAtMost(sorted: seq<nat>, n: nat, code: nat): (x: nat)
    requires n <= |sorted|
    ensures n > 0 ==> x < n && (x > 0 ==> sorted[x] <= code) && (x + 1 < n ==> code < sorted[x + 1])
  {
    if n <= 1 then 0 else if sorted[n - 1] <= code then n - 1 else LastAtMost(sorted, n - 1, code)
  }

  lemma {:induction false} LastIs(sorted: seq<nat>, n: nat, code: nat, x: nat)
    requires n <= |sorted| && Increasing(sorted[..n]) && (if n > 0 then x < n else x == 0)
    requires n > 0 ==> (x > 0 ==> sorted[x] <= code) && (x + 1 < n ==> code < sorted[x + 1])
    ensures x == LastAtMost(sorted, n, code)
  {
    var y := LastAtMost(sorted, n, code);
  }

  method SearchSorted(sorted: seq<nat>, n0: nat, code: nat) returns (x: nat)
    requires n0 <= |sorted| && Increasing(sorted[..n0])
    ensures x == LastAtMost(sorted, n0, code)
  {
    x := 0;
    var n := n0;
    while n > 1
      invariant 0 <= n <= n0 && x + n <= n0 && (n0 > 0 ==> n > 0)
      invariant x > 0 ==> sorted[x] <= code
      invariant x + n < n0 ==> code < sorted[x + n]
      invariant n0 == 0 ==> x == 0
    {
      var m := x + n / 2;
      if sorted[m] <= code {
        x := m;
        n := n - n / 2;
      } else {
        n := n / 2;
      }
    }
    LastIs(sorted, n0, code, x);
  }

  lemma {:induction false} SearchFinds(sorted: seq<nat>, n: nat, code: nat, x: nat, y: nat)
    requires n <= |sorted| && Increasing(sorted[..n]) && x < n && y < n
    requires (x > 0 ==> sorted[x] <= code) && (x + 1 < n ==> code < sorted[x + 1])
    requires sorted[y] <= code && (y + 1 < n ==> code < sorted[y + 1])
    ensures x == y
  {
  }

  // ---------------------------------------------------------------------------------------------
  // The sorted table

  predicate InSort(sparse: bool, len: nat) {
    sparse || (len != NO_CODE && len > FAST_HUFFMAN_LENGTH)
  }

  /** Addresses of the codewords that go into the sorted table, in symbol order. */
  ghost function SortAddrs(sparse: bool, leaves: seq<Leaf>): (a: seq<nat>)
    ensures |a| <= |leaves|
    ensures
      forall v :: v in a <==> exists k :: 0 <= k < |leaves| && InSort(sparse, leaves[k].len) && leaves[k].addr == v
  {
    if leaves == [] then []
    else
      var n := |leaves| - 1;
      SortAddrs(sparse, leaves[..n]) + if InSort(sparse, leaves[n].len) then [leaves[n].addr] else []
  }

  lemma {:induction false} AddrsDistinct(sparse: bool, leaves: seq<Leaf>)
    requires Blocks(leaves) && PrefixFree(leaves)
    ensures Distinct(SortAddrs(sparse, leaves))
  {
    if leaves != [] {
      var n := |leaves| - 1;
      AddrsDistinct(sparse, leaves[..n]);
      var a := SortAddrs(sparse, leaves[..n]);
      forall i | 0 <= i < |a| ensures a[i] != leaves[n].addr {
        assert a[i] in a;
        var k :| 0 <= k < n && leaves[..n][k].addr == a[i];
        assert Apart(leaves[k], leaves[n]);
      }
    }
  }

  /** Row x of the sorted table belongs to symbol and its codeword l. */
  ghost predicate SortedRow(t: SortedTable, x: nat, symbol: nat, l: Leaf) {
    && x < |t.sorted| && t.sorted[x] == l.addr
    && x + 1 < |t.values| && t.values[x + 1] == symbol
    && (t.sparse ==> x < |t.lengths| && t.lengths[x] == l.len)
  }

  datatype SortedTable = SortedTable(sparse: bool, sorted: seq<nat>, values: seq<int>, lengths: seq<nat>)

  /** The rows of the first m codewords are filled in. */
  ghost predicate Filled(t: SortedTable, syms: seq<nat>, leaves: seq<Leaf>, m: nat)
    requires m <= |leaves| == |syms|
  {
    forall k, x :: 0 <= k < m && 0 <= x < |t.sorted| && InSort(t.sparse, leaves[k].len) && t.sorted[x] == leaves[k].addr
      ==> SortedRow(t, x, syms[k], leaves[k])
  }

  ghost predicate SortedShape(t: SortedTable, leaves: seq<Leaf>) {
    && Increasing(t.sorted)
    && (forall v :: v in t.sorted <==> v in SortAddrs(t.sparse, leaves))
    && |t.values| == |t.sorted| + 1 && t.values[0] == -1
    && (t.sparse ==> |t.lengths| == |t.sorted|)
  }

  lemma {:induction false} FillStep(t: SortedTable, t': SortedTable, syms: seq<nat>, leaves: seq<Leaf>, m: nat, x: nat)
    requires Blocks(leaves) && PrefixFree(leaves) && m < |leaves| == |syms| && Filled(t, syms, leaves, m)
    requires SortedShape(t, leaves) && x < |t.sorted| && t.sorted[x] == leaves[m].addr
    requires t' == t.(values := t.values[x + 1 := syms[m]],
                      lengths := if t.sparse then t.lengths[x := leaves[m].len] else t.lengths)
    ensures Filled(t', syms, leaves, m + 1) && SortedShape(t', leaves)
  {
    hide SortAddrs, Width;
    forall k, y | 0 <= k < m + 1 && 0 <= y < |t'.sorted| && InSort(t.sparse,
                                                                   leaves[k].len) && t'.sorted[y] == leaves[k].addr
      ensures SortedRow(t', y, syms[k], leaves[k])
    {
      if k < m {
        assert Apart(leaves[k], leaves[m]);
        assert SortedRow(t, y, syms[k], leaves[k]);
      }
    }
  }

  lemma {:induction false} FillSkip(t: SortedTable, syms: seq<nat>, leaves: seq<Leaf>, m: nat)
    requires m < |leaves| == |syms| && Filled(t, syms, leaves, m) && !InSort(t.sparse, leaves[m].len)
    ensures Filled(t, syms, leaves, m + 1)
  {
  }

  // ---------------------------------------------------------------------------------------------
  // Row by row through the tables of compute_codewords

  /** The coded symbol i is the next one after the coded symbols below it. */
  lemma {:induction false} RankOf(t: Tables, lens: seq<nat>, i: nat, leaves: seq<Leaf>) returns (k: nat)
    requires LengthsOk(lens) && Built(t, lens, |lens|, leaves) && i < |lens|
    ensures k == |Coded(lens[..i])| <= |leaves| == |Coded(lens)| && (lens[i] == NO_CODE ==> |Coded(lens[..i + 1])| == k)
    ensures lens[i] != NO_CODE ==>
      && k < |leaves| && |Coded(lens[..i + 1])| == k + 1
      && Coded(lens)[k] == i && leaves[k].len == lens[i] && StoredAt(t, k, i, leaves[k])
  {
    hide Canonical, StoredAt;
    assert lens[..|lens|] == lens;
    CodedNext(lens, i);
    CodedPrefix(lens, i);
    CodedPrefix(lens, i + 1);
    k := |Coded(lens[..i])|;
  }

  lemma {:induction false} RowsComplete(t: Tables, lens: seq<nat>, leaves: seq<Leaf>)
    requires LengthsOk(lens) && Built(t, lens, |lens|, leaves)
    ensures |leaves| == |Coded(lens)| && Blocks(leaves) && PrefixFree(leaves)
    ensures forall k ::
      0 <= k < |leaves| ==> leaves[k].len == lens[Coded(lens)[k]] && StoredAt(t, k, Coded(lens)[k], leaves[k])
  {
    CanonicalPrefixFree(leaves);
    hide StoredAt, Canonical;
    assert lens[..|lens|] == lens;
  }

  // ---------------------------------------------------------------------------------------------
  // Building the sorted table

  ghost function SortedTableOf(c: Codebook, sorted: seq<nat>): SortedTable
    reads c
  {
    SortedTable(c.sparse, sorted, c.sortedValues, c.codewordLengths)
  }

  /** What compute_sorted_huffman leaves behind; the word past the end is a sentinel. */
  ghost predicate SortedBuilt(c: Codebook, syms: seq<nat>, leaves: seq<Leaf>)
    requires |syms| == |leaves|
    reads c
  {
    c.sortedCodewords.To? && SortedIn(c.sortedCodewords.value, c.sortedEntries, SortedTableOf(c, []), syms, leaves)
  }

  ghost predicate SortedIn(words: seq<nat>, n: nat, rest: SortedTable, syms: seq<nat>, leaves: seq<Leaf>)
    requires |syms| == |leaves|
  {
    && |words| == n + 1 && words[n] == 0xFFFF_FFFF
    && SortedShape(rest.(sorted := words[..n]), leaves)
    && Filled(rest.(sorted := words[..n]), syms, leaves, |leaves|)
  }

  lemma {:induction false} AddrsStep(sparse: bool, leaves: seq<Leaf>, k: nat)
    requires k < |leaves|
    ensures SortAddrs(sparse, leaves[..k + 1])
         == SortAddrs(sparse, leaves[..k]) + if InSort(sparse, leaves[k].len) then [leaves[k].addr] else []
  {
    assert leaves[..k + 1][..k] == leaves[..k];
  }

  /** Row row of the codewords holds the codeword of leaves[k]. */
  ghost predicate CodeRow(t: Tables, leaves: seq<Leaf>, row: nat, k: nat) {
    && k < |leaves| && IsBlock(leaves[k])
    && row < |t.codewords| && t.codewords[row] == Reversed(leaves[k].addr)
    && row < |t.lengths| && t.lengths[row] == leaves[k].len
  }

  method RowAddr(ghost t: Tables, ghost leaves: seq<Leaf>, row: nat, ghost k: nat, code: nat) returns (addr: nat)
    requires CodeRow(t, leaves, row, k) && code == t.codewords[row]
    ensures addr == leaves[k].addr
  {
    ReversedTwice(leaves[k].addr);
    addr := BitReverse(code);
  }

  /** In a book that is not sparse, the row of symbol i is its own. */
  lemma {:induction false} SymbolRow(t: Tables, lens: seq<nat>, i: nat, leaves: seq<Leaf>) returns (k: nat)
    requires LengthsOk(lens) && Built(t, lens, |lens|, leaves) && i < |lens| && !t.sparse
    ensures k == |Coded(lens[..i])| <= |leaves| == |Coded(lens)| && (lens[i] == NO_CODE ==> |Coded(lens[..i + 1])| == k)
    ensures lens[i] != NO_CODE ==>
      CodeRow(t, leaves, i, k) && |Coded(lens[..i + 1])| == k + 1 && Coded(lens)[k] == i && leaves[k].len == lens[i]
  {
    k := RankOf(t, lens, i, leaves);
    RowsComplete(t, lens, leaves);
  }

  /** In a sparse book, row k is that of the k-th coded symbol. */
  lemma {:induction false} SparseRow(t: Tables, lens: seq<nat>, k: nat, leaves: seq<Leaf>)
    requires LengthsOk(lens) && Built(t, lens, |lens|, leaves) && k < |leaves| && t.sparse
    ensures CodeRow(t, leaves, k, k) && k < |t.values| && |leaves| == |Coded(lens)| && t.values[k] == Coded(lens)[k]
    ensures leaves[k].len == lens[Coded(lens)[k]]
  {
    RowsComplete(t, lens, leaves);
    assert StoredAt(t, k, Coded(lens)[k], leaves[k]);
  }

  /** The addresses to sort, reversed back out of the codewords. */
  method CollectAddrs(c: Codebook, lengths: seq<nat>, values: seq<nat>, ghost leaves: seq<Leaf>)
    returns (addrs: seq<nat>)
    requires LengthsOk(lengths) && c.codewords.To? && Built(c.TablesWith(values), lengths, |lengths|, leaves)
    ensures addrs == SortAddrs(c.sparse, leaves)
  {
    hide Built, LengthsOk, Reversed, SortAddrs, IsBlock;
    ghost var t := c.TablesWith(values);
    TablesSized(t, lengths, leaves);
    addrs := [];
    AddrsNone(c.sparse, leaves);
    if !c.sparse {
      ghost var k := 0;
      for i := 0 to |lengths|
        invariant k == |Coded(lengths[..i])| <= |leaves|
        invariant addrs == SortAddrs(false, leaves[..k])
      {
        ghost var r := SymbolRow(t, lengths, i, leaves);
        if lengths[i] != NO_CODE {
          AddrsStep(false, leaves, k);
          if InSort(false, lengths[i]) {
            var addr := RowAddr(t, leaves, i, k, c.codewords.value[i]);
            addrs := addrs + [addr];
          }
          k := k + 1;
        }
      }
      assert lengths[..|lengths|] == lengths;
    } else {
      for i := 0 to |c.codewords.value|
        invariant addrs == SortAddrs(true, leaves[..i])
      {
        SparseRow(t, lengths, i, leaves);
        AddrsStep(true, leaves, i);
        var addr := RowAddr(t, leaves, i, i, c.codewords.value[i]);
        addrs := addrs + [addr];
      }
    }
    assert leaves[..|leaves|] == leaves;
  }

  lemma {:induction false} AllSorted(leaves: seq<Leaf>)
    ensures |SortAddrs(true, leaves)| == |leaves|
  {
    if leaves != [] {
      AllSorted(leaves[..|leaves| - 1]);
    }
  }

  lemma {:induction false} AddrsNone(sparse: bool, leaves: seq<Leaf>)
    ensures SortAddrs(sparse, leaves[..0]) == []
  {
  }

  lemma {:induction false} TablesSized(t: Tables, lens: seq<nat>, leaves: seq<Leaf>)
    requires LengthsOk(lens) && Built(t, lens, |lens|, leaves)
    ensures if t.sparse then |t.codewords| == |t.lengths| == |t.values| == |leaves|
            else |t.codewords| == |lens| && t.lengths == lens
    ensures |leaves| == |Coded(lens)|
  {
    assert lens[..|lens|] == lens;
  }

  ghost predicate Sorting(c: Codebook, syms: seq<nat>, leaves: seq<Leaf>, m: nat)
    requires |syms| == |leaves|
    reads c
  {
    && c.sortedCodewords.To? && |c.sortedCodewords.value| == c.sortedEntries + 1 && m <= |leaves|
    && SortedShape(SortedTableOf(c, c.sortedCodewords.value[..c.sortedEntries]), leaves)
    && Filled(SortedTableOf(c, c.sortedCodewords.value[..c.sortedEntries]), syms, leaves, m)
  }

  lemma {:induction false} SortSkip(c: Codebook, syms: seq<nat>, leaves: seq<Leaf>, m: nat)
    requires |syms| == |leaves| && m < |leaves| && Sorting(c, syms, leaves, m) && !InSort(c.sparse, leaves[m].len)
    ensures Sorting(c, syms, leaves, m + 1)
  {
    FillSkip(SortedTableOf(c, c.sortedCodewords.value[..c.sortedEntries]), syms, leaves, m);
  }

  lemma {:induction false} AddrSorted(t: SortedTable, leaves: seq<Leaf>, k: nat) returns (x: nat)
    requires SortedShape(t, leaves) && k < |leaves| && InSort(t.sparse, leaves[k].len)
    ensures x < |t.sorted| && t.sorted[x] == leaves[k].addr
  {
    assert leaves[k].addr in SortAddrs(t.sparse, leaves);
    x :| 0 <= x < |t.sorted| && t.sorted[x] == leaves[k].addr;
  }

  /** Finds where a codeword went and notes its symbol there. */
  method PlaceRow(c: Codebook, code: nat, symbol: nat, len: nat, ghost syms: seq<nat>, ghost leaves: seq<Leaf>,
                  ghost m: nat)
    requires |syms| == |leaves| && m < |leaves| && Blocks(leaves) && PrefixFree(leaves)
    requires Sorting(c, syms, leaves, m) && InSort(c.sparse, len)
    requires leaves[m] == Leaf(code, len) && syms[m] == symbol
    modifies c`sortedValues, c`codewordLengths
    ensures Sorting(c, syms, leaves, m + 1)
    ensures !c.sparse ==> c.codewordLengths == old(c.codewordLengths)
  {
    ghost var t := SortedTableOf(c, c.sortedCodewords.value[..c.sortedEntries]);
    ghost var y := AddrSorted(t, leaves, m);
    hide Filled, Blocks, PrefixFree, SortAddrs;
    assert Increasing(t.sorted);
    var x := SearchSorted(c.sortedCodewords.value, c.sortedEntries, code);
    SearchFinds(c.sortedCodewords.value, c.sortedEntries, code, x, y);
    assert c.sortedCodewords.value[x] == code;
    FillStep(t, t.(values := t.values[x + 1 := symbol], lengths := if t.sparse then t.lengths[x := len] else t.lengths),
             syms, leaves, m, x);
    c.sortedValues := c.sortedValues[x + 1 := symbol];
    if c.sparse {
      c.codewordLengths := c.codewordLengths[x := len];
    }
  }

  method ComputeSortedHuffman(c: Codebook, lengths: seq<nat>, values: seq<nat>, ghost leaves: seq<Leaf>)
    requires LengthsOk(lengths) && c.codewords.To? && Built(c.TablesWith(values), lengths, |lengths|, leaves)
    requires c.sortedEntries == |SortAddrs(c.sparse, leaves)| == |c.sortedValues| - 1 && c.sortedValues[0] == -1
    modifies c`sortedCodewords, c`sortedValues, c`codewordLengths
    ensures |leaves| == |Coded(lengths)| && SortedBuilt(c, Coded(lengths), leaves)
    ensures !c.sparse ==> c.codewordLengths == old(c.codewordLengths)
  {
    hide Built, LengthsOk, Reversed, SortAddrs, IsBlock, PrefixFree, Canonical;
    ghost var t, syms := c.TablesWith(values), Coded(lengths);
    RowsComplete(t, lengths, leaves);
    TablesSized(t, lengths, leaves);
    var addrs := CollectAddrs(c, lengths, values, leaves);
    AddrsDistinct(c.sparse, leaves);
    var sorted := SortWords(addrs);
    c.sortedCodewords := To(sorted + [0xFFFF_FFFF]);
    assert c.sortedCodewords.value[..c.sortedEntries] == sorted;
    AllSorted(leaves);
    if c.sparse {
      PlaceSparse(c, lengths, values, leaves);
    } else {
      PlaceSymbols(c, lengths, values, leaves);
    }
  }

  /** Row by row in a sparse book ... */
  method PlaceSparse(c: Codebook, lengths: seq<nat>, values: seq<nat>, ghost leaves: seq<Leaf>)
    requires
      LengthsOk(lengths) && c.codewords.To? && Built(c.TablesWith(values), lengths, |lengths|, leaves) && c.sparse
    requires
      |leaves| == |Coded(lengths)| && Blocks(leaves) && PrefixFree(leaves) && Sorting(c, Coded(lengths), leaves, 0)
    modifies c`sortedValues, c`codewordLengths
    ensures Sorting(c, Coded(lengths), leaves, |leaves|)
  {
    hide Built, LengthsOk, Reversed, IsBlock, PrefixFree, Canonical, Sorting;
    ghost var t, syms := c.TablesWith(values), Coded(lengths);
    TablesSized(t, lengths, leaves);
    for i := 0 to |c.codewords.value|
      invariant Sorting(c, syms, leaves, i)
    {
      SparseRow(t, lengths, i, leaves);
      var code := RowAddr(t, leaves, i, i, c.codewords.value[i]);
      PlaceRow(c, code, values[i], lengths[values[i]], syms, leaves, i);
    }
  }

  /** ... and symbol by symbol in any other, where short codewords are left to the fast table. */
  method PlaceSymbols(c: Codebook, lengths: seq<nat>, values: seq<nat>, ghost leaves: seq<Leaf>)
    requires
      LengthsOk(lengths) && c.codewords.To? && Built(c.TablesWith(values), lengths, |lengths|, leaves) && !c.sparse
    requires
      |leaves| == |Coded(lengths)| && Blocks(leaves) && PrefixFree(leaves) && Sorting(c, Coded(lengths), leaves, 0)
    modifies c`sortedValues, c`codewordLengths
    ensures Sorting(c, Coded(lengths), leaves, |leaves|) && c.codewordLengths == old(c.codewordLengths)
  {
    hide Built, LengthsOk, Reversed, IsBlock, PrefixFree, Canonical, Sorting;
    ghost var t, syms, k := c.TablesWith(values), Coded(lengths), 0;
    TablesSized(t, lengths, leaves);
    for i := 0 to |lengths|
      invariant k == |Coded(lengths[..i])| <= |leaves| && Sorting(c, syms, leaves, k)
      invariant c.codewordLengths == old(c.codewordLengths)
    {
      ghost var r := SymbolRow(t, lengths, i, leaves);
      if InSort(false, lengths[i]) {
        var code := RowAddr(t, leaves, i, k, c.codewords.value[i]);
        PlaceRow(c, code, i, lengths[i], syms, leaves, k);
        k := k + 1;
      } else if lengths[i] != NO_CODE {
        SortSkip(c, syms, leaves, k);
        k := k + 1;
      }
    }
    assert lengths[..|lengths|] == lengths;
  }
}
