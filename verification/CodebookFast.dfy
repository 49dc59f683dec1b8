/** The table for the next ten bits, and the set-up of a codebook. */
module CodebookFast {
  import opened Bits
  import opened HuffmanCode
  import opened Codebooks
  import opened CodebookTables

  /** The finished code tables: every coded symbol's codeword can be found where the decoder looks for it. */
  ghost predicate Ready(c: Codebook, lens: seq<nat>, leaves: seq<Leaf>)
    reads c
  {
    && c.entries == |lens| && |leaves| == |Coded(lens)| && UsableCode(lens, leaves)
    && c.sortedEntries == |SortAddrs(c.sparse, leaves)|
    && (if c.sortedEntries > 0 then SortedBuilt(c, Coded(lens), leaves) else c.sortedCodewords.Null?)
    && if c.sparse then c.codewords.Null?
       else c.codewords.To? && |c.codewords.value| == |lens| && c.codewordLengths == lens && SymbolRows(
           c.codewords.value, lens, leaves)
  }

  ghost predicate UsableCode(lens: seq<nat>, leaves: seq<Leaf>)
    requires |leaves| == |Coded(lens)|
  {
    && Blocks(leaves) && PrefixFree(leaves)
    && forall k :: 0 <= k < |leaves| ==> leaves[k].len == lens[Coded(lens)[k]] && leaves[k].len > 0
  }

  ghost predicate SymbolRows(codewords: seq<nat>, lens: seq<nat>, leaves: seq<Leaf>)
    requires |codewords| == |lens| && |leaves| == |Coded(lens)|
  {
    forall k :: 0 <= k < |leaves| ==> codewords[Coded(lens)[k]] == Reversed(leaves[k].addr)
  }

  /** The decoder's index for leaves[k]: its symbol, or in a sparse book its place in the sorted table. */
  ghost predicate IndexOf(c: Codebook, lens: seq<nat>, leaves: seq<Leaf>, index: nat, k: nat)
    requires |leaves| == |Coded(lens)|
    reads c
  {
    && k < |leaves|
    && if c.sparse then
         c.sortedCodewords.To? && index < c.sortedEntries < |c.sortedCodewords.value|
         && c.sortedCodewords.value[index] == leaves[k].addr
       else index == Coded(lens)[k]
  }

  /** The lengths at the decoder's index, and in a sparse book the symbol there. */
  lemma {:induction false} IndexRow(c: Codebook, lens: seq<nat>, leaves: seq<Leaf>, index: nat, k: nat)
    requires Ready(c, lens, leaves) && IndexOf(c, lens, leaves, index, k)
    ensures index < |c.codewordLengths| && c.codewordLengths[index] == leaves[k].len
    ensures c.sparse ==> index + 1 < |c.sortedValues| && c.sortedValues[index + 1] == Coded(lens)[k]
  {
    hide SortAddrs, IsBlock, Width;
    if c.sparse {
      var t := SortedTableOf(c, c.sortedCodewords.value[..c.sortedEntries]);
      assert t.sorted[index] == leaves[k].addr;
      assert SortedRow(t, index, Coded(lens)[k], leaves[k]);
    }
  }

  lemma {:induction false} IndexUnique(c: Codebook, lens: seq<nat>, leaves: seq<Leaf>, i: nat, j: nat, k: nat)
    requires Ready(c, lens, leaves) && IndexOf(c, lens, leaves, i, k) && IndexOf(c, lens, leaves, j, k)
    ensures i == j
  {
    hide SortAddrs, IsBlock, Width;
    if c.sparse {
      var t := SortedTableOf(c, c.sortedCodewords.value[..c.sortedEntries]);
      assert Increasing(t.sorted) && t.sorted[i] == t.sorted[j];
    }
  }

  /** Every codeword has an index. */
  lemma {:induction false} IndexExists(c: Codebook, lens: seq<nat>, leaves: seq<Leaf>, k: nat) returns (index: nat)
    requires Ready(c, lens, leaves) && k < |leaves|
    ensures IndexOf(c, lens, leaves, index, k)
  {
    if c.sparse {
      assert leaves[k].addr in SortAddrs(true, leaves);
      hide SortAddrs, IsBlock, Width;
      index := AddrSorted(SortedTableOf(c, c.sortedCodewords.value[..c.sortedEntries]), leaves, k);
    } else {
      index := Coded(lens)[k];
    }
  }

  /** In a sparse book, every place in the sorted table is an index. */
  lemma {:induction false} SparseIndex(c: Codebook, lens: seq<nat>, leaves: seq<Leaf>, index: nat) returns (k: nat)
    requires Ready(c, lens, leaves) && c.sparse && index < c.sortedEntries
    ensures IndexOf(c, lens, leaves, index, k)
  {
    var t := SortedTableOf(c, c.sortedCodewords.value[..c.sortedEntries]);
    assert t.sorted[index] in t.sorted;
    k :| 0 <= k < |leaves| && InSort(true, leaves[k].len) && leaves[k].addr == t.sorted[index];
  }

  /** In any other book, every symbol that has a codeword is one. */
  lemma {:induction false} SymbolIndex(c: Codebook, lens: seq<nat>, leaves: seq<Leaf>, symbol: nat) returns (k: nat)
    requires Ready(c, lens, leaves) && !c.sparse && symbol < |lens| && lens[symbol] != NO_CODE
    ensures IndexOf(c, lens, leaves, symbol, k) && c.codewords.value[symbol] == Reversed(leaves[k].addr)
  {
    CodedNext(lens, symbol);
    CodedPrefix(lens, symbol);
    CodedPrefix(lens, symbol + 1);
    k := |Coded(lens[..symbol])|;
  }

  /** The word w starts with the short codeword at the decoder's index. */
  ghost predicate Hit(c: Codebook, lens: seq<nat>, leaves: seq<Leaf>, index: nat, w: nat)
    requires |leaves| == |Coded(lens)|
    reads c
  {
    exists k :: HitBy(c, lens, leaves, index, w, k)
  }

  ghost predicate HitBy(c: Codebook, lens: seq<nat>, leaves: seq<Leaf>, index: nat, w: nat, k: nat)
    requires |leaves| == |Coded(lens)|
    reads c
  {
    IndexOf(c, lens, leaves, index, k) && leaves[k].len <= FAST_HUFFMAN_LENGTH && Matches(leaves[k], w)
  }

  lemma {:induction false} HitUnique(c: Codebook, lens: seq<nat>, leaves: seq<Leaf>, i: nat, j: nat, w: nat)
    requires Ready(c, lens, leaves) && Hit(c, lens, leaves, i, w) && Hit(c, lens, leaves, j, w) && w < TWO_32
    ensures i == j
  {
    var k :| HitBy(c, lens, leaves, i, w, k);
    var q :| HitBy(c, lens, leaves, j, w, q);
    hide Matches;
    MatchUnique(leaves, k, q, w);
    IndexUnique(c, lens, leaves, i, j, k);
  }

  /** The fast table knows the short codewords among the first n indices, and nothing else. */
  ghost predicate FastKnows(c: Codebook, lens: seq<nat>, leaves: seq<Leaf>, fast: seq<int>, n: nat)
    requires |leaves| == |Coded(lens)| && |fast| == FAST_HUFFMAN_TABLE_SIZE
    reads c
  {
    forall w :: 0 <= w < FAST_HUFFMAN_TABLE_SIZE ==> FastAt(c, lens, leaves, fast[w], n, w)
  }

  ghost predicate FastAt(c: Codebook, lens: seq<nat>, leaves: seq<Leaf>, entry: int, n: nat, w: nat)
    requires |leaves| == |Coded(lens)|
    reads c
  {
    && (entry == -1 || (0 <= entry < n && Hit(c, lens, leaves, entry, w)))
    && forall index :: 0 <= index < n && Hit(c, lens, leaves, index, w) ==> entry == index
  }

  // ---------------------------------------------------------------------------------------------

  lemma {:induction false} LowPeriod(z: nat, n: nat)
    ensures Low(z + Pow2(n), n) == Low(z, n)
    decreases n
  {
    if n > 0 {
      LowPeriod(z / 2, n - 1);
      assert (z + Pow2(n)) / 2 == z / 2 + Pow2(n - 1) && (z + Pow2(n)) % 2 == z % 2;
    }
  }

  lemma {:induction false} LowSpacing(z: nat, w: nat, n: nat)
    requires z < w < z + Pow2(n)
    ensures Low(w, n) != Low(z, n)
    decreases n
  {
    if n > 0 && z % 2 == w % 2 {
      LowSpacing(z / 2, w / 2, n - 1);
    }
  }

  lemma {:induction false} LowSmall(z: nat, n: nat)
    requires z < Pow2(n)
    ensures Low(z, n) == z
    decreases n
  {
    if n > 0 {
      LowSmall(z / 2, n - 1);
    }
  }

  /** Enters index at every word that ends in the code. */
  method MarkFast(fast: array<int>, code: nat, len: nat, index: int)
    requires fast.Length == FAST_HUFFMAN_TABLE_SIZE && code < Pow2(len)
    modifies fast
    ensures
      forall w :: 0 <= w < FAST_HUFFMAN_TABLE_SIZE ==> fast[w] == if Low(w, len) == code then index else old(fast[w])
  {
    var z := code;
    LowSmall(code, len);
    forall w: nat | w < code ensures Low(w, len) != code {
      LowSmall(w, len);
    }
    while z < FAST_HUFFMAN_TABLE_SIZE
      invariant Low(z, len) == code
      invariant forall w :: 0 <= w < FAST_HUFFMAN_TABLE_SIZE ==>
        fast[w] == if w < z && Low(w, len) == code then index else old(fast[w])
      invariant forall w :: 0 <= w < z && Low(w, len) == code ==> w + Pow2(len) <= z
    {
      fast[z] := index;
      forall w | z < w < z + Pow2(len) ensures Low(w, len) != code {
        LowSpacing(z, w, len);
      }
      LowPeriod(z, len);
      z := z + Pow2(len);
    }
  }

  /** Index n, with this code and length, is the one the table learns next. */
  lemma {:induction false} FastStep(c: Codebook, lens: seq<nat>, leaves: seq<Leaf>, fast: seq<int>, fast': seq<int>,
                                    n: nat, k: nat)
    requires Ready(c, lens, leaves) && |fast| == |fast'| == FAST_HUFFMAN_TABLE_SIZE
    requires FastKnows(c, lens, leaves, fast, n) && IndexOf(c, lens, leaves, n, k)
    requires forall w :: 0 <= w < FAST_HUFFMAN_TABLE_SIZE ==>
      fast'[w] == if leaves[k].len <= FAST_HUFFMAN_LENGTH && Matches(leaves[k], w) then n else fast[w]
    ensures FastKnows(c, lens, leaves, fast', n + 1)
  {
    forall w | 0 <= w < FAST_HUFFMAN_TABLE_SIZE ensures FastAt(c, lens, leaves, fast'[w], n + 1, w) {
      assert FastAt(c, lens, leaves, fast[w], n, w);
      hide Ready, Matches;
      if HitBy(c, lens, leaves, n, w, k) {
        assert Hit(c, lens, leaves, n, w);
      }
      if Hit(c, lens, leaves, n, w) {
        HitSame(c, lens, leaves, n, w, k);
      }
      forall index | 0 <= index < n + 1 && Hit(c, lens, leaves, index, w) ensures fast'[w] == index {
        if Hit(c, lens, leaves, n, w) {
          HitUnique(c, lens, leaves, index, n, w);
        }
      }
    }
  }

  lemma {:induction false} HitSame(c: Codebook, lens: seq<nat>, leaves: seq<Leaf>, index: nat, w: nat, k: nat)
    requires Ready(c, lens, leaves) && IndexOf(c, lens, leaves, index, k) && Hit(c, lens, leaves, index, w)
    ensures HitBy(c, lens, leaves, index, w, k)
  {
    var q: nat :| HitBy(c, lens, leaves, index, w, q);
    assert Blocks(leaves);
  }

  lemma {:induction false} FastSkip(c: Codebook, lens: seq<nat>, leaves: seq<Leaf>, fast: seq<int>, n: nat)
    requires Ready(c, lens, leaves) && |fast| == FAST_HUFFMAN_TABLE_SIZE && FastKnows(c, lens, leaves, fast, n)
    requires !c.sparse && n < |lens| && lens[n] == NO_CODE
    ensures FastKnows(c, lens, leaves, fast, n + 1)
  {
    forall w | 0 <= w < FAST_HUFFMAN_TABLE_SIZE ensures FastAt(c, lens, leaves, fast[w], n + 1, w) {
      assert FastAt(c, lens, leaves, fast[w], n, w);
      hide Matches;
    }
  }

  ghost function FastLimit(c: Codebook): nat
    reads c
  {
    var n := if c.sparse then c.sortedEntries else c.entries;
    if n > MAX_FAST_INDEX then MAX_FAST_INDEX else n
  }

  /** Which codeword index i has, and the code the table is marked with. */
  lemma {:induction false} FastCode(c: Codebook, lens: seq<nat>, leaves: seq<Leaf>, i: nat) returns (k: nat)
    requires Ready(c, lens, leaves) && i < (if c.sparse then c.sortedEntries else c.entries)
    ensures i < |c.codewordLengths|
    ensures !c.sparse ==> c.codewords.To? && i < |c.codewords.value| && i < |lens| && c.codewordLengths[i] == lens[i]
    ensures c.sparse ==> c.sortedCodewords.To? && i < |c.sortedCodewords.value|
    ensures c.sparse || lens[i] != NO_CODE ==> IndexOf(c, lens, leaves, i, k) && IsBlock(leaves[k])
    ensures
      c.sparse || lens[i] != NO_CODE ==> c.codewordLengths[i] == leaves[k].len <= MAX_LEN && leaves[k].addr < TWO_32
    ensures c.sparse ==> c.sortedCodewords.value[i] == leaves[k].addr
    ensures !c.sparse && lens[i] != NO_CODE ==> c.codewords.value[i] == Reversed(leaves[k].addr)
  {
    if c.sparse {
      k := SparseIndex(c, lens, leaves, i);
      IndexRow(c, lens, leaves, i, k);
    } else if lens[i] != NO_CODE {
      k := SymbolIndex(c, lens, leaves, i);
    } else {
      k := 0;
    }
  }

  method ComputeAcceleratedHuffman(c: Codebook, ghost lens: seq<nat>, ghost leaves: seq<Leaf>)
    requires Ready(c, lens, leaves) && c.fastHuffman.Length == FAST_HUFFMAN_TABLE_SIZE
    modifies c.fastHuffman
    ensures FastKnows(c, lens, leaves, c.fastHuffman[..], FastLimit(c))
  {
    assert |leaves| == |Coded(lens)|;
    hide Ready, Hit, Coded;
    var i := 0;
    while i < FAST_HUFFMAN_TABLE_SIZE
      invariant 0 <= i <= FAST_HUFFMAN_TABLE_SIZE && forall w :: 0 <= w < i ==> c.fastHuffman[w] == -1
    {
      c.fastHuffman[i] := -1;
      i := i + 1;
    }
    var len := if c.sparse then c.sortedEntries else c.entries;
    if len > MAX_FAST_INDEX {
      len := MAX_FAST_INDEX;
    }
    i := 0;
    assert FastKnows(c, lens, leaves, c.fastHuffman[..], 0);
    hide FastKnows;
    while i < len
      invariant 0 <= i <= len && FastKnows(c, lens, leaves, c.fastHuffman[..], i)
    {
      EnterIndex(c, i, lens, leaves);
      i := i + 1;
    }
  }

  method EnterIndex(c: Codebook, i: nat, ghost lens: seq<nat>, ghost leaves: seq<Leaf>)
    requires Ready(c, lens, leaves) && c.fastHuffman.Length == FAST_HUFFMAN_TABLE_SIZE
    requires i < (if c.sparse then c.sortedEntries else c.entries)
    requires FastKnows(c, lens, leaves, c.fastHuffman[..], i)
    modifies c.fastHuffman
    ensures FastKnows(c, lens, leaves, c.fastHuffman[..], i + 1)
  {
    ghost var k := FastCode(c, lens, leaves, i);
    ghost var before := c.fastHuffman[..];
    assert |leaves| == |Coded(lens)|;
    hide Ready, Reversed, Matches, IndexOf, IsBlock, Hit, Coded, FastKnows, SymbolRows;
    if c.codewordLengths[i] <= FAST_HUFFMAN_LENGTH {
      var z;
      if c.sparse {
        z := BitReverse(c.sortedCodewords.value[i]);
      } else {
        z := c.codewords.value[i];
      }
      MatchesIsInBlock(leaves[k], 0);
      MarkFast(c.fastHuffman, z, c.codewordLengths[i], i);
      MarkedMatches(leaves[k], z, before, c.fastHuffman[..], i);
    }
    if c.sparse || c.codewordLengths[i] != NO_CODE {
      FastStep(c, lens, leaves, before, c.fastHuffman[..], i, k);
    } else {
      assert c.fastHuffman[..] == before;
      FastSkip(c, lens, leaves, before, i);
    }
  }

  lemma {:induction false} MarkedMatches(l: Leaf, code: nat, before: seq<int>, after: seq<int>, index: int)
    requires l.len <= MAX_LEN && code == Reversed(l.addr) && |before| == |after| == FAST_HUFFMAN_TABLE_SIZE
    requires
      forall w :: 0 <= w < FAST_HUFFMAN_TABLE_SIZE ==> after[w] == if Low(w, l.len) == code then index else before[w]
    ensures forall w :: 0 <= w < FAST_HUFFMAN_TABLE_SIZE ==> after[w] == if Matches(l, w) then index else before[w]
  {
  }

  // ---------------------------------------------------------------------------------------------
  // Setting up a codebook from its codeword lengths

  function LongCount(lens: seq<nat>): nat {
    if lens == [] then 0
    else LongCount(lens[..|lens| - 1]) + if InSort(false, lens[|lens| - 1]) then 1 else 0
  }

  lemma {:induction false} LongSorted(lens: seq<nat>, leaves: seq<Leaf>)
    requires |leaves| == |Coded(lens)| && forall k :: 0 <= k < |leaves| ==> leaves[k].len == lens[Coded(lens)[k]]
    ensures |SortAddrs(false, leaves)| == LongCount(lens)
  {
    if lens != [] {
      var n := |lens| - 1;
      var init := if lens[n] == NO_CODE then leaves else leaves[..|leaves| - 1];
      forall k | 0 <= k < |init| ensures init[k].len == lens[..n][Coded(lens[..n])[k]] {
        assert init[k].len == lens[Coded(lens)[k]];
      }
      LongSorted(lens[..n], init);
    }
  }

  /** The code tables as they stand between compute_codewords and the sorted table. */
  lemma {:induction false} ReadyBase(c: Codebook, lens: seq<nat>, values: seq<nat>, leaves: seq<Leaf>)
    requires LengthsOk(lens) && c.codewords.To? && Built(c.TablesWith(values), lens, |lens|, leaves)
    requires c.sortedEntries == if c.sparse then |Coded(lens)| else LongCount(lens)
    ensures |leaves| == |Coded(lens)| && UsableCode(lens, leaves) && CodeFor(lens, leaves)
    ensures c.sortedEntries == |SortAddrs(c.sparse, leaves)|
    ensures !c.sparse ==>
      |c.codewords.value| == |lens| && c.codewordLengths == lens && SymbolRows(c.codewords.value, lens, leaves)
  {
    RowsComplete(c.TablesWith(values), lens, leaves);
    assert lens[..|lens|] == lens;
    hide Canonical, Blocks, PrefixFree, SortAddrs, LongCount;
    LongSorted(lens, leaves);
    AllSorted(leaves);
    forall k | 0 <= k < |leaves| ensures leaves[k].len > 0 {
      assert leaves[k].len == lens[Coded(lens)[k]];
    }
  }

  /** A sparse book with a quarter of its symbols coded becomes an ordinary one. */
  method ChooseTables(lengths: seq<nat>, sparse0: bool) returns (sparse: bool, sortedCount: nat)
    ensures sparse <==> sparse0 && |Coded(lengths)| < |lengths| / 4
    ensures sortedCount == if sparse then |Coded(lengths)| else LongCount(lengths)
  {
    sparse := sparse0;
    var total := 0;
    for j := 0 to |lengths|
      invariant total == |Coded(lengths[..j])|
    {
      CodedNext(lengths, j);
      if lengths[j] != NO_CODE {
        total := total + 1;
      }
    }
    assert lengths[..|lengths|] == lengths;
    if sparse && total >= |lengths| / 4 {
      sparse := false;
    }
    sortedCount := total;
    if !sparse {
      sortedCount := CountLong(lengths);
    }
  }

  /** All tables of the codebook belong to one code. */
  ghost predicate SetUp(c: Codebook, lens: seq<nat>, leaves: seq<Leaf>)
    reads c, c.fastHuffman
  {
    && Ready(c, lens, leaves) && c.fastHuffman.Length == FAST_HUFFMAN_TABLE_SIZE
    && FastKnows(c, lens, leaves, c.fastHuffman[..], FastLimit(c))
  }

  /** The part of the codebook header that starts once the lengths are read. It fails exactly when
      the lengths overfill the code tree. */
  method SetupCodebook(c: Codebook, lengths: seq<nat>, sparse0: bool) returns (ok: bool, ghost leaves: seq<Leaf>)
    requires LengthsOk(lengths) && c.fastHuffman.Length == FAST_HUFFMAN_TABLE_SIZE
    modifies c, c.fastHuffman
    ensures ok <==> KraftSum(lengths) <= TWO_32
    ensures ok ==> CodeFor(lengths, leaves)
    ensures ok ==> SetUp(c, lengths, leaves)
    ensures ok ==> (KraftSum(lengths) == TWO_32 <==> Covers(leaves))
    ensures c.sparse <==> sparse0 && |Coded(lengths)| < |lengths| / 4
  {
    var values;
    values := PrepareTables(c, lengths, sparse0);
    hide Built, KraftSum, Covers, FastKnows, Canonical, TablesFit, Coded, LengthsOk, Blocks, PrefixFree, SortAddrs,
      LongCount;
    ok, values, leaves := c.ComputeCodewords(lengths, values);
    if ok {
      ReadyBase(c, lengths, values, leaves);
      FinishTables(c, lengths, values, leaves);
      ComputeAcceleratedHuffman(c, lengths, leaves);
    }
  }

  method PrepareTables(c: Codebook, lengths: seq<nat>, sparse0: bool) returns (values: seq<nat>)
    modifies c
    ensures c.sparse <==> sparse0 && |Coded(lengths)| < |lengths| / 4
    ensures c.entries == |lengths| && c.codewords.To? && TablesFit(c.TablesWith(values), lengths)
    ensures c.sortedEntries == if c.sparse then |Coded(lengths)| else LongCount(lengths)
  {
    c.entries := |lengths|;
    c.sparse, c.sortedEntries := ChooseTables(lengths, sparse0);
    values := [];
    if !c.sparse {
      c.codewordLengths := lengths;
      c.codewords := To(seq(c.entries, _ => 0));
    } else {
      c.codewordLengths := seq(c.sortedEntries, _ => 0);
      c.codewords := To(seq(c.sortedEntries, _ => 0));
      values := seq(c.sortedEntries, _ => 0);
    }
  }

  method FinishTables(c: Codebook, lengths: seq<nat>, values: seq<nat>, ghost leaves: seq<Leaf>)
    requires LengthsOk(lengths) && c.codewords.To? && Built(c.TablesWith(values), lengths, |lengths|, leaves)
    requires c.entries == |lengths| && c.sortedEntries == if c.sparse then |Coded(lengths)| else LongCount(lengths)
    modifies c`sortedCodewords, c`sortedValues, c`codewordLengths, c`codewords
    ensures Ready(c, lengths, leaves)
  {
    hide Built, LengthsOk, CodeFor, UsableCode, SortAddrs, SortedIn, SymbolRows, Coded, LongCount;
    ReadyBase(c, lengths, values, leaves);
    SortTables(c, lengths, values, leaves);
    if c.sparse {
      c.codewords := Null;
    }
  }

  method SortTables(c: Codebook, lengths: seq<nat>, values: seq<nat>, ghost leaves: seq<Leaf>)
    requires LengthsOk(lengths) && c.codewords.To? && Built(c.TablesWith(values), lengths, |lengths|, leaves)
    requires c.sortedEntries == |SortAddrs(c.sparse, leaves)|
    modifies c`sortedCodewords, c`sortedValues, c`codewordLengths
    ensures |leaves| == |Coded(lengths)|
    ensures if c.sortedEntries > 0 then SortedBuilt(c, Coded(lengths), leaves) else c.sortedCodewords.Null?
    ensures !c.sparse ==> c.codewordLengths == old(c.codewordLengths)
  {
    RowsComplete(c.TablesWith(values), lengths, leaves);
    hide Built, SortAddrs, LengthsOk, SortedIn, Coded;
    c.sortedCodewords := Null;
    if c.sortedEntries > 0 {
      c.sortedValues := [-1] + seq(c.sortedEntries, _ => 0);
      ComputeSortedHuffman(c, lengths, values, leaves);
    }
  }

  method CountLong(lens: seq<nat>) returns (n: nat)
    ensures n == LongCount(lens)
  {
    n := 0;
    for j := 0 to |lens|
      invariant n == LongCount(lens[..j])
    {
      assert lens[..j + 1][..j] == lens[..j];
      if lens[j] > FAST_HUFFMAN_LENGTH && lens[j] != NO_CODE {
        n := n + 1;
      }
    }
    assert lens[..|lens|] == lens;
  }
}
