/** Reading one symbol of a codebook from the bit stream. */
module CodebookDecode {
  import opened Bits
  import opened HuffmanCode
  import opened Codebooks
  import opened CodebookTables
  import opened CodebookFast
  import opened BitStream

  /** The codeword's bits in the order they are read. */
  ghost function CodeBits(l: Leaf): seq<bool> {
    WordBits(Reversed(l.addr), l.len)
  }

  ghost predicate StartsWith(bits: seq<bool>, l: Leaf) {
    l.len <= |bits| && bits[..l.len] == CodeBits(l)
  }

  /** As long as the accumulator has all of the codeword's bits, the stream starts with the codeword
      exactly when the accumulator matches it. */
  lemma {:induction false} StartsWithMatches(l: Leaf, acc: nat, v: int, packet: seq<nat>)
    requires IsBlock(l) && 0 < l.len <= v && acc < Pow2(v)
    ensures StartsWith(BitsLeft(acc, v, packet), l) <==> Matches(l, acc)
  {
    MatchesIsInBlock(l, 0);
    LowSmall(Reversed(l.addr), l.len);
    WordBitsEqual(acc, Reversed(l.addr), l.len);
    WordBitsSplit(acc, l.len, v);
    hide WordBits, Reversed, Low;
    assert BitsLeft(acc, v, packet)[..l.len] == WordBits(acc, v)[..l.len];
  }

  /** Whether the fallback compares codeword by codeword instead of searching the sorted table. */
  predicate Scans(c: Codebook)
    reads c
  {
    !c.codewords.Null? && (c.entries > 8 ==> c.sortedCodewords.Null?)
  }

  /** The fallback can find this codeword. */
  ghost predicate Searchable(c: Codebook, l: Leaf)
    reads c
  {
    Scans(c) || InSort(c.sparse, l.len)
  }

  lemma {:induction false} SortedIncreasing(c: Codebook, lens: seq<nat>, leaves: seq<Leaf>)
    requires Ready(c, lens, leaves) && c.sortedEntries > 0
    ensures c.sortedEntries < |c.sortedCodewords.value| && Increasing(c.sortedCodewords.value[..c.sortedEntries])
  {
  }

  lemma {:induction false} SortedAt(c: Codebook, lens: seq<nat>, leaves: seq<Leaf>, k: nat) returns (y: nat)
    requires Ready(c, lens, leaves) && k < |leaves| && InSort(c.sparse, leaves[k].len)
    ensures c.sortedCodewords.To? && y < c.sortedEntries < |c.sortedCodewords.value|
      && c.sortedCodewords.value[y] == leaves[k].addr
    ensures y + 1 < |c.sortedValues| && c.sortedValues[y + 1] == Coded(lens)[k]
  {
    assert leaves[k].addr in SortAddrs(c.sparse, leaves);
    hide SortAddrs, IsBlock, Width;
    var t := SortedTableOf(c, c.sortedCodewords.value[..c.sortedEntries]);
    y := AddrSorted(t, leaves, k);
    assert SortedRow(t, y, Coded(lens)[k], leaves[k]);
  }

  /** The next sorted codeword starts behind the whole block of this one. */
  lemma {:induction false} NextSorted(c: Codebook, lens: seq<nat>, leaves: seq<Leaf>, k: nat, y: nat)
    requires
      Ready(c, lens, leaves) && k < |leaves| && c.sortedCodewords.To? && y < c.sortedEntries < |c.sortedCodewords.value|
    requires c.sortedCodewords.value[y] == leaves[k].addr
    ensures y + 1 < c.sortedEntries ==> leaves[k].addr + Width(leaves[k].len) <= c.sortedCodewords.value[y + 1]
  {
    if y + 1 < c.sortedEntries {
      var t := SortedTableOf(c, c.sortedCodewords.value[..c.sortedEntries]);
      assert t.sorted[y] < t.sorted[y + 1];
      assert t.sorted[y + 1] in t.sorted;
      var q :| 0 <= q < |leaves| && InSort(c.sparse, leaves[q].len) && leaves[q].addr == t.sorted[y + 1];
      hide SortAddrs, IsBlock, Width;
      assert q < k ==> Apart(leaves[q], leaves[k]);
      assert k < q ==> Apart(leaves[k], leaves[q]);
    }
  }

  ghost predicate IsIndex(c: Codebook, lens: seq<nat>, leaves: seq<Leaf>, x: int)
    requires |leaves| == |Coded(lens)|
    reads c
  {
    x >= 0 && exists k :: IndexOf(c, lens, leaves, x, k)
  }

  /** The decoder's index for row x of the sorted table. */
  function IndexAt(c: Codebook, x: nat): int
    requires c.sparse || x + 1 < |c.sortedValues|
    reads c
  {
    if c.sparse then x else c.sortedValues[x + 1]
  }

  /** Some codeword has the row x of the sorted table, so the row holds an index. */
  lemma {:induction false} SortedSymbol(c: Codebook, lens: seq<nat>, leaves: seq<Leaf>, x: nat)
    requires Ready(c, lens, leaves) && x < c.sortedEntries
    ensures x + 1 < |c.sortedValues| && IsIndex(c, lens, leaves, IndexAt(c, x))
  {
    var t := SortedTableOf(c, c.sortedCodewords.value[..c.sortedEntries]);
    assert t.sorted[x] in t.sorted;
    var k :| 0 <= k < |leaves| && InSort(c.sparse, leaves[k].len) && leaves[k].addr == t.sorted[x];
    hide SortAddrs, IsBlock, Width;
    assert SortedRow(t, x, Coded(lens)[k], leaves[k]);
    assert IndexOf(c, lens, leaves, if c.sparse then x else Coded(lens)[k], k);
  }

  lemma {:induction false} IndexLength(c: Codebook, lens: seq<nat>, leaves: seq<Leaf>, x: int)
    requires Ready(c, lens, leaves) && IsIndex(c, lens, leaves, x)
    ensures 0 <= x < |c.codewordLengths| && c.codewordLengths[x] <= MAX_LEN
  {
    var k :| IndexOf(c, lens, leaves, x, k);
    IndexRow(c, lens, leaves, x, k);
  }

  lemma {:induction false} ReadyCode(c: Codebook, lens: seq<nat>, leaves: seq<Leaf>)
    requires Ready(c, lens, leaves)
    ensures Blocks(leaves) && |leaves| == |Coded(lens)| && UsableCode(lens, leaves)
    ensures c.sparse <==> c.codewords.Null?
    ensures c.sortedCodewords.To? <==> c.sortedEntries > 0
    ensures c.sortedEntries > 0 ==> c.sortedEntries < |c.sortedCodewords.value|
    ensures !c.sparse ==> |c.codewords.value| == |c.codewordLengths| == c.entries
  {
  }

  /** The index of the last sorted codeword at or below the accumulator. */
  ghost function SearchIndex(c: Codebook, lens: seq<nat>, leaves: seq<Leaf>, w: nat): (x: int)
    requires Ready(c, lens, leaves) && c.sortedEntries > 0
    reads c
    ensures IsIndex(c, lens, leaves, x)
  {
    ReadyCode(c, lens, leaves);
    var row := LastAtMost(c.sortedCodewords.value, c.sortedEntries, Reversed(w));
    SortedSymbol(c, lens, leaves, row);
    IndexAt(c, row)
  }

  /** It is that of the codeword the accumulator starts with, if the table has it. */
  lemma {:induction false} SearchRight(c: Codebook, lens: seq<nat>, leaves: seq<Leaf>, w: nat, k: nat)
    requires
      Ready(c, lens, leaves) && w < TWO_32 && k < |leaves| && Matches(leaves[k], w) && InSort(c.sparse, leaves[k].len)
    ensures c.sortedEntries > 0 && IndexOf(c, lens, leaves, SearchIndex(c, lens, leaves, w), k)
  {
    var y := SortedAt(c, lens, leaves, k);
    MatchesIsInBlock(leaves[k], w);
    NextSorted(c, lens, leaves, k, y);
    SortedIncreasing(c, lens, leaves);
    hide SortedIn, Matches, Reversed, Width, UsableCode, SortAddrs, Coded, IsBlock;
    LastIs(c.sortedCodewords.value, c.sortedEntries, Reversed(w), y);
  }

  /** The first symbol from i on whose codeword the accumulator starts with, or -1. */
  ghost function FirstMatch(c: Codebook, w: nat, i: nat): (r: int)
    requires c.codewords.To? && |c.codewords.value| == |c.codewordLengths| == c.entries
    reads c
    ensures r == -1 || i <= r < c.entries
    decreases c.entries - i
  {
    if i >= c.entries then -1
    else if c.codewordLengths[i] != NO_CODE && c.codewords.value[i] == Low(w, c.codewordLengths[i]) then i
    else FirstMatch(c, w, i + 1)
  }

  /** What the fallback answers to the topped-up word w with v valid bits. */
  ghost function RawOf(c: Codebook, lens: seq<nat>, leaves: seq<Leaf>, w: nat, v: int): (r: int)
    requires Ready(c, lens, leaves)
    reads c
    ensures r >= -1
  {
    ReadyCode(c, lens, leaves);
    if c.codewords.Null? && c.sortedCodewords.Null? then -1
    else if Scans(c) then
      var i := FirstMatch(c, w, 0);
      if i >= 0 && v >= c.codewordLengths[i] then i else -1
    else
      var x := SearchIndex(c, lens, leaves, w);
      IndexLength(c, lens, leaves, x);
      if v >= c.codewordLengths[x] then x else -1
  }

  /** A symbol's entry in the scan is its codeword. */
  lemma {:induction false} ScanEntry(c: Codebook, lens: seq<nat>, leaves: seq<Leaf>, w: nat, i: nat) returns (k: nat)
    requires Ready(c, lens, leaves) && Scans(c) && i < c.entries && w < TWO_32
    ensures |leaves| == |Coded(lens)| && i < |c.codewordLengths| && i < |c.codewords.value|
    ensures c.codewordLengths[i] != NO_CODE ==>
      && IndexOf(c, lens, leaves, i, k) && IsBlock(leaves[k]) && c.codewordLengths[i] == leaves[k].len
      && (c.codewords.value[i] == Low(w, c.codewordLengths[i]) <==> Matches(leaves[k], w))
  {
    k := FastCode(c, lens, leaves, i);
    hide Low, Coded, Reversed;
  }

  /** The scan finds the codeword the accumulator starts with. */
  lemma {:induction false} ScanFrom(c: Codebook, lens: seq<nat>, leaves: seq<Leaf>, w: nat, i: nat, k: nat)
    requires Ready(c, lens, leaves) && Scans(c) && w < TWO_32 && k < |leaves| && Matches(leaves[k], w)
    requires i <= Coded(lens)[k]
    ensures FirstMatch(c, w, i) == Coded(lens)[k]
    decreases c.entries - i
  {
    var q := ScanEntry(c, lens, leaves, w, i);
    assert UsableCode(lens, leaves) && !c.sparse;
    hide Matches, Low, Ready;
    if c.codewordLengths[i] != NO_CODE && Matches(leaves[q], w) {
      MatchUnique(leaves, q, k, w);
    } else {
      assert i != Coded(lens)[k] by { ScanSelf(c, lens, leaves, i, k); }
      ScanFrom(c, lens, leaves, w, i + 1, k);
    }
  }

  lemma {:induction false} ScanSelf(c: Codebook, lens: seq<nat>, leaves: seq<Leaf>, i: nat, k: nat)
    requires Ready(c, lens, leaves) && Scans(c) && k < |leaves| && i < |c.codewordLengths|
    ensures |leaves| == |Coded(lens)|
    ensures i == Coded(lens)[k] ==> c.codewordLengths[i] != NO_CODE
    ensures forall q :: i == Coded(lens)[k] && IndexOf(c, lens, leaves, i, q) ==> q == k
  {
  }

  /** What it finds, the accumulator starts with. */
  lemma {:induction false} ScanFound(c: Codebook, lens: seq<nat>, leaves: seq<Leaf>, w: nat, i: nat) returns (k: nat)
    requires Ready(c, lens, leaves) && Scans(c) && w < TWO_32 && |c.codewords.value| == |c.codewordLengths| == c.entries
    requires FirstMatch(c, w, i) >= 0
    ensures IndexOf(c, lens, leaves, FirstMatch(c, w, i), k) && IsBlock(leaves[k]) && Matches(leaves[k], w)
    decreases c.entries - i
  {
    k := ScanEntry(c, lens, leaves, w, i);
    if FirstMatch(c, w, i) != i {
      k := ScanFound(c, lens, leaves, w, i + 1);
    }
  }

  /** The codeword behind the fallback's answer; it is the one that the accumulator starts with if the fallback
      can find that. */
  lemma {:induction false} RawLeaf(c: Codebook, lens: seq<nat>, leaves: seq<Leaf>, w: nat, v: int) returns (at: nat)
    requires Ready(c, lens, leaves) && w < TWO_32
    ensures var r := RawOf(c, lens, leaves, w, v);
      && |leaves| == |Coded(lens)| && UsableCode(lens, leaves)
      && (r >= 0 ==>
            at < |leaves| && IndexOf(c, lens, leaves, r, at) && leaves[at].len <= v
              && (Scans(c) ==> Matches(leaves[at], w)))
      && forall k :: 0 <= k < |leaves| && Matches(leaves[k], w) && Searchable(c, leaves[k]) ==>
           (r >= 0 <==> leaves[k].len <= v) && (r >= 0 ==> at == k)
  {
    hide Ready, Matches, IndexOf, Coded, SearchIndex, FirstMatch;
    ReadyCode(c, lens, leaves);
    at := 0;
    if c.codewords.Null? && c.sortedCodewords.Null? {
      EmptyBook(c, lens, leaves);
    } else if Scans(c) {
      at := RawScan(c, lens, leaves, w);
    } else {
      at := RawSearch(c, lens, leaves, w);
    }
  }

  lemma {:induction false} RawScan(c: Codebook, lens: seq<nat>, leaves: seq<Leaf>, w: nat) returns (at: nat)
    requires Ready(c, lens, leaves) && w < TWO_32 && Scans(c) && |c.codewords.value| == |c.codewordLengths| == c.entries
    ensures |leaves| == |Coded(lens)| && Blocks(leaves)
    ensures var i := FirstMatch(c, w, 0);
      && (i >= 0 ==>
            at < |leaves| && IndexOf(c, lens, leaves, i, at) && c.codewordLengths[i] == leaves[at].len
              && Matches(leaves[at], w))
      && forall k :: 0 <= k < |leaves| && Matches(leaves[k], w) ==> i >= 0 && at == k
  {
    hide Matches, FirstMatch;
    ReadyCode(c, lens, leaves);
    var i := FirstMatch(c, w, 0);
    at := 0;
    if i >= 0 {
      at := ScanFound(c, lens, leaves, w, 0);
      IndexRow(c, lens, leaves, i, at);
    }
    hide Ready;
    forall k | 0 <= k < |leaves| && Matches(leaves[k], w) ensures i >= 0 && at == k {
      ScanFrom(c, lens, leaves, w, 0, k);
      MatchUnique(leaves, k, at, w);
    }
  }

  lemma {:induction false} RawSearch(c: Codebook, lens: seq<nat>, leaves: seq<Leaf>, w: nat) returns (at: nat)
    requires Ready(c, lens, leaves) && w < TWO_32 && c.sortedEntries > 0
    ensures |leaves| == |Coded(lens)| && Blocks(leaves)
    ensures var x := SearchIndex(c, lens, leaves, w);
      && x < |c.codewordLengths| && at < |leaves| && IndexOf(c, lens, leaves, x, at)
           && c.codewordLengths[x] == leaves[at].len
      && forall k :: 0 <= k < |leaves| && Matches(leaves[k], w) && InSort(c.sparse, leaves[k].len) ==> at == k
  {
    hide Matches, SearchIndex;
    ReadyCode(c, lens, leaves);
    var x := SearchIndex(c, lens, leaves, w);
    at :| IndexOf(c, lens, leaves, x, at);
    IndexRow(c, lens, leaves, x, at);
    forall k | 0 <= k < |leaves| && Matches(leaves[k], w) && InSort(c.sparse, leaves[k].len) ensures at == k {
      SearchRight(c, lens, leaves, w, k);
      OneLeaf(c, lens, leaves, x, at, k);
    }
  }

  lemma {:induction false} OneLeaf(c: Codebook, lens: seq<nat>, leaves: seq<Leaf>, x: nat, j: nat, k: nat)
    requires Ready(c, lens, leaves) && IndexOf(c, lens, leaves, x, j) && IndexOf(c, lens, leaves, x, k)
    ensures j == k
  {
  }

  lemma {:induction false} EmptyBook(c: Codebook, lens: seq<nat>, leaves: seq<Leaf>)
    requires Ready(c, lens, leaves) && c.codewords.Null? && c.sortedCodewords.Null?
    ensures leaves == []
  {
    AllSorted(leaves);
  }

  // ---------------------------------------------------------------------------------------------

  method FindBySearch(c: Codebook, acc: nat, ghost lens: seq<nat>, ghost leaves: seq<Leaf>) returns (x: nat)
    requires Ready(c, lens, leaves) && acc < TWO_32 && c.sortedEntries > 0
    ensures x == SearchIndex(c, lens, leaves, acc)
  {
    SortedIncreasing(c, lens, leaves);
    var code := BitReverse(acc);
    x := SearchSorted(c.sortedCodewords.value, c.sortedEntries, code);
    SortedSymbol(c, lens, leaves, x);
    if !c.sparse {
      x := c.sortedValues[x + 1];
    }
  }

  method FindByScan(c: Codebook, acc: nat) returns (i: int)
    requires c.codewords.To? && |c.codewords.value| == |c.codewordLengths| == c.entries
    ensures i == FirstMatch(c, acc, 0)
  {
    i := 0;
    while i < c.entries
      invariant 0 <= i <= c.entries && FirstMatch(c, acc, 0) == FirstMatch(c, acc, i)
    {
      if c.codewordLengths[i] != NO_CODE {
        if c.codewords.value[i] == Low(acc, c.codewordLengths[i]) {
          return;
        }
      }
      i := i + 1;
    }
    i := -1;
  }

  /** The decoder's fallback. It tops up the accumulator, looks up the codeword that starts it, and takes it if
      all its bits are valid; a word that a scan does not find is reported as an error. */
  method DecodeScalarRaw(f: BitReader, c: Codebook, ghost lens: seq<nat>, ghost leaves: seq<Leaf>) returns (r: int)
    requires f.Valid() && Ready(c, lens, leaves)
    modifies f
    ensures var t := Prepped(old(f.State()));
      && f.Valid() && r == RawOf(c, lens, leaves, t.acc, t.validBits)
      && (r >= 0 ==>
           && r < |c.codewordLengths| && c.codewordLengths[r] <= |old(f.Stream())|
           && f.Stream() == old(f.Stream())[c.codewordLengths[r]..])
      && (r < 0 ==> f.State() == if c.codewords.Null? && c.sortedCodewords.Null? then t else t.(validBits := 0))
      && (f.error <==> old(f.error) || (Scans(c) && Unmatched(c, lens, leaves, t.acc)))
  {
    hide Ready, IndexOf, Coded, SearchIndex, FirstMatch, SameBits, Prepped, IsIndex;
    PreppedOk(f.State());
    SameUsed(f.State(), Prepped(f.State()));
    f.PrepHuffman();
    ReadyCode(c, lens, leaves);
    if c.codewords.Null? && c.sortedCodewords.Null? {
      return -1;
    }
    if if c.entries > 8 then !c.sortedCodewords.Null? else c.codewords.Null? {
      var x := FindBySearch(c, f.acc, lens, leaves);
      IndexLength(c, lens, leaves, x);
      var len := c.codewordLengths[x];
      if f.validBits >= len {
        f.Consume(len);
        return x;
      }
      f.validBits := 0;
      return -1;
    }
    var i := FindByScan(c, f.acc);
    if i >= 0 {
      if f.validBits >= c.codewordLengths[i] {
        f.Consume(c.codewordLengths[i]);
        return i;
      }
      f.validBits := 0;
      return -1;
    }
    f.error := true;
    f.validBits := 0;
    r := -1;
  }

  ghost predicate Unmatched(c: Codebook, lens: seq<nat>, leaves: seq<Leaf>, w: nat)
    requires Ready(c, lens, leaves) && Scans(c)
    reads c
  {
    ReadyCode(c, lens, leaves);
    FirstMatch(c, w, 0) < 0
  }

  lemma {:induction false} SameUsed(s: Reader, t: Reader)
    requires SameBits(s, t)
    ensures ReaderOk(t) && StreamOf(t) == StreamOf(s)
  {
  }

  // ---------------------------------------------------------------------------------------------
  // Reading a symbol: the fast table first, the fallback when it does not know the next ten bits

  /** Every short codeword has an index the fast table can hold. */
  ghost predicate FastReaches(c: Codebook, lens: seq<nat>)
    reads c
  {
    c.sparse || forall i :: 32767 <= i < |lens| && lens[i] != NO_CODE ==> lens[i] > 10
  }

  /** When the fast table does not know the next ten bits, the fallback can find what they start. */
  lemma {:induction false} MissedIsSearchable(c: Codebook, lens: seq<nat>, leaves: seq<Leaf>, fast: seq<int>, w: nat,
                                              w': nat, k: nat)
    requires
      Ready(c, lens, leaves) && |fast| == FAST_HUFFMAN_TABLE_SIZE && FastKnows(c, lens, leaves, fast, FastLimit(c))
    requires FastReaches(c, lens) && w < TWO_32 && k < |leaves| && Low(w, 10) < FAST_HUFFMAN_TABLE_SIZE
    requires fast[Low(w, 10)] < 0 && Matches(leaves[k], w') && Low(w', 10) == Low(w, 10)
    ensures Searchable(c, leaves[k])
  {
    if !c.sparse && leaves[k].len <= FAST_HUFFMAN_LENGTH {
      var index := IndexExists(c, lens, leaves, k);
      LowLow(w', leaves[k].len, 10);
      hide Ready, Low, Coded;
      assert HitBy(c, lens, leaves, index, Low(w, 10), k);
      assert Hit(c, lens, leaves, index, Low(w, 10));
      assert FastAt(c, lens, leaves, fast[Low(w, 10)], FastLimit(c), Low(w, 10));
      MissedIndex(c, lens, leaves, index, k);
      assert false;
    }
  }

  lemma {:induction false} MissedIndex(c: Codebook, lens: seq<nat>, leaves: seq<Leaf>, index: nat, k: nat)
    requires Ready(c, lens, leaves) && FastReaches(c, lens) && !c.sparse
    requires IndexOf(c, lens, leaves, index, k) && leaves[k].len <= FAST_HUFFMAN_LENGTH
    ensures index < FastLimit(c)
  {
  }

  lemma {:induction false} SameWord(w: nat, w': nat, v: nat)
    requires w < Pow2(v) && w' < Pow2(v) && Low(w, v) == Low(w', v)
    ensures w == w'
  {
    LowSmall(w, v);
    LowSmall(w', v);
  }

  lemma {:induction false} CoveredMatch(leaves: seq<Leaf>, w: nat) returns (k: nat)
    requires Covers(leaves) && Blocks(leaves) && w < TWO_32
    ensures k < |leaves| && Matches(leaves[k], w)
  {
    ReversedTwice(w);
    assert Found(leaves, Reversed(w));
    k :| 0 <= k < |leaves| && InBlock(leaves[k], Reversed(w));
    MatchesIsInBlock(leaves[k], w);
  }

  /** A codeword is there to be read: the bits to come start with it, and the topped-up accumulator holds all of it. */
  ghost predicate Readable(bits: seq<bool>, v: int, leaves: seq<Leaf>, k: nat) {
    k < |leaves| && leaves[k].len <= v && StartsWith(bits, leaves[k])
  }

  /** What a match of the accumulator says about the bits to come. */
  lemma {:induction false} ReadableMatches(lens: seq<nat>, leaves: seq<Leaf>, bits: seq<bool>, w: nat, v: int,
                                           packet: seq<nat>, k: nat)
    requires |leaves| == |Coded(lens)| && UsableCode(lens, leaves) && k < |leaves| && leaves[k].len <= v
    requires w < Pow2(v) && bits == BitsLeft(w, v, packet)
    ensures Readable(bits, v, leaves, k) <==> Matches(leaves[k], w)
  {
    StartsWithMatches(leaves[k], w, v, packet);
  }

  /** A fast hit is the only codeword there, if it has all its bits, and otherwise there is none. */
  lemma {:induction false} FastOutcome(lens: seq<nat>, leaves: seq<Leaf>, bits: seq<bool>, w: nat, v0: int, v: int,
                                       packet: seq<nat>, at: nat)
    requires |leaves| == |Coded(lens)| && UsableCode(lens, leaves) && at < |leaves|
    requires w < TWO_32 && (v0 >= 0 ==> w < Pow2(v0)) && bits == BitsLeft(w, v0, packet)
    requires Matches(leaves[at], w) && leaves[at].len <= FAST_HUFFMAN_LENGTH && v0 <= v
      && (v0 < FAST_HUFFMAN_LENGTH ==> v0 == v)
    ensures leaves[at].len <= v0 ==> Readable(bits, v, leaves, at)
    ensures leaves[at].len > v0 ==> forall k :: 0 <= k < |leaves| ==> !Readable(bits, v, leaves, k)
  {
    hide Matches, StartsWith, BitsLeft, Coded;
    if leaves[at].len <= v0 {
      ReadableMatches(lens, leaves, bits, w, v0, packet, at);
    } else {
      forall k | 0 <= k < |leaves| && leaves[k].len <= v ensures !Readable(bits, v, leaves, k) {
        ReadableMatches(lens, leaves, bits, w, v, packet, k);
        if Matches(leaves[k], w) {
          MatchUnique(leaves, k, at, w);
        }
      }
    }
  }

  /** The fallback's answer, when it can find everything that the accumulator may start with. */
  lemma {:induction false} RawOutcome(c: Codebook, lens: seq<nat>, leaves: seq<Leaf>, bits: seq<bool>, w: nat, v: int,
                                      packet: seq<nat>, r: int, at: nat)
    requires |leaves| == |Coded(lens)| && UsableCode(lens, leaves)
    requires w < TWO_32 && (v >= 0 ==> w < Pow2(v)) && bits == BitsLeft(w, v, packet)
    requires forall k :: 0 <= k < |leaves| && Matches(leaves[k], w) ==> Searchable(c, leaves[k])
    requires r >= 0 ==> at < |leaves| && leaves[at].len <= v && (Scans(c) ==> Matches(leaves[at], w))
    requires forall k :: 0 <= k < |leaves| && Matches(leaves[k], w) && Searchable(c, leaves[k]) ==>
      (r >= 0 <==> leaves[k].len <= v) && (r >= 0 ==> at == k)
    requires Covers(leaves) || Scans(c)
    ensures r >= 0 ==> Readable(bits, v, leaves, at)
    ensures r < 0 ==> forall k :: 0 <= k < |leaves| ==> !Readable(bits, v, leaves, k)
  {
    if r >= 0 {
      if !Scans(c) {
        var k := CoveredMatch(leaves, w);
      }
      hide Matches, StartsWith, BitsLeft, Coded;
      ReadableMatches(lens, leaves, bits, w, v, packet, at);
    } else {
      hide Matches, StartsWith, BitsLeft, Coded, Covers;
      forall k | 0 <= k < |leaves| && leaves[k].len <= v ensures !Readable(bits, v, leaves, k) {
        ReadableMatches(lens, leaves, bits, w, v, packet, k);
      }
    }
  }

  /** The reader that the fast table is asked with: topped up if it has fewer than ten bits. */
  function ForFast(s: Reader): Reader {
    if s.validBits < FAST_HUFFMAN_LENGTH then Prepped(s) else s
  }

  /** What one decoding step answers. */
  ghost function RawSymbol(c: Codebook, lens: seq<nat>, leaves: seq<Leaf>, s: Reader): (r: int)
    requires SetUp(c, lens, leaves)
    reads c, c.fastHuffman
    ensures r >= -1
  {
    var t := ForFast(s);
    TenBits(t.acc);
    var i := c.fastHuffman[Low(t.acc, 10)];
    if i >= 0 then
      FastLength(c, lens, leaves, c.fastHuffman[..], Low(t.acc, 10));
      if c.codewordLengths[i] <= t.validBits then i else -1
    else RawOf(c, lens, leaves, Prepped(t).acc, Prepped(t).validBits)
  }

  lemma {:induction false} FastLength(c: Codebook, lens: seq<nat>, leaves: seq<Leaf>, fast: seq<int>, w: nat)
    requires
      Ready(c, lens, leaves) && |fast| == FAST_HUFFMAN_TABLE_SIZE && FastKnows(c, lens, leaves, fast, FastLimit(c))
    requires w < FAST_HUFFMAN_TABLE_SIZE && fast[w] >= 0
    ensures fast[w] < |c.codewordLengths|
  {
    assert FastAt(c, lens, leaves, fast[w], FastLimit(c), w);
    var k :| HitBy(c, lens, leaves, fast[w], w, k);
    IndexRow(c, lens, leaves, fast[w], k);
  }

  /** The bits to come start with this codeword, which the topped-up accumulator holds in full, and the answer is
      its index. */
  ghost predicate Names(c: Codebook, lens: seq<nat>, leaves: seq<Leaf>, s: Reader, r: int, k: nat)
    requires |leaves| == |Coded(lens)|
    reads c
  {
    r >= 0 && k < |leaves| && IndexOf(c, lens, leaves, r, k)
      && Readable(StreamOf(s), Loaded(s.validBits, |s.packet|), leaves, k)
  }

  /** The answer is right: the index of the codeword that can be read, or -1 if none can be. */
  ghost predicate Right(c: Codebook, lens: seq<nat>, leaves: seq<Leaf>, s: Reader, r: int)
    requires |leaves| == |Coded(lens)|
    reads c
  {
    if r >= 0 then exists k :: Names(c, lens, leaves, s, r, k)
    else forall k :: 0 <= k < |leaves| ==> !Readable(StreamOf(s), Loaded(s.validBits, |s.packet|), leaves, k)
  }

  /** What it takes for all answers to be right: if codewords are searched by bisection, there must be one for every
      word, and the fast table must hold the short ones. */
  ghost predicate Decodable(c: Codebook, lens: seq<nat>, leaves: seq<Leaf>)
    reads c
  {
    leaves == [] || Scans(c) || (Covers(leaves) && FastReaches(c, lens))
  }

  lemma {:induction false} ForFastOk(s: Reader)
    requires ReaderOk(s)
    ensures var t := ForFast(s);
      && ReaderOk(t) && StreamOf(t) == StreamOf(s) && t.validBits <= Loaded(s.validBits, |s.packet|)
      && (t.validBits < FAST_HUFFMAN_LENGTH ==> t.packet == [] && t.validBits == Loaded(s.validBits, |s.packet|))
      && (t.validBits >= 0 ==> t.acc < Pow2(t.validBits))
      && Loaded(t.validBits, |t.packet|) == Loaded(s.validBits, |s.packet|)
  {
    PreppedOk(s);
    LoadedAgain(s.validBits, |s.packet|);
    hide Prepped, Pow2, BitsLeft, Low;
  }

  /** A hit in the fast table. */
  lemma {:induction false} HitRight(c: Codebook, lens: seq<nat>, leaves: seq<Leaf>, s: Reader, i: nat)
    requires ReaderOk(s) && SetUp(c, lens, leaves)
    requires Low(ForFast(s).acc, 10) < FAST_HUFFMAN_TABLE_SIZE && c.fastHuffman[Low(ForFast(s).acc, 10)] == i
    ensures |leaves| == |Coded(lens)| && Right(c, lens, leaves, s, RawSymbol(c, lens, leaves, s))
  {
    ForFastOk(s);
    var t := ForFast(s);
    var at := FastHit(c, lens, leaves, c.fastHuffman[..], t.acc, i);
    FastOutcome(lens, leaves, StreamOf(s), t.acc, t.validBits, Loaded(s.validBits, |s.packet|), t.packet, at);
    hide Ready, FastKnows, IndexOf, Coded, Matches, BitsLeft, Low, Pow2, Readable, Loaded, Prepped, ForFast;
    if c.codewordLengths[i] <= t.validBits {
      assert Names(c, lens, leaves, s, i, at);
    }
  }

  /** The word the fallback sees agrees with the one the fast table saw. */
  lemma {:induction false} SameTen(t: Reader)
    requires ReaderOk(t) && (t.validBits < FAST_HUFFMAN_LENGTH ==> t.packet == [])
      && (t.validBits >= 0 ==> t.acc < Pow2(t.validBits))
    ensures Low(Prepped(t).acc, 10) == Low(t.acc, 10)
  {
    PreppedOk(t);
  }

  /** A miss. */
  lemma {:induction false} MissRight(c: Codebook, lens: seq<nat>, leaves: seq<Leaf>, s: Reader)
    requires ReaderOk(s) && SetUp(c, lens, leaves) && leaves != [] && Decodable(c, lens, leaves)
    requires Low(ForFast(s).acc, 10) < FAST_HUFFMAN_TABLE_SIZE && c.fastHuffman[Low(ForFast(s).acc, 10)] < 0
    ensures |leaves| == |Coded(lens)| && Right(c, lens, leaves, s, RawSymbol(c, lens, leaves, s))
  {
    hide Ready, FastKnows, IndexOf, Coded, Matches, BitsLeft, Low, Pow2, Covers, FastReaches, Readable,
         Prepped, ForFast, RawOf, Loaded;
    ForFastOk(s);
    var t := ForFast(s);
    PreppedOk(t);
    SameTen(t);
    var u, v := Prepped(t), Loaded(s.validBits, |s.packet|);
    var at := RawLeaf(c, lens, leaves, u.acc, u.validBits);
    forall k | 0 <= k < |leaves| && Matches(leaves[k], u.acc) ensures Searchable(c, leaves[k]) {
      if !Scans(c) {
        MissedIsSearchable(c, lens, leaves, c.fastHuffman[..], t.acc, u.acc, k);
      }
    }
    var r := RawOf(c, lens, leaves, u.acc, u.validBits);
    RawOutcome(c, lens, leaves, StreamOf(s), u.acc, v, u.packet, r, at);
    assert r >= 0 ==> Names(c, lens, leaves, s, r, at);
  }

  lemma {:induction false} EmptyRight(c: Codebook, lens: seq<nat>, s: Reader)
    requires ReaderOk(s) && SetUp(c, lens, [])
    ensures |Coded(lens)| == 0 && Right(c, lens, [], s, RawSymbol(c, lens, [], s))
  {
    TenBits(ForFast(s).acc);
    var w := Low(ForFast(s).acc, 10);
    assert FastAt(c, lens, [], c.fastHuffman[w], FastLimit(c), w);
    var t := Prepped(ForFast(s));
    RawEmpty(c, lens, t.acc, t.validBits);
  }

  lemma {:induction false} RawEmpty(c: Codebook, lens: seq<nat>, w: nat, v: int)
    requires Ready(c, lens, [])
    ensures RawOf(c, lens, [], w, v) == -1
  {
    if !c.sparse {
      assert SortAddrs(false, []) == [];
      NoMatch(c, lens, w, 0);
    }
  }

  lemma {:induction false} NoMatch(c: Codebook, lens: seq<nat>, w: nat, i: nat)
    requires Ready(c, lens, []) && !c.sparse
    ensures |c.codewords.value| == |c.codewordLengths| == c.entries && FirstMatch(c, w, i) == -1
    decreases c.entries - i
  {
    if i < c.entries {
      NoMatch(c, lens, w, i + 1);
      assert lens[i] == NO_CODE by {
        CodedNext(lens, i);
        CodedPrefix(lens, i + 1);
      }
    }
  }

  lemma {:induction false} DecodableRight(c: Codebook, lens: seq<nat>, leaves: seq<Leaf>, s: Reader)
    requires ReaderOk(s) && SetUp(c, lens, leaves) && Decodable(c, lens, leaves)
    ensures |leaves| == |Coded(lens)| && Right(c, lens, leaves, s, RawSymbol(c, lens, leaves, s))
  {
    hide Decodable, RawSymbol, Right, ForFast, Low;
    if leaves == [] {
      EmptyRight(c, lens, s);
    } else {
      TenBits(ForFast(s).acc);
      if c.fastHuffman[Low(ForFast(s).acc, 10)] >= 0 {
        HitRight(c, lens, leaves, s, c.fastHuffman[Low(ForFast(s).acc, 10)]);
      } else {
        MissRight(c, lens, leaves, s);
      }
    }
  }

  lemma {:induction false} SetUpSize(c: Codebook, lens: seq<nat>, leaves: seq<Leaf>)
    requires SetUp(c, lens, leaves)
    ensures |leaves| == |Coded(lens)|
  {
  }

  // ---------------------------------------------------------------------------------------------

  method DecodeHit(f: BitReader, c: Codebook, i: nat, ghost lens: seq<nat>, ghost leaves: seq<Leaf>) returns (r: int)
    requires f.Valid() && SetUp(c, lens, leaves) && i < |c.codewordLengths|
    modifies f
    ensures f.Valid() && r == if c.codewordLengths[i] <= old(f.validBits) then i else -1
    ensures
      r >= 0 ==> c.codewordLengths[i] <= |old(f.Stream())| && f.Stream() == old(f.Stream())[c.codewordLengths[i]..]
    ensures r < 0 ==> f.validBits == 0 && f.packet == old(f.packet)
  {
    hide SetUp, BitsLeft, Pow2;
    var n := c.codewordLengths[i];
    if n <= f.validBits {
      f.Consume(n);
      r := i;
    } else {
      f.acc, f.validBits := Shr(f.acc, n), 0;
      r := -1;
    }
  }

  /** Reads one symbol, and consumes exactly its codeword. */
  method DecodeRaw(f: BitReader, c: Codebook, ghost lens: seq<nat>, ghost leaves: seq<Leaf>) returns (r: int)
    requires f.Valid() && SetUp(c, lens, leaves)
    modifies f
    ensures f.Valid() && |leaves| == |Coded(lens)| && r == RawSymbol(c, lens, leaves, old(f.State()))
    ensures r >= 0 ==>
      && r < |c.codewordLengths| && c.codewordLengths[r] <= |old(f.Stream())|
      && f.Stream() == old(f.Stream())[c.codewordLengths[r]..]
    ensures Decodable(c, lens, leaves) ==> Right(c, lens, leaves, old(f.State()), r)
  {
    hide Right, Decodable, Low, BitsLeft, Prepped, Ready, FastKnows, RawOf, SameBits, Pow2;
    SetUpSize(c, lens, leaves);
    if Decodable(c, lens, leaves) {
      DecodableRight(c, lens, leaves, f.State());
    }
    PreppedOk(f.State());
    SameUsed(f.State(), Prepped(f.State()));
    if f.validBits < FAST_HUFFMAN_LENGTH {
      f.PrepHuffman();
    }
    TenBits(f.acc);
    var i := c.fastHuffman[Low(f.acc, 10)];
    if i >= 0 {
      FastLength(c, lens, leaves, c.fastHuffman[..], Low(f.acc, 10));
      r := DecodeHit(f, c, i, lens, leaves);
    } else {
      r := DecodeScalarRaw(f, c, lens, leaves);
    }
  }

  lemma {:induction false} LoadedAgain(v: int, n: nat)
    ensures Loaded(v, n) <= 24 ==> Loaded(Loaded(v, n), 0) == Loaded(v, n)
    ensures Loaded(v, n) > 24 ==> forall m: nat :: Loaded(Loaded(v, n), m) == Loaded(v, n)
  {
  }

  lemma {:induction false} TenBits(w: nat)
    ensures Low(w, 10) < FAST_HUFFMAN_TABLE_SIZE
  {
    assert Pow2(10) == FAST_HUFFMAN_TABLE_SIZE;
  }

  lemma {:induction false} FastHit(c: Codebook, lens: seq<nat>, leaves: seq<Leaf>, fast: seq<int>, w: nat, i: nat)
    returns (k: nat)
    requires
      Ready(c, lens, leaves) && |fast| == FAST_HUFFMAN_TABLE_SIZE && FastKnows(c, lens, leaves, fast, FastLimit(c))
    requires Low(w, 10) < FAST_HUFFMAN_TABLE_SIZE && fast[Low(w, 10)] == i
    ensures IndexOf(c, lens, leaves, i, k) && leaves[k].len <= FAST_HUFFMAN_LENGTH && Matches(leaves[k], w)
    ensures i < FastLimit(c) && i < |c.codewordLengths| && c.codewordLengths[i] == leaves[k].len
  {
    assert FastAt(c, lens, leaves, fast[Low(w, 10)], FastLimit(c), Low(w, 10));
    assert Hit(c, lens, leaves, i, Low(w, 10));
    k :| HitBy(c, lens, leaves, i, Low(w, 10), k);
    LowLow(w, leaves[k].len, 10);
    IndexRow(c, lens, leaves, i, k);
  }

  /** No bit sequence starts with two codewords. */
  lemma {:induction false} NextCodewordUnique(lens: seq<nat>, leaves: seq<Leaf>, bits: seq<bool>, j: nat, k: nat)
    requires |leaves| == |Coded(lens)| && UsableCode(lens, leaves) && j < |leaves| && k < |leaves|
    requires StartsWith(bits, leaves[j]) && StartsWith(bits, leaves[k])
    ensures j == k
  {
    if leaves[j].len <= leaves[k].len {
      PrefixMatches(leaves[j], leaves[k], bits);
      MatchUnique(leaves, j, k, Reversed(leaves[k].addr));
    } else {
      PrefixMatches(leaves[k], leaves[j], bits);
      MatchUnique(leaves, j, k, Reversed(leaves[j].addr));
    }
  }

  lemma {:induction false} PrefixMatches(a: Leaf, b: Leaf, bits: seq<bool>)
    requires IsBlock(a) && IsBlock(b) && a.len <= b.len && StartsWith(bits, a) && StartsWith(bits, b)
    ensures Reversed(b.addr) < TWO_32 && Matches(a, Reversed(b.addr)) && Matches(b, Reversed(b.addr))
  {
    ReversedTwice(b.addr);
    MatchesIsInBlock(a, 0);
    MatchesIsInBlock(b, 0);
    LowSmall(Reversed(b.addr), b.len);
    LowSmall(Reversed(a.addr), a.len);
    WordBitsSplit(Reversed(b.addr), a.len, b.len);
    WordBitsEqual(Reversed(b.addr), Reversed(a.addr), a.len);
    hide WordBits, Reversed, Low;
    assert bits[..a.len] == bits[..b.len][..a.len];
  }

  lemma {:induction false} BytesBitsLength(bytes: seq<nat>)
    ensures |BytesBits(bytes)| == 8 * |bytes|
  {
    if bytes != [] {
      BytesBitsLength(bytes[1..]);
    }
  }

  /** Codewords of up to 25 bits are read wherever they come next; the accumulator is never too short for them. */
  lemma {:induction false} WholeStreamReadable(leaves: seq<Leaf>, acc: nat, validBits: int, packet: seq<nat>, k: nat)
    requires validBits >= -1 && (validBits < 0 ==> packet == []) && k < |leaves| && 0 < leaves[k].len <= 25
    ensures var bits := BitsLeft(acc, validBits, packet);
      Readable(bits, Loaded(validBits, |packet|), leaves, k) <==> StartsWith(bits, leaves[k])
  {
    BytesBitsLength(packet);
    hide CodeBits, WordBits;
  }

  /** The codeword whose index was answered. */
  lemma {:induction false} AnsweredLeaf(c: Codebook, lens: seq<nat>, leaves: seq<Leaf>, s: Reader) returns (at: nat)
    requires SetUp(c, lens, leaves) && ReaderOk(s)
    ensures var r := RawSymbol(c, lens, leaves, s);
      && |leaves| == |Coded(lens)| && UsableCode(lens, leaves)
      && (r >= 0 ==>
            IndexOf(c, lens, leaves, r, at) && r < |c.codewordLengths| && c.codewordLengths[r] == leaves[at].len)
      && (r >= 0 && c.sparse ==> r + 1 < |c.sortedValues| && c.sortedValues[r + 1] == Coded(lens)[at])
  {
    hide Low, Matches, Coded, Prepped, ForFast, RawOf, Ready, FastKnows;
    ForFastOk(s);
    var t := ForFast(s);
    PreppedOk(t);
    TenBits(t.acc);
    var i, r := c.fastHuffman[Low(t.acc, 10)], RawSymbol(c, lens, leaves, s);
    if i >= 0 {
      at := FastHit(c, lens, leaves, c.fastHuffman[..], t.acc, i);
    } else {
      at := RawLeaf(c, lens, leaves, Prepped(t).acc, Prepped(t).validBits);
    }
    ReadyCode(c, lens, leaves);
    if r >= 0 {
      IndexRow(c, lens, leaves, r, at);
    }
  }

  /** A right answer names the codeword that can be read, and there is no other. */
  lemma {:induction false} RightIsUnique(c: Codebook, lens: seq<nat>, leaves: seq<Leaf>, s: Reader, r: int, at: nat)
    requires SetUp(c, lens, leaves) && |leaves| == |Coded(lens)| && UsableCode(lens, leaves)
    requires Right(c, lens, leaves, s, r) && (r >= 0 ==> IndexOf(c, lens, leaves, r, at))
    ensures var bits, v := StreamOf(s), Loaded(s.validBits, |s.packet|);
      && (r >= 0 ==> Readable(bits, v, leaves, at))
           && (forall k: nat :: Readable(bits, v, leaves, k) ==> r >= 0 && at == k)
  {
    hide Ready, FastKnows, IndexOf, Coded, Loaded, BitsLeft, StartsWith, UsableCode;
    var bits, v := StreamOf(s), Loaded(s.validBits, |s.packet|);
    if r >= 0 {
      var q :| Names(c, lens, leaves, s, r, q);
      OneLeaf(c, lens, leaves, r, at, q);
      forall k: nat | Readable(bits, v, leaves, k) ensures at == k {
        NextCodewordUnique(lens, leaves, bits, at, k);
      }
    }
  }

  /** Reads one symbol and, in a sparse book, turns its place in the sorted table into the symbol. */
  method Decode(f: BitReader, c: Codebook, ghost lens: seq<nat>, ghost leaves: seq<Leaf>)
    returns (symbol: int, ghost at: nat)
    requires f.Valid() && SetUp(c, lens, leaves) && (c.sparse ==> leaves != [])
    modifies f
    ensures f.Valid() && symbol >= -1 && |leaves| == |Coded(lens)|
    ensures symbol >= 0 ==>
      && at < |leaves| && symbol == Coded(lens)[at]
      && leaves[at].len <= |old(f.Stream())| && f.Stream() == old(f.Stream())[leaves[at].len..]
    ensures Decodable(c, lens, leaves) ==>
      var v := Loaded(old(f.validBits), |old(f.packet)|);
      && (symbol >= 0 ==> Readable(old(f.Stream()), v, leaves, at))
      && (forall k: nat :: Readable(old(f.Stream()), v, leaves, k) ==> symbol == Coded(lens)[k] && at == k)
  {
    hide Decodable, Ready, FastKnows, Readable, RawSymbol, BitsLeft, Loaded, Right, UsableCode;
    SparseTable(c, lens, leaves);
    ghost var s := f.State();
    at := AnsweredLeaf(c, lens, leaves, s);
    var r := DecodeRaw(f, c, lens, leaves);
    if Decodable(c, lens, leaves) {
      RightIsUnique(c, lens, leaves, s, r, at);
    }
    symbol := if c.sparse then c.sortedValues[r + 1] else r;
  }

  lemma {:induction false} SparseTable(c: Codebook, lens: seq<nat>, leaves: seq<Leaf>)
    requires SetUp(c, lens, leaves) && (c.sparse ==> leaves != [])
    ensures c.sparse ==> |c.sortedValues| > 0 && c.sortedValues[0] == -1
  {
    if c.sparse {
      AllSorted(leaves);
    }
  }
}
