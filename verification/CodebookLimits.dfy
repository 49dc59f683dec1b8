/** Exactly which codebooks are read rightly. */
module CodebookLimits {
  import Arith
  import opened Bits
  import opened HuffmanCode
  import opened Codebooks
  import opened CodebookTables
  import opened CodebookFast
  import opened CodebookDecode
  import opened BitStream
  import opened Sequences

  /** A full accumulator with nothing behind it. */
  lemma {:induction false} FullReader(w: nat)
    requires w < TWO_32
    ensures var s := Reader(w, 32, []);
      ReaderOk(s) && ForFast(s) == s && Prepped(s) == s && Loaded(32, 0) == 32 && w < Pow2(32)
  {
    Pow2Is32();
  }

  lemma {:induction false} FullReads(lens: seq<nat>, leaves: seq<Leaf>, w: nat, k: nat)
    requires |leaves| == |Coded(lens)| && UsableCode(lens, leaves) && w < TWO_32 && k < |leaves|
    ensures Readable(StreamOf(Reader(w, 32, [])), 32, leaves, k) <==> Matches(leaves[k], w)
  {
    Pow2Is32();
    hide Matches, StartsWith, BitsLeft, Coded;
    ReadableMatches(lens, leaves, StreamOf(Reader(w, 32, [])), w, 32, [], k);
  }

  /** A searched book answers a full accumulator that the fast table does not know with some long codeword. */
  lemma {:induction false} SearchAnswers(c: Codebook, lens: seq<nat>, leaves: seq<Leaf>, w: nat) returns (at: nat)
    requires SetUp(c, lens, leaves) && w < TWO_32 && leaves != [] && !Scans(c) && Low(w, 10) < FAST_HUFFMAN_TABLE_SIZE
    requires c.fastHuffman[Low(w, 10)] < 0
    ensures |leaves| == |Coded(lens)|
    ensures var r := RawSymbol(c, lens, leaves, Reader(w, 32, []));
      r >= 0 && IndexOf(c, lens, leaves, r, at) && InSort(c.sparse, leaves[at].len)
  {
    hide Ready, FastKnows, IndexOf, Coded, Matches, Low, Prepped, ForFast, SearchIndex, IsIndex;
    FullReader(w);
    ReadyCode(c, lens, leaves);
    SearchedHasTable(c, lens, leaves);
    var x := SearchIndex(c, lens, leaves, w);
    at := SearchedLong(c, lens, leaves, w);
    IndexLength(c, lens, leaves, x);
  }

  lemma {:induction false} SearchedHasTable(c: Codebook, lens: seq<nat>, leaves: seq<Leaf>)
    requires Ready(c, lens, leaves) && leaves != [] && !Scans(c)
    ensures c.sortedCodewords.To? && c.sortedEntries > 0
  {
    if c.sparse {
      AllSorted(leaves);
    }
  }

  lemma {:induction false} SearchedLong(c: Codebook, lens: seq<nat>, leaves: seq<Leaf>, w: nat) returns (at: nat)
    requires Ready(c, lens, leaves) && c.sortedEntries > 0
    ensures |leaves| == |Coded(lens)|
    ensures IndexOf(c, lens, leaves, SearchIndex(c, lens, leaves, w), at) && InSort(c.sparse, leaves[at].len)
  {
    ReadyCode(c, lens, leaves);
    var row := LastAtMost(c.sortedCodewords.value, c.sortedEntries, Reversed(w));
    var t := SortedTableOf(c, c.sortedCodewords.value[..c.sortedEntries]);
    assert t.sorted[row] in t.sorted;
    at :| 0 <= at < |leaves| && InSort(c.sparse, leaves[at].len) && leaves[at].addr == t.sorted[row];
    hide SortAddrs, IsBlock, Width, Reversed;
    assert SortedRow(t, row, Coded(lens)[at], leaves[at]);
  }

  /** A word no codeword starts. */
  lemma {:induction false} UncoveredWord(leaves: seq<Leaf>) returns (w: nat)
    requires Blocks(leaves) && !Covers(leaves)
    ensures w < TWO_32 && forall k :: 0 <= k < |leaves| ==> !Matches(leaves[k], w)
  {
    var p: nat :| p < TWO_32 && !Found(leaves, p);
    ReversedTwice(p);
    w := Reversed(p);
    hide Reversed;
    forall k | 0 <= k < |leaves| ensures !Matches(leaves[k], w) {
      MatchesIsInBlock(leaves[k], w);
      assert !InBlock(leaves[k], p);
    }
  }

  /** The fast table knows nothing that no codeword starts. */
  lemma {:induction false} FastMisses(c: Codebook, lens: seq<nat>, leaves: seq<Leaf>, w: nat)
    requires SetUp(c, lens, leaves) && Low(w, 10) < FAST_HUFFMAN_TABLE_SIZE
    requires forall k :: 0 <= k < |leaves| && leaves[k].len <= FAST_HUFFMAN_LENGTH && Matches(leaves[k], w) ==>
      !c.sparse && Coded(lens)[k] >= MAX_FAST_INDEX
    ensures c.fastHuffman[Low(w, 10)] < 0
  {
    var i := c.fastHuffman[Low(w, 10)];
    if i >= 0 {
      var at := FastHit(c, lens, leaves, c.fastHuffman[..], w, i);
    }
  }

  /** A searched code that leaves a word out: the word is answered with a symbol all the same. */
  lemma {:induction false} IncompleteWrong(c: Codebook, lens: seq<nat>, leaves: seq<Leaf>) returns (s: Reader)
    requires SetUp(c, lens, leaves) && leaves != [] && !Scans(c) && !Covers(leaves)
    ensures ReaderOk(s) && |leaves| == |Coded(lens)| && RawSymbol(c, lens, leaves, s) >= 0
    ensures !Right(c, lens, leaves, s, RawSymbol(c, lens, leaves, s))
  {
    hide Ready, FastKnows, IndexOf, Coded, Low, Covers, Readable, Matches, RawSymbol;
    ReadyCode(c, lens, leaves);
    var w := UncoveredWord(leaves);
    TenBits(w);
    FastMisses(c, lens, leaves, w);
    FullReader(w);
    s := Reader(w, 32, []);
    var at := SearchAnswers(c, lens, leaves, w);
    forall k | 0 <= k < |leaves| ensures !Readable(StreamOf(s), 32, leaves, k) {
      FullReads(lens, leaves, w, k);
    }
  }

  /** A short codeword out of the fast table's reach is taken for a long one. */
  lemma {:induction false} UnreachedWrong(c: Codebook, lens: seq<nat>, leaves: seq<Leaf>) returns (s: Reader)
    requires SetUp(c, lens, leaves) && leaves != [] && !Scans(c) && !FastReaches(c, lens)
    ensures ReaderOk(s) && |leaves| == |Coded(lens)| && RawSymbol(c, lens, leaves, s) >= 0
    ensures !Right(c, lens, leaves, s, RawSymbol(c, lens, leaves, s))
  {
    hide FastKnows, Coded, Low, Readable, Matches, RawSymbol;
    ReadyCode(c, lens, leaves);
    var i :| MAX_FAST_INDEX <= i < |lens| && lens[i] != NO_CODE && lens[i] <= FAST_HUFFMAN_LENGTH;
    var short := SymbolIndex(c, lens, leaves, i);
    var w := OverlapWord(leaves[short], leaves[short]);
    TenBits(w);
    forall k | 0 <= k < |leaves| && Matches(leaves[k], w) ensures k == short {
      MatchUnique(leaves, k, short, w);
    }
    FastMisses(c, lens, leaves, w);
    FullReader(w);
    s := Reader(w, 32, []);
    var at := SearchAnswers(c, lens, leaves, w);
    hide Ready;
    forall k | 0 <= k < |leaves| && Readable(StreamOf(s), 32, leaves, k) ensures k == short {
      FullReads(lens, leaves, w, k);
    }
  }

  /** A set-up book answers rightly at every state of the reader if and only if it is decodable. */
  lemma {:induction false} DecodingExact(c: Codebook, lens: seq<nat>, leaves: seq<Leaf>)
    requires SetUp(c, lens, leaves)
    ensures |leaves| == |Coded(lens)|
    ensures (forall s :: ReaderOk(s) ==> Right(c, lens, leaves, s, RawSymbol(c, lens, leaves, s)))
      <==> Decodable(c, lens, leaves)
  {
    hide SetUp, Right, RawSymbol, ReaderOk, Covers, FastReaches, Scans;
    SetUpSize(c, lens, leaves);
    if Decodable(c, lens, leaves) {
      forall s | ReaderOk(s) ensures Right(c, lens, leaves, s, RawSymbol(c, lens, leaves, s)) {
        DecodableRight(c, lens, leaves, s);
      }
    } else if !Covers(leaves) {
      var s := IncompleteWrong(c, lens, leaves);
    } else {
      var s := UnreachedWrong(c, lens, leaves);
    }
  }

  /** Which books are scanned can be told from their lengths. */
  lemma {:induction false} ScansExact(c: Codebook, lens: seq<nat>, leaves: seq<Leaf>)
    requires SetUp(c, lens, leaves)
    ensures Scans(c)
      <==>
        !c.sparse
          && (|lens| <= 8 || forall i :: 0 <= i < |lens| && lens[i] != NO_CODE ==> lens[i] <= 10)
  {
    ReadyCode(c, lens, leaves);
    hide FastKnows;
    if !c.sparse && |lens| > 8 {
      if Scans(c) {
        forall i | 0 <= i < |lens| && lens[i] != NO_CODE ensures lens[i] <= FAST_HUFFMAN_LENGTH {
          var k := SymbolIndex(c, lens, leaves, i);
          assert leaves[k].addr !in SortAddrs(false, leaves);
        }
      } else {
        var a := SortAddrs(false, leaves);
        assert a[0] in a;
      }
    }
  }

  lemma {:induction false} NoneCoded(lens: seq<nat>)
    ensures Coded(lens) == [] <==> forall i :: 0 <= i < |lens| ==> lens[i] == NO_CODE
  {
    if Coded(lens) != [] {
      assert lens[Coded(lens)[0]] != NO_CODE;
    }
    if i: nat :| i < |lens| && lens[i] != NO_CODE {
      CodedNext(lens, i);
      CodedPrefix(lens, i + 1);
    }
  }

  /** Which books, set up as sparse or not, have no table to turn an index into a symbol. */
  lemma {:induction false} NoTableExact(c: Codebook, lens: seq<nat>, leaves: seq<Leaf>, sparse0: bool)
    requires SetUp(c, lens, leaves) && (c.sparse <==> sparse0 && |Coded(lens)| < |lens| / 4)
    ensures c.sparse && leaves == [] <==> sparse0 && |lens| >= 4 && forall i :: 0 <= i < |lens| ==> lens[i] == NO_CODE
  {
    SetUpSize(c, lens, leaves);
    NoneCoded(lens);
  }

  // ---------------------------------------------------------------------------------------------
  // Two books that are read wrongly

  lemma {:induction false} KraftSame(lens: seq<nat>, d: nat)
    requires LengthsOk(lens) && d <= MAX_LEN && forall i :: 0 <= i < |lens| ==> lens[i] == d
    ensures KraftSum(lens) == |lens| * Width(d)
  {
    hide Width;
    if lens != [] {
      KraftSame(lens[..|lens| - 1], d);
      Arith.MulDistribute(Width(d), |lens|, 1);
    }
  }

  lemma {:induction false} KraftOfNone(a: seq<nat>, b: seq<nat>)
    requires LengthsOk(a) && LengthsOk(a + b) && forall i :: 0 <= i < |b| ==> b[i] == NO_CODE
    ensures KraftSum(a + b) == KraftSum(a)
    decreases |b|
  {
    if b == [] {
      assert a + b == a;
    } else {
      var init := b[..|b| - 1];
      assert (a + b)[..|a + b| - 1] == a + init;
      KraftOfNone(a, init);
    }
  }

  lemma {:induction false} SmallWidths()
    ensures Width(1) == 0x8000_0000 && Width(11) == 0x20_0000
  {
    assert Pow2(5) == 32;
    assert Pow2(13) == 8192;
    assert Pow2(21) == 0x20_0000;
    assert Pow2(26) == 0x400_0000;
  }

  /** Two codewords, of one and eleven bits, among nine symbols: most words start with neither, and are read as
      the longer one. */
  method IncompleteBook() returns (c: Codebook, lens: seq<nat>, ghost leaves: seq<Leaf>, ghost s: Reader)
    ensures lens == [1, 11] + Repeat(255, 7) && SetUp(c, lens, leaves) && FastReaches(c, lens) && ReaderOk(s)
    ensures |leaves| == |Coded(lens)| && RawSymbol(c, lens, leaves, s) >= 0
    ensures !Right(c, lens, leaves, s, RawSymbol(c, lens, leaves, s))
  {
    hide SetUp, Covers, Scans, ReaderOk, Right, RawSymbol, Width, CodeFor;
    c := new Codebook();
    var lengths := [1, 11] + Repeat(NO_CODE, 7);
    SmallWidths();
    KraftOfNone([1, 11], Repeat(NO_CODE, 7));
    assert KraftSum([1, 11]) == Width(1) + Width(11) by {
      assert [1, 11][..1] == [1] && [1][..0] == [];
    }
    var ok;
    ok, leaves := SetupCodebook(c, lengths, false);
    lens := lengths;
    assert lens[1] == 11;
    ScansExact(c, lens, leaves);
    HasLeaf(c, lens, leaves, 1);
    s := IncompleteWrong(c, lens, leaves);
  }

  /** A complete code whose one short codeword has index 32767: it is read as a long one. */
  method UnreachedBook() returns (c: Codebook, lens: seq<nat>, ghost leaves: seq<Leaf>, ghost s: Reader)
    ensures
      lens == Repeat(11, 1024) + Repeat(NO_CODE, 31743) + [1] && SetUp(c, lens, leaves) && Covers(leaves) && ReaderOk(s)
    ensures |leaves| == |Coded(lens)| && RawSymbol(c, lens, leaves, s) >= 0
    ensures !Right(c, lens, leaves, s, RawSymbol(c, lens, leaves, s))
  {
    hide SetUp, Covers, Scans, ReaderOk, Right, RawSymbol, Width, CodeFor;
    c := new Codebook();
    var lengths := Repeat(11, 1024) + Repeat(NO_CODE, 31743) + [1];
    SmallWidths();
    KraftSame(Repeat(11, 1024), 11);
    KraftOfNone(Repeat(11, 1024), Repeat(NO_CODE, 31743));
    assert lengths[..32767] == Repeat(11, 1024) + Repeat(NO_CODE, 31743);
    var ok;
    ok, leaves := SetupCodebook(c, lengths, false);
    lens := lengths;
    assert lens[0] == 11 && lens[32767] == 1;
    ScansExact(c, lens, leaves);
    HasLeaf(c, lens, leaves, 0);
    s := UnreachedWrong(c, lens, leaves);
  }

  lemma {:induction false} HasLeaf(c: Codebook, lens: seq<nat>, leaves: seq<Leaf>, i: nat)
    requires SetUp(c, lens, leaves) && i < |lens| && lens[i] != NO_CODE
    ensures leaves != []
  {
    NoneCoded(lens);
  }

  // ---------------------------------------------------------------------------------------------
  // Codewords that are too long for the accumulator

  /** With 25 valid bits the accumulator is not topped up, and a longer codeword that is there in full is missed. */
  lemma {:induction false} LongMissed(l: Leaf) returns (s: Reader)
    requires IsBlock(l) && l.len > 25
    ensures ReaderOk(s) && StartsWith(StreamOf(s), l) && Loaded(s.validBits, |s.packet|) < l.len
  {
    var code := Reversed(l.addr);
    MatchesIsInBlock(l, 0);
    LowShr(code, 25);
    ShrBound(code, 25, l.len);
    Pow2Monotone(l.len - 25, 8);
    assert Pow2(8) == 256;
    Pow2Monotone(25, 32);
    Pow2Is32();
    var low, high := Low(code, 25), Shr(code, 25);
    s := Reader(low, 25, [high]);
    hide WordBits, Low, Shl, Shr, Reversed, Pow2, BytesBits;
    WordBitsSplit(code, l.len, 33);
    SplitStream(code, low, high);
  }

  lemma {:induction false} SplitStream(code: nat, low: nat, high: nat)
    requires low < Pow2(25) && code == low + Shl(high, 25)
    ensures StreamOf(Reader(low, 25, [high])) == WordBits(code, 33)
  {
    hide WordBits, Shl, Pow2;
    WordBitsJoin(low, high, 25, 8);
    assert [high][1..] == [];
    assert BytesBits([high]) == WordBits(high, 8) + BytesBits([]);
  }

  /** A codeword is readable wherever it comes next if and only if it has at most 25 bits. */
  lemma {:induction false} ReadableExact(leaves: seq<Leaf>, k: nat)
    requires k < |leaves| && IsBlock(leaves[k]) && leaves[k].len > 0
    ensures (forall s :: ReaderOk(s) && StartsWith(StreamOf(s), leaves[k]) ==> ReadableFrom(s, leaves, k))
      <==> leaves[k].len <= 25
  {
    hide StartsWith, BitsLeft;
    if leaves[k].len <= 25 {
      forall s | ReaderOk(s) && StartsWith(StreamOf(s), leaves[k]) ensures ReadableFrom(s, leaves, k) {
        WholeStreamReadable(leaves, s.acc, s.validBits, s.packet, k);
      }
    } else {
      var s := LongMissed(leaves[k]);
    }
  }

  ghost predicate ReadableFrom(s: Reader, leaves: seq<Leaf>, k: nat) {
    Readable(StreamOf(s), Loaded(s.validBits, |s.packet|), leaves, k)
  }
}
