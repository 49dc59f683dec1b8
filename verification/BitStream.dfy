/** The bits of a Vorbis packet, read through an accumulator. */
module BitStream {
  import opened Bits

  /** The low n bits of x, least significant bit first. */
  ghost function WordBits(x: nat, n: nat): (b: seq<bool>)
    ensures |b| == n
    decreases n, x
  {
    if n == 0 then [] else [x % 2 == 1] + WordBits(x / 2, n - 1)
  }

  ghost function BytesBits(bytes: seq<nat>): seq<bool> {
    if bytes == [] then [] else WordBits(bytes[0], 8) + BytesBits(bytes[1..])
  }

  lemma {:induction false} WordBitsEqual(x: nat, y: nat, n: nat)
    ensures WordBits(x, n) == WordBits(y, n) <==> Low(x, n) == Low(y, n)
    decreases n
  {
    if n > 0 {
      WordBitsEqual(x / 2, y / 2, n - 1);
      assert WordBits(x, n)[1..] == WordBits(x / 2, n - 1) && WordBits(y, n)[1..] == WordBits(y / 2, n - 1);
      assert WordBits(x, n)[0] == (x % 2 == 1) && WordBits(y, n)[0] == (y % 2 == 1);
    }
  }

  lemma {:induction false} WordBitsJoin(l: nat, h: nat, m: nat, n: nat)
    requires l < Pow2(m)
    ensures WordBits(l + Shl(h, m), m + n) == WordBits(l, m) + WordBits(h, n)
    decreases m
  {
    if m > 0 {
      WordBitsJoin(l / 2, h, m - 1, n);
      assert WordBits(l + Shl(h, m), m + n) == [l % 2 == 1] + (WordBits(l / 2, m - 1) + WordBits(h, n));
    }
  }

  lemma {:induction false} WordBitsSplit(x: nat, k: nat, n: nat)
    requires k <= n
    ensures WordBits(x, n)[..k] == WordBits(x, k) && WordBits(x, n)[k..] == WordBits(Shr(x, k), n - k)
    decreases k
  {
    if k > 0 {
      WordBitsSplit(x / 2, k - 1, n - 1);
      assert WordBits(x, n)[..k] == [x % 2 == 1] + WordBits(x / 2, n - 1)[..k - 1];
      assert WordBits(x, n)[k..] == WordBits(x / 2, n - 1)[k - 1..];
    }
  }

  ghost function BitsLeft(acc: nat, validBits: int, packet: seq<nat>): seq<bool> {
    (if validBits > 0 then WordBits(acc, validBits) else []) + BytesBits(packet)
  }

  /** Putting the next byte above the valid bits neither changes them nor the bits to come. */
  lemma {:induction false} ByteJoins(acc: nat, v: nat, packet: seq<nat>)
    requires v <= 24 && acc < Pow2(v) && packet != [] && packet[0] < 256
    ensures acc + Shl(packet[0], v) < Pow2(v + 8) && Pow2(v + 8) <= TWO_32
    ensures BitsLeft(acc + Shl(packet[0], v), v + 8, packet[1..]) == BitsLeft(acc, v, packet)
    ensures forall n: nat :: n <= v ==> Low(acc + Shl(packet[0], v), n) == Low(acc, n)
  {
    assert Pow2(8) == 256;
    hide Pow2, Low, Shl, WordBits;
    JoinBound(acc, packet[0], v, 8);
    Pow2Is32();
    Pow2Monotone(v + 8, 32);
    BitsLeftJoin(acc, v, packet);
    forall n: nat | n <= v ensures Low(acc + Shl(packet[0], v), n) == Low(acc, n) {
      LowOfJoin(acc, packet[0], v, n);
    }
  }

  lemma {:induction false} BitsLeftJoin(acc: nat, v: nat, packet: seq<nat>)
    requires acc < Pow2(v) && packet != []
    ensures BitsLeft(acc + Shl(packet[0], v), v + 8, packet[1..]) == BitsLeft(acc, v, packet)
  {
    WordBitsJoin(acc, packet[0], v, 8);
    assert BytesBits(packet) == WordBits(packet[0], 8) + BytesBits(packet[1..]);
    assert v == 0 ==> WordBits(acc, v) == [];
    hide Pow2, Shl, WordBits, BytesBits;
    assert WordBits(acc, v) + (WordBits(packet[0], 8) + BytesBits(packet[1..]))
        == (WordBits(acc, v) + WordBits(packet[0], 8)) + BytesBits(packet[1..]);
  }

  lemma {:induction false} JoinBound(l: nat, h: nat, m: nat, n: nat)
    requires l < Pow2(m) && h < Pow2(n)
    ensures l + Shl(h, m) < Pow2(m + n)
    decreases m
  {
    if m > 0 {
      JoinBound(l / 2, h, m - 1, n);
    }
  }

  lemma {:induction false} ShrBound(x: nat, k: nat, n: nat)
    requires k <= n && x < Pow2(n)
    ensures Shr(x, k) < Pow2(n - k)
    decreases k
  {
    if k > 0 {
      ShrBound(x / 2, k - 1, n - 1);
    }
  }

  lemma {:induction false} LowHalves(x: nat, n: nat)
    requires n > 0
    ensures Low(x, n) == x % 2 + 2 * Low(x / 2, n - 1) && Low(x, n) % 2 == x % 2 && Low(x, n) / 2 == Low(x / 2, n - 1)
  {
  }

  lemma {:induction false} LowLow(x: nat, m: nat, n: nat)
    requires m <= n
    ensures Low(Low(x, n), m) == Low(x, m)
    decreases m
  {
    if m == 0 {
      assert Low(x, 0) == 0;
    } else {
      hide Low;
      LowHalves(x, n);
      LowHalves(x, m);
      LowHalves(Low(x, n), m);
      LowLow(x / 2, m - 1, n - 1);
    }
  }

  lemma {:induction false} LowOfJoin(l: nat, h: nat, m: nat, n: nat)
    requires l < Pow2(m) && n <= m
    ensures Low(l + Shl(h, m), n) == Low(l, n)
    decreases m
  {
    if n > 0 {
      LowOfJoin(l / 2, h, m - 1, n - 1);
      assert (l + Shl(h, m)) / 2 == l / 2 + Shl(h, m - 1) && (l + Shl(h, m)) % 2 == l % 2;
    }
  }

  /** How many bits the accumulator holds once it has been topped up from n remaining bytes. */
  function Loaded(validBits: int, n: nat): (v: int)
    ensures v >= validBits
    ensures v > 24 || v == validBits + 8 * n
    ensures validBits <= 32 ==> v <= 32
    decreases n
  {
    if validBits > 24 || n == 0 then validBits else Loaded(validBits + 8, n - 1)
  }

  /** A reader's accumulator, how many of its bits are valid, and the packet's bytes not yet read. */
  datatype Reader = Reader(acc: nat, validBits: int, packet: seq<nat>)

  /** After a read past the end of the packet validBits is -1 and nothing is left. */
  ghost predicate ReaderOk(s: Reader) {
    && s.acc < TWO_32 && -1 <= s.validBits <= 32
    && (s.validBits > 0 ==> s.acc < Pow2(s.validBits))
    && (forall k :: 0 <= k < |s.packet| ==> s.packet[k] < 256)
    && (s.validBits < 0 ==> s.packet == [])
  }

  /** The bits still to be read. */
  ghost function StreamOf(s: Reader): seq<bool> {
    BitsLeft(s.acc, s.validBits, s.packet)
  }

  /** Bytes are added above the valid bits while there is room for one. */
  function Refilled(s: Reader): Reader
    decreases |s.packet|
  {
    if s.packet == [] || !(0 <= s.validBits <= 24) then s
    else Refilled(Reader(s.acc + Shl(s.packet[0], s.validBits), s.validBits + 8, s.packet[1..]))
  }

  /** The reader once its accumulator is topped up. */
  function Prepped(s: Reader): Reader {
    Refilled(if s.validBits == 0 then s.(acc := 0) else s)
  }

  /** Topping up changes neither the bits to come nor the valid ones in the accumulator. */
  ghost predicate SameBits(s: Reader, t: Reader) {
    && ReaderOk(t) && StreamOf(t) == StreamOf(s) && t.validBits == Loaded(s.validBits, |s.packet|)
    && (t.validBits <= 24 ==> t.packet == []) && (t.validBits >= 0 ==> t.acc < Pow2(t.validBits))
    && forall n: nat :: n <= s.validBits ==> Low(t.acc, n) == Low(s.acc, n)
  }

  lemma {:induction false} RefilledOk(s: Reader)
    requires ReaderOk(s) && (s.validBits >= 0 ==> s.acc < Pow2(s.validBits))
    ensures SameBits(s, Refilled(s))
    decreases |s.packet|
  {
    if s.packet != [] && s.validBits <= 24 {
      hide BitsLeft, Shl, Low, Pow2;
      ByteJoins(s.acc, s.validBits, s.packet);
      RefilledOk(Reader(s.acc + Shl(s.packet[0], s.validBits), s.validBits + 8, s.packet[1..]));
    }
  }

  lemma {:induction false} PreppedOk(s: Reader)
    requires ReaderOk(s)
    ensures SameBits(s, Prepped(s))
  {
    RefilledOk(if s.validBits == 0 then s.(acc := 0) else s);
    hide Refilled, Pow2;
  }

  class BitReader {
    var acc: nat
    var validBits: int
    var packet: seq<nat>     // the packet's bytes not yet read
    var error: bool          // whether an invalid stream was reported

    ghost function State(): Reader
      reads this
    {
      Reader(acc, validBits, packet)
    }

    ghost predicate Valid()
      reads this
    {
      ReaderOk(State())
    }

    ghost function Stream(): seq<bool>
      reads this
    {
      StreamOf(State())
    }

    method PrepHuffman()
      requires Valid()
      modifies this`acc, this`validBits, this`packet
      ensures State() == Prepped(old(State())) && SameBits(old(State()), State())
    {
      PreppedOk(State());
      hide SameBits, BitsLeft, Shl, Low, Pow2;
      if validBits <= 24 {
        if validBits == 0 {
          acc := 0;
        }
        var more := true;
        while more
          invariant Refilled(State()) == Prepped(old(State())) && validBits >= -1 && (validBits < 0 ==> packet == [])
          invariant if more then validBits <= 24 else validBits > 24
          decreases |packet|, more
        {
          if packet == [] {
            return;
          }
          acc, validBits, packet := acc + Shl(packet[0], validBits), validBits + 8, packet[1..];
          more := validBits <= 24;
        }
      }
    }

    /** Drops len bits that have been recognised. */
    method Consume(len: nat)
      requires Valid() && len <= validBits
      modifies this`acc, this`validBits
      ensures Valid() && validBits == old(validBits) - len && acc == Shr(old(acc), len) && packet == old(packet)
      ensures |old(Stream())| >= len && Stream() == old(Stream())[len..]
    {
      if validBits > 0 {
        WordBitsSplit(acc, len, validBits);
        ShrBound(acc, len, validBits);
        assert Stream()[len..] == WordBits(Shr(acc, len), validBits - len) + BytesBits(packet);
      } else {
        assert Stream()[0..] == Stream();
      }
      acc := Shr(acc, len);
      validBits := validBits - len;
    }
  }
}
