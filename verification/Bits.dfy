/** Shifts, masks and bit reversal on 32-bit words, bit by bit. */
module Bits {
  const WORD_BITS: nat := 32
  const TWO_32: nat := 0x1_0000_0000

  /** `1 << n` */
  function Pow2(n: nat): (p: nat)
    ensures p >= 1
  {
    if n == 0 then 1 else 2 * Pow2(n - 1)
  }

  /** `x << n` */
  function Shl(x: nat, n: nat): (y: nat)
    ensures x <= y
    decreases n, x
  {
    if n == 0 then x else 2 * Shl(x, n - 1)
  }

  /** `x >> n` */
  function Shr(x: nat, n: nat): (y: nat)
    ensures y <= x
    decreases n, x
  {
    if n == 0 then x else Shr(x / 2, n - 1)
  }

  /** `x & ((1 << n) - 1)` */
  function Low(x: nat, n: nat): (y: nat)
    ensures y <= x && y < Pow2(n)
    decreases n, x
  {
    if n == 0 then 0 else x % 2 + 2 * Low(x / 2, n - 1)
  }

  lemma {:induction false} Pow2Is32()
    ensures Pow2(WORD_BITS) == TWO_32
  {
    assert Pow2(8) == 256;
    assert Pow2(16) == 0x1_0000;
    assert Pow2(24) == 0x100_0000;
  }

  lemma {:induction false} Pow2Monotone(m: nat, n: nat)
    requires m <= n
    ensures Pow2(m) <= Pow2(n)
    decreases n
  {
    if m < n {
      Pow2Monotone(m, n - 1);
    }
  }

  lemma {:induction false} ShlTimes(x: nat, n: nat)
    ensures Shl(x, n) == x * Pow2(n)
    decreases n
  {
    if n > 0 {
      ShlTimes(x, n - 1);
    }
  }

  lemma {:induction false} ShlPow2(m: nat, n: nat)
    ensures Shl(Pow2(m), n) == Pow2(m + n)
    decreases n
  {
    if n > 0 {
      ShlPow2(m, n - 1);
    }
  }

  lemma {:induction false} ShlAdd(x: nat, y: nat, n: nat)
    ensures Shl(x + y, n) == Shl(x, n) + Shl(y, n)
    decreases n
  {
    if n > 0 {
      ShlAdd(x, y, n - 1);
    }
  }

  lemma {:induction false} ShlShl(x: nat, m: nat, n: nat)
    ensures Shl(Shl(x, m), n) == Shl(x, m + n)
    decreases n
  {
    if n > 0 {
      ShlShl(x, m, n - 1);
    }
  }

  lemma {:induction false} ShrShr(x: nat, m: nat, n: nat)
    ensures Shr(Shr(x, m), n) == Shr(x, m + n)
    decreases m
  {
    if m > 0 {
      ShrShr(x / 2, m - 1, n);
    }
  }

  lemma {:induction false} ShlZero(n: nat)
    ensures Shl(0, n) == 0
    decreases n
  {
    if n > 0 {
      ShlZero(n - 1);
    }
  }

  /** A word is its low n bits and the rest. */
  lemma {:induction false} LowShr(x: nat, n: nat)
    ensures x == Low(x, n) + Shl(Shr(x, n), n)
    decreases n
  {
    if n > 0 {
      LowShr(x / 2, n - 1);
    }
  }

  lemma {:induction false} Join(l: nat, h: nat, n: nat)
    requires l < Pow2(n)
    ensures Low(l + Shl(h, n), n) == l && Shr(l + Shl(h, n), n) == h
    decreases n
  {
    if n > 0 {
      Join(l / 2, h, n - 1);
    }
  }

  /** Shifting right looks up the block of 2^n words that holds x. */
  lemma {:induction false} ShrIsRange(x: nat, q: nat, n: nat)
    ensures Shr(x, n) == q <==> Shl(q, n) <= x < Shl(q, n) + Pow2(n)
    decreases n
  {
    if n > 0 {
      ShrIsRange(x / 2, q, n - 1);
    }
  }

  // ---------------------------------------------------------------------------------------------
  // Multiples of 2^n

  lemma {:induction false} MultiplesApart(a: nat, b: nat, n: nat)
    requires Low(a, n) == 0 && Low(b, n) == 0 && a < b
    ensures a + Pow2(n) <= b
    decreases n
  {
    if n > 0 {
      MultiplesApart(a / 2, b / 2, n - 1);
    }
  }

  lemma {:induction false} MultipleSum(a: nat, b: nat, n: nat)
    requires Low(a, n) == 0 && Low(b, n) == 0
    ensures Low(a + b, n) == 0
    decreases n
  {
    if n > 0 {
      MultipleSum(a / 2, b / 2, n - 1);
    }
  }

  lemma {:induction false} Pow2Multiple(m: nat, n: nat)
    requires n <= m
    ensures Low(Pow2(m), n) == 0
    decreases n
  {
    if n > 0 {
      Pow2Multiple(m - 1, n - 1);
    }
  }

  lemma {:induction false} CoarserMultiple(a: nat, m: nat, n: nat)
    requires n <= m && Low(a, m) == 0
    ensures Low(a, n) == 0
    decreases n
  {
    if n > 0 {
      CoarserMultiple(a / 2, m - 1, n - 1);
    }
  }

  // ---------------------------------------------------------------------------------------------
  // Reversal

  /** The low n bits of x in reverse order. */
  function RevBits(x: nat, n: nat): (r: nat)
    ensures r < Pow2(n)
    decreases n, x
  {
    if n == 0 then 0 else (if x % 2 == 1 then Pow2(n - 1) else 0) + RevBits(x / 2, n - 1)
  }

  /** A word splits at any bit: its low m bits end up on top. */
  lemma {:induction false} RevSplit(x: nat, m: nat, n: nat)
    ensures RevBits(x, m + n) == RevBits(Shr(x, m), n) + Shl(RevBits(x, m), n)
    decreases m
  {
    if m == 0 {
      ShlZero(n);
    } else {
      RevSplit(x / 2, m - 1, n);
      ShlPow2(m - 1, n);
      ShlAdd(if x % 2 == 1 then Pow2(m - 1) else 0, RevBits(x / 2, m - 1), n);
      ShlZero(n);
    }
  }

  lemma {:induction false} RevZero(n: nat)
    ensures RevBits(0, n) == 0
    decreases n
  {
    if n > 0 {
      RevZero(n - 1);
    }
  }

  /** Only the low m bits matter. */
  lemma {:induction false} RevLow(x: nat, m: nat)
    ensures RevBits(Low(x, m), m) == RevBits(x, m)
    decreases m
  {
    if m > 0 {
      RevLow(x / 2, m - 1);
    }
  }

  /** Zeros below the bits of q end up above them. */
  lemma {:induction false} RevShifted(q: nat, m: nat, n: nat)
    ensures RevBits(Shl(q, m), m + n) == RevBits(q, n)
    decreases m
  {
    if m > 0 {
      RevShifted(q, m - 1, n);
    }
  }

  /** A bit above the low m bits ends up below them. */
  lemma {:induction false} RevWithTopBit(b: nat, l: nat, m: nat)
    requires b < 2 && l < Pow2(m)
    ensures RevBits((if b == 1 then Pow2(m) else 0) + l, m + 1) == 2 * RevBits(l, m) + b
    decreases m
  {
    if m == 0 {
      assert RevBits(b, 1) == b;
    } else {
      RevWithTopBit(b, l / 2, m - 1);
    }
  }

  lemma {:induction false} RevInvolution(x: nat, n: nat)
    requires x < Pow2(n)
    ensures RevBits(RevBits(x, n), n) == x
    decreases n
  {
    if n > 0 {
      RevInvolution(x / 2, n - 1);
      RevWithTopBit(x % 2, RevBits(x / 2, n - 1), n - 1);
    }
  }

  // ---------------------------------------------------------------------------------------------
  // The mask-and-shift network that reverses a 32-bit word

  /** One stage: exchanges the two halves, b bits each, of every one of k adjacent fields. */
  function SwapFields(v: nat, b: nat, k: nat): nat
    decreases k, v
  {
    if k == 0 then 0
    else Low(Shr(v, b), b) + Shl(Low(v, b) + Shl(SwapFields(Shr(Shr(v, b), b), b, k - 1), b), b)
  }

  /** Reverses the bits inside each of k adjacent fields of f bits. */
  ghost function FieldRev(n: nat, f: nat, k: nat): nat
    decreases k, n
  {
    if k == 0 then 0 else RevBits(n, f) + Shl(FieldRev(Shr(n, f), f, k - 1), f)
  }

  lemma {:induction false} StageDoublesFields(n: nat, b: nat, k: nat)
    ensures SwapFields(FieldRev(n, b, 2 * k), b, k) == FieldRev(n, 2 * b, k)
    decreases k
  {
    if k > 0 {
      var n' := Shr(Shr(n, b), b);
      StageDoublesFields(n', b, k - 1);
      TwoFields(n, b, k);
      DoubleField(n, b, k);
      SwapOne(RevBits(n, b), RevBits(Shr(n, b), b), FieldRev(n', b, 2 * (k - 1)), FieldRev(n', 2 * b, k - 1), b, k,
              FieldRev(n, b, 2 * k), FieldRev(n, 2 * b, k));
    }
  }

  lemma {:induction false} TwoFields(n: nat, b: nat, k: nat)
    requires k > 0
    ensures FieldRev(n, b, 2 * k)
         == RevBits(n, b) + Shl(RevBits(Shr(n, b), b) + Shl(FieldRev(Shr(Shr(n, b), b), b, 2 * (k - 1)), b), b)
  {
    assert FieldRev(Shr(n, b), b, 2 * k - 1)
        == RevBits(Shr(n, b), b) + Shl(FieldRev(Shr(Shr(n, b), b), b, 2 * (k - 1)), b);
  }

  lemma {:induction false} DoubleField(n: nat, b: nat, k: nat)
    requires k > 0
    ensures FieldRev(n, 2 * b, k)
         == RevBits(Shr(n, b), b) + Shl(RevBits(n, b) + Shl(FieldRev(Shr(Shr(n, b), b), 2 * b, k - 1), b), b)
  {
    ShrShr(n, b, b);
    RevSplit(n, b, b);
    var rest := FieldRev(Shr(n, b + b), 2 * b, k - 1);
    ShlAdd(RevBits(n, b), Shl(rest, b), b);
    ShlShl(rest, b, b);
  }

  lemma {:induction false} SwapOne(lo: nat, hi: nat, rest: nat, swapped: nat, b: nat, k: nat, v: nat, w: nat)
    requires lo < Pow2(b) && hi < Pow2(b) && k > 0 && SwapFields(rest, b, k - 1) == swapped
    requires v == lo + Shl(hi + Shl(rest, b), b) && w == hi + Shl(lo + Shl(swapped, b), b)
    ensures SwapFields(v, b, k) == w
  {
    Join(lo, hi + Shl(rest, b), b);
    Join(hi, rest, b);
    SwapParts(v, b, k, lo, hi, rest);
  }

  lemma {:induction false} SwapParts(v: nat, b: nat, k: nat, lo: nat, hi: nat, rest: nat)
    requires Low(v, b) == lo && Low(Shr(v, b), b) == hi && Shr(Shr(v, b), b) == rest && k > 0
    ensures SwapFields(v, b, k) == hi + Shl(lo + Shl(SwapFields(rest, b, k - 1), b), b)
  {
  }

  lemma {:induction false} OneField(n: nat, f: nat)
    ensures FieldRev(n, f, 1) == RevBits(n, f)
  {
    ShlZero(f);
  }

  lemma {:induction false} SingleBits(n: nat, k: nat)
    requires n < Pow2(k)
    ensures FieldRev(n, 1, k) == n
  {
    if k > 0 {
      SingleBits(n / 2, k - 1);
      assert RevBits(n, 1) == n % 2 && Shr(n, 1) == Shr(n / 2, 0) == n / 2;
      assert Shl(n / 2, 1) == 2 * Shl(n / 2, 0);
    }
  }

  /** All 32 bits of a word in reverse order. */
  function Reversed(n: nat): nat {
    RevBits(n, WORD_BITS)
  }

  method BitReverse(n: nat) returns (r: nat)
    requires n < TWO_32
    ensures r == Reversed(n) && r < TWO_32
  {
    Pow2Is32();
    SingleBits(n, WORD_BITS);
    r := SwapFields(n, 1, WORD_BITS / 2);
    StageDoublesFields(n, 1, WORD_BITS / 2);
    r := SwapFields(r, 2, WORD_BITS / 4);
    StageDoublesFields(n, 2, WORD_BITS / 4);
    r := SwapFields(r, 4, WORD_BITS / 8);
    StageDoublesFields(n, 4, WORD_BITS / 8);
    r := SwapFields(r, 8, WORD_BITS / 16);
    StageDoublesFields(n, 8, WORD_BITS / 16);
    r := SwapFields(r, 16, WORD_BITS / 32);
    StageDoublesFields(n, 16, WORD_BITS / 32);
    OneField(n, WORD_BITS);
  }

  lemma {:induction false} ReversedTwice(n: nat)
    requires n < TWO_32
    ensures Reversed(n) < TWO_32 && Reversed(Reversed(n)) == n
  {
    Pow2Is32();
    RevInvolution(n, WORD_BITS);
  }
}
