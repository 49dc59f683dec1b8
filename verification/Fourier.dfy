/** The Fourier transform in shared scratch space. */
module Fourier {
  import Arith

  // Numbers are exact.

  datatype Complex = Complex(re: real, im: real)

  const ZERO := Complex(0.0, 0.0)

  function Add(a: Complex, b: Complex): Complex {
    Complex(a.re + b.re, a.im + b.im)
  }

  function Neg(a: Complex): Complex {
    Complex(-a.re, -a.im)
  }

  function Mul(a: Complex, b: Complex): Complex {
    Complex(a.re * b.re - a.im * b.im, a.re * b.im + a.im * b.re)
  }

  function Scale(x: real, a: Complex): Complex {
    Complex(x * a.re, x * a.im)
  }

  // ---------------------------------------------------------------------------------------------
  // The tables

  datatype Tables = Tables(cos: seq<real>, sin: seq<real>) {
    const size: nat := |cos|
  }

  /** What makes the tables those of an exact cosine and sine at |cos| equal steps around the circle. */
  ghost predicate RootsOfUnity(t: Tables)
    ensures RootsOfUnity(t) ==> 0 < t.size == |t.sin|
  {
    && 0 < t.size == |t.sin| && t.cos[0] == 1.0 && t.sin[0] == 0.0
    && (t.size % 2 == 0 ==> t.cos[t.size / 2] == -1.0 && t.sin[t.size / 2] == 0.0)
    && forall a, b :: 0 <= a < t.size && 0 <= b < t.size ==> AnglesAdd(t, a, b)
  }

  ghost predicate AnglesAdd(t: Tables, a: nat, b: nat)
    requires a < t.size == |t.sin| && b < t.size
  {
    && t.cos[(a + b) % t.size] == t.cos[a] * t.cos[b] - t.sin[a] * t.sin[b]
    && t.sin[(a + b) % t.size] == t.sin[a] * t.cos[b] + t.cos[a] * t.sin[b]
  }

  /** The e-th power of the root, which turns clockwise. */
  function W(t: Tables, e: nat): Complex
    requires 0 < t.size == |t.sin|
  {
    Complex(t.cos[e % t.size], -t.sin[e % t.size])
  }

  lemma {:induction false} ModSum(a: nat, b: nat, d: nat)
    requires d > 0
    ensures (a % d + b % d) % d == (a + b) % d
  {
    var s := a % d + b % d;
    Arith.MulDistribute(d, a / d, b / d);
    Arith.MulDistribute(d, a / d + b / d, s / d);
    Arith.DivUnique(a + b, d, a / d + b / d + s / d, s % d);
  }

  lemma {:induction false} WSum(t: Tables, a: nat, b: nat)
    requires RootsOfUnity(t)
    ensures W(t, a + b) == Mul(W(t, a), W(t, b))
  {
    ModSum(a, b, t.size);
    assert AnglesAdd(t, a % t.size, b % t.size);
  }

  lemma {:induction false} WTurns(t: Tables, e: nat, m: nat)
    requires RootsOfUnity(t)
    ensures W(t, e + t.size * m) == W(t, e)
  {
    var d := t.size;
    Arith.MulDistribute(d, e / d, m);
    Arith.DivUnique(e + d * m, d, e / d + m, e % d);
  }

  lemma {:induction false} WHalf(t: Tables, e: nat)
    requires RootsOfUnity(t) && t.size % 2 == 0
    ensures W(t, e + t.size / 2) == Neg(W(t, e))
  {
    assert W(t, t.size / 2) == Complex(-1.0, 0.0);
    hide RootsOfUnity, W;
    WSum(t, e, t.size / 2);
    MinusOne(W(t, e));
  }

  lemma {:induction false} MinusOne(a: Complex)
    ensures Mul(a, Complex(-1.0, 0.0)) == Neg(a)
  {
  }

  // ---------------------------------------------------------------------------------------------
  // The transform as a sum

  /** Term n of coefficient k, at step entries of the table per unit of angle. */
  function Term(t: Tables, step: nat, x: seq<real>, k: nat, n: nat): Complex
    requires 0 < t.size == |t.sin| && n < |x|
  {
    Scale(x[n], W(t, k * n * step))
  }

  /** The first m terms. */
  function Partial(t: Tables, step: nat, x: seq<real>, k: nat, m: nat): Complex
    requires 0 < t.size == |t.sin| && m <= |x|
    decreases m
  {
    if m == 0 then ZERO else Add(Partial(t, step, x, k, m - 1), Term(t, step, x, k, m - 1))
  }

  /** The k-th Fourier coefficient of x. */
  function Coefficient(t: Tables, x: seq<real>, k: nat): Complex
    requires 0 < t.size == |t.sin| && 0 < |x|
  {
    Partial(t, t.size / |x|, x, k, |x|)
  }

  /** One at j and zero elsewhere. */
  ghost predicate IsImpulse(x: seq<real>, j: nat) {
    j < |x| && forall n :: 0 <= n < |x| ==> x[n] == if n == j then 1.0 else 0.0
  }

  /** The coefficients of an impulse go clockwise around the circle, k * j of |x| steps. */
  lemma {:induction false} ImpulseExact(t: Tables, x: seq<real>, k: nat, j: nat)
    requires 0 < t.size == |t.sin| && IsImpulse(x, j)
    ensures var e := (k * j * (t.size / |x|)) % t.size;
      Coefficient(t, x, k).re == t.cos[e] && Coefficient(t, x, k).im == -t.sin[e]
  {
    ImpulseUpTo(t, t.size / |x|, x, k, j, |x|);
  }

  lemma {:induction false} ImpulseUpTo(t: Tables, step: nat, x: seq<real>, k: nat, j: nat, m: nat)
    requires 0 < t.size == |t.sin| && IsImpulse(x, j) && m <= |x|
    ensures Partial(t, step, x, k, m) == if m <= j then ZERO else W(t, k * j * step)
  {
    hide W;
    if m > 0 {
      ImpulseUpTo(t, step, x, k, j, m - 1);
    }
  }

  /** The transform is linear; with the impulses that fixes it. */
  lemma {:induction false} Linear(t: Tables, x: seq<real>, y: seq<real>, a: real, z: seq<real>, k: nat)
    requires 0 < t.size == |t.sin| && 0 < |x| == |y| == |z| && forall n :: 0 <= n < |x| ==> z[n] == x[n] + a * y[n]
    ensures Coefficient(t, z, k) == Add(Coefficient(t, x, k), Scale(a, Coefficient(t, y, k)))
  {
    LinearUpTo(t, t.size / |x|, x, y, a, z, k, |x|);
  }

  lemma {:induction false} LinearUpTo(t: Tables, step: nat, x: seq<real>, y: seq<real>, a: real, z: seq<real>, k: nat,
                                      m: nat)
    requires 0 < t.size == |t.sin| && |x| == |y| == |z| && m <= |x|
    requires forall n :: 0 <= n < |x| ==> z[n] == x[n] + a * y[n]
    ensures Partial(t, step, z, k, m) == Add(Partial(t, step, x, k, m), Scale(a, Partial(t, step, y, k, m)))
  {
    hide W, Add, Scale;
    LinearNone(a);
    if m > 0 {
      LinearUpTo(t, step, x, y, a, z, k, m - 1);
      var n := m - 1;
      var w := W(t, k * n * step);
      assert z[n] == x[n] + a * y[n];
      LinearTerm(x[n], y[n], a, z[n], w);
      assert Term(t, step, z, k, n) == Scale(z[n], w) && Term(t, step, x, k, n) == Scale(x[n], w)
        && Term(t, step, y, k, n) == Scale(y[n], w);
      var u, v := Term(t, step, x, k, n), Term(t, step, y, k, n);
      assert Term(t, step, z, k, n) == Add(u, Scale(a, v));
      var p, q := Partial(t, step, x, k, n), Partial(t, step, y, k, n);
      assert Partial(t, step, x, k, m) == Add(p, u) && Partial(t, step, y, k, m) == Add(q, v);
      LinearSum(p, q, a, u, v);
    }
  }

  lemma {:induction false} LinearNone(a: real)
    ensures Add(ZERO, Scale(a, ZERO)) == ZERO
  {
  }

  lemma {:induction false} LinearTerm(x: real, y: real, a: real, z: real, w: Complex)
    requires z == x + a * y
    ensures Scale(z, w) == Add(Scale(x, w), Scale(a, Scale(y, w)))
  {
  }

  lemma {:induction false} LinearSum(p: Complex, q: Complex, a: real, u: Complex, v: Complex)
    ensures Add(Add(p, Scale(a, q)), Add(u, Scale(a, v))) == Add(Add(p, u), Scale(a, Add(q, v)))
  {
  }

  function Evens(x: seq<real>): (e: seq<real>)
    ensures |e| == (|x| + 1) / 2
  {
    seq((|x| + 1) / 2, i requires 0 <= i < (|x| + 1) / 2 => x[2 * i])
  }

  function Odds(x: seq<real>): (o: seq<real>)
    ensures |o| == |x| / 2
  {
    seq(|x| / 2, i requires 0 <= i < |x| / 2 => x[2 * i + 1])
  }

  lemma {:induction false} Distribute(w: Complex, s: Complex, x: real, v: Complex)
    ensures Mul(w, Add(s, Scale(x, v))) == Add(Mul(w, s), Scale(x, Mul(w, v)))
  {
    Arith4(w.re, s.re, x, v.re);
    Arith4(w.im, s.im, x, v.im);
    Arith4(w.re, s.im, x, v.im);
    Arith4(w.im, s.re, x, v.re);
  }

  lemma {:induction false} Arith4(a: real, b: real, x: real, v: real)
    ensures a * (b + x * v) == a * b + x * (a * v)
  {
  }

  lemma {:induction false} Regroup(e: Complex, w: Complex, o: Complex, x: real, y: real, v: Complex)
    ensures Add(Add(Add(e, Mul(w, o)), Scale(x, v)), Scale(y, Mul(w, v)))
      == Add(Add(e, Scale(x, v)), Mul(w, Add(o, Scale(y, v))))
  {
    Distribute(w, o, y, v);
    hide Mul, Scale;
  }

  lemma {:induction false} OneMore(t: Tables, step: nat, x: seq<real>, k: nat, m: nat)
    requires 0 < t.size == |t.sin| && m < |x|
    ensures Partial(t, step, x, k, m + 1) == Add(Partial(t, step, x, k, m), Term(t, step, x, k, m))
  {
    hide Term, Add;
  }

  /** The coefficient of the whole from those of its even and its odd half. */
  lemma {:induction false} Interleave(t: Tables, step: nat, x: seq<real>, k: nat, m: nat)
    requires RootsOfUnity(t) && 2 * m <= |x|
    ensures Partial(t, step, x, k, 2 * m)
         == Add(Partial(t, 2 * step, Evens(x), k, m), Mul(W(t, k * step), Partial(t, 2 * step, Odds(x), k, m)))
    decreases m
  {
    if m == 0 {
      NoTerms(t, step, x, k);
      NoTerms(t, 2 * step, Evens(x), k);
      NoTerms(t, 2 * step, Odds(x), k);
    } else {
      Interleave(t, step, x, k, m - 1);
      MorePair(t, step, x, k, m - 1);
    }
    hide *;
  }

  lemma {:induction false} NoTerms(t: Tables, step: nat, x: seq<real>, k: nat)
    requires 0 < t.size == |t.sin|
    ensures Partial(t, step, x, k, 0) == ZERO
  {
  }

  lemma {:induction false} MorePair(t: Tables, step: nat, x: seq<real>, k: nat, n: nat)
    requires RootsOfUnity(t) && 2 * n + 2 <= |x|
    requires Partial(t, step, x, k, 2 * n)
          == Add(Partial(t, 2 * step, Evens(x), k, n), Mul(W(t, k * step), Partial(t, 2 * step, Odds(x), k, n)))
    ensures Partial(t, step, x, k, 2 * n + 2)
         == Add(Partial(t, 2 * step, Evens(x), k, n + 1), Mul(W(t, k * step), Partial(t, 2 * step, Odds(x), k, n + 1)))
  {
    hide *;
    OneMore(t, step, x, k, 2 * n);
    OneMore(t, step, x, k, 2 * n + 1);
    OneMore(t, 2 * step, Evens(x), k, n);
    OneMore(t, 2 * step, Odds(x), k, n);
    OnePair(t, step, x, k, n, Partial(t, 2 * step, Evens(x), k, n), Partial(t, 2 * step, Odds(x), k, n));
  }

  lemma {:induction false} OnePair(t: Tables, step: nat, x: seq<real>, k: nat, n: nat, e: Complex, o: Complex)
    requires RootsOfUnity(t) && 2 * n + 2 <= |x|
    ensures Add(Add(Add(e, Mul(W(t, k * step), o)), Term(t, step, x, k, 2 * n)), Term(t, step, x, k, 2 * n + 1))
         == Add(Add(e, Term(t, 2 * step, Evens(x), k, n)),
                Mul(W(t, k * step), Add(o, Term(t, 2 * step, Odds(x), k, n))))
  {
    hide RootsOfUnity, W, Add, Mul, Scale;
    EvenExponent(k, n, step);
    OddExponent(k, n, step);
    WSum(t, k * step, k * n * (2 * step));
    Regroup(e, W(t, k * step), o, x[2 * n], x[2 * n + 1], W(t, k * n * (2 * step)));
  }

  lemma {:induction false} EvenExponent(k: nat, n: nat, step: nat)
    ensures k * (2 * n) * step == k * n * (2 * step)
  {
    assert k * (2 * n) == 2 * (k * n);
    Arith.MulAssoc(k * n, 2, step);
  }

  lemma {:induction false} OddExponent(k: nat, n: nat, step: nat)
    ensures k * (2 * n + 1) * step == k * step + k * n * (2 * step)
  {
    EvenExponent(k, n, step);
    Arith.MulDistribute(k, 2 * n, 1);
    Arith.MulDistribute(step, k * (2 * n), k);
  }

  lemma {:induction false} TermRepeats(t: Tables, step: nat, x: seq<real>, k: nat, h: nat, n: nat)
    requires RootsOfUnity(t) && n < |x| && h * step == t.size
    ensures Term(t, step, x, k + h, n) == Term(t, step, x, k, n)
  {
    hide RootsOfUnity, W, Scale;
    Arith.MulDistribute(n, k, h);
    Arith.MulDistribute(step, k * n, h * n);
    assert h * n * step == t.size * n by {
      Arith.MulAssoc(n, h, step);
    }
    WTurns(t, k * n * step, n);
  }

  /** The coefficients repeat: with n terms, n * step entries are a whole turn. */
  lemma {:induction false} Periodic(t: Tables, step: nat, x: seq<real>, k: nat, h: nat, m: nat)
    requires RootsOfUnity(t) && m <= |x| && h * step == t.size
    ensures Partial(t, step, x, k + h, m) == Partial(t, step, x, k, m)
    decreases m
  {
    hide RootsOfUnity, Term, Add;
    if m > 0 {
      Periodic(t, step, x, k, h, m - 1);
      TermRepeats(t, step, x, k, h, m - 1);
    }
  }

  lemma {:induction false} Halves(t: Tables, n: nat)
    requires 0 < n && t.size % n == 0 && n % 2 == 0
    ensures t.size % 2 == 0 && t.size % (n / 2) == 0 && t.size / (n / 2) == 2 * (t.size / n)
      && (n / 2) * (2 * (t.size / n)) == t.size
    ensures (n / 2) * (t.size / n) == t.size / 2
  {
    var h, s := n / 2, t.size / n;
    assert n == h * 2;
    assert t.size == n * s;
    Arith.MulAssoc(h, 2, s);
    assert t.size == h * (2 * s);
    Arith.DivUnique(t.size, h, 2 * s, 0);
    Arith.MulAssoc(2, h, s);
    assert t.size == 2 * (h * s);
  }

  /** One butterfly gives two coefficients. */
  lemma {:induction false} Butterfly(t: Tables, x: seq<real>, k: nat)
    requires RootsOfUnity(t) && 0 < |x| && t.size % |x| == 0 && |x| % 2 == 0 && k < |x| / 2
    ensures k * (t.size / |x|) < t.size
    ensures |Evens(x)| == |Odds(x)| == |x| / 2
    ensures var turned := Mul(W(t, k * (t.size / |x|)), Coefficient(t, Odds(x), k));
      && Coefficient(t, x, k) == Add(Coefficient(t, Evens(x), k), turned)
      && Coefficient(t, x, k + |x| / 2) == Add(Coefficient(t, Evens(x), k), Neg(turned))
  {
    hide RootsOfUnity, W, Partial, Add, Mul, Neg;
    var n := |x|;
    var h, s := n / 2, t.size / n;
    Halves(t, n);
    Arith.MulDistribute(s, k, h);
    Arith.MulMono(s, k, h - 1);
    Interleave(t, s, x, k, h);
    Interleave(t, s, x, k + h, h);
    Periodic(t, 2 * s, Evens(x), k, h, h);
    Periodic(t, 2 * s, Odds(x), k, h, h);
    WHalf(t, k * s);
    MulNeg(W(t, k * s), Partial(t, 2 * s, Odds(x), k, h));
  }

  lemma {:induction false} MulNeg(a: Complex, b: Complex)
    ensures Mul(Neg(a), b) == Neg(Mul(a, b))
  {
  }

  // ---------------------------------------------------------------------------------------------
  // The transform in place: real input, complex output as pairs, with the scratch space behind both

  /** From offset off on there are the coefficients of x. */
  ghost predicate IsSpectrum(out: seq<real>, off: nat, t: Tables, x: seq<real>) {
    && 0 < t.size == |t.sin| && 0 < |x| && off + 2 * |x| <= |out|
    && forall k :: 0 <= k < |x| ==> PairAt(out, off + 2 * k, Coefficient(t, x, k))
  }

  ghost predicate PairAt(out: seq<real>, i: nat, c: Complex)
    requires i + 1 < |out|
  {
    out[i] == c.re && out[i + 1] == c.im
  }

  /** The direct sum. */
  method Dft(input: array<real>, off: nat, n: nat, output: array<real>, outOff: nat, t: Tables)
    requires RootsOfUnity(t) && 0 < n && off + n <= input.Length && outOff + 2 * n <= output.Length && input != output
    modifies output
    ensures IsSpectrum(output[..], outOff, t, input[off..off + n])
    ensures forall i :: 0 <= i < output.Length && !(outOff <= i < outOff + 2 * n) ==> output[i] == old(output[i])
  {
    hide RootsOfUnity, Partial;
    var step := t.size / n;
    ghost var x := input[off..off + n];
    for k := 0 to n
      invariant input[off..off + n] == x
      invariant forall j :: 0 <= j < k ==> PairAt(output[..], outOff + 2 * j, Coefficient(t, x, j))
      invariant forall i :: 0 <= i < output.Length && !(outOff <= i < outOff + 2 * n) ==> output[i] == old(output[i])
    {
      var re, im := CoefficientOf(input, off, n, step, k, t);
      output[outOff + 2 * k] := re;
      output[outOff + 2 * k + 1] := im;
    }
  }

  method CoefficientOf(input: array<real>, off: nat, n: nat, step: nat, k: nat, t: Tables) returns (re: real, im: real)
    requires 0 < t.size == |t.sin| && off + n <= input.Length
    ensures Complex(re, im) == Partial(t, step, input[off..off + n], k, n)
  {
    re, im := 0.0, 0.0;
    ghost var x := input[off..off + n];
    NoTerms(t, step, x, k);
    hide Partial, Term, Add;
    for m := 0 to n
      invariant Complex(re, im) == Partial(t, step, x, k, m)
    {
      var idx := (k * m * step) % t.size;
      ghost var next := Complex(re + x[m] * t.cos[idx], im - x[m] * t.sin[idx]);
      OneMore(t, step, x, k, m);
      AddTerm(t, step, x, k, m, Complex(re, im), idx);
      assert input[off + m] == x[m];
      re := re + input[off + m] * t.cos[idx];
      im := im - input[off + m] * t.sin[idx];
      assert Complex(re, im) == next;
    }
  }

  lemma {:induction false} AddTerm(t: Tables, step: nat, x: seq<real>, k: nat, n: nat, c: Complex, idx: nat)
    requires 0 < t.size == |t.sin| && n < |x| && idx == (k * n * step) % t.size
    ensures Add(c, Term(t, step, x, k, n)) == Complex(c.re + x[n] * t.cos[idx], c.im - x[n] * t.sin[idx])
  {
    var v := W(t, k * n * step);
    assert v == Complex(t.cos[idx], -t.sin[idx]);
    MulMinus(x[n], t.sin[idx]);
    assert Term(t, step, x, k, n) == Scale(x[n], v);
    hide Term, W;
    assert Scale(x[n], v) == Complex(x[n] * t.cos[idx], x[n] * v.im);
  }

  lemma {:induction false} MulMinus(a: real, b: real)
    ensures a * -b == -(a * b)
  {
  }

  /** Copies every other entry of the n from off on behind them: the even ones, or the odd. */
  method Split(input: array<real>, off: nat, n: nat, odd: bool)
    requires n % 2 == 0 && off + n + n / 2 <= input.Length
    modifies input
    ensures var x := old(input[off..off + n]); input[off + n..off + n + n / 2] == if odd then Odds(x) else Evens(x)
    ensures forall i :: 0 <= i < input.Length && !(off + n <= i < off + n + n / 2) ==> input[i] == old(input[i])
  {
    hide Evens, Odds;
    var s := if odd then 1 else 0;
    ghost var x := input[off..off + n];
    for i := 0 to n / 2
      invariant input[off..off + n] == x
      invariant forall j :: 0 <= j < i ==> input[off + n + j] == x[2 * j + s]
      invariant forall j :: 0 <= j < input.Length && !(off + n <= j < off + n + n / 2) ==> input[j] == old(input[j])
    {
      input[off + n + i] := input[off + 2 * i + s];
      assert input[off + n + i] == x[2 * i + s];
    }
    IsHalf(x, input[off + n..off + n + n / 2], odd);
  }

  lemma {:induction false} IsHalf(x: seq<real>, half: seq<real>, odd: bool)
    requires |x| % 2 == 0 && |half| == |x| / 2
    requires forall j :: 0 <= j < |half| ==> half[j] == x[2 * j + if odd then 1 else 0]
    ensures half == if odd then Odds(x) else Evens(x)
  {
  }

  /** Puts the coefficients of x together from those of its halves, which stand behind them. */
  method Combine(output: array<real>, outOff: nat, n: nat, t: Tables, ghost x: seq<real>)
    requires RootsOfUnity(t) && |x| == n > 0 && t.size % n == 0 && n % 2 == 0 && outOff + 4 * n <= output.Length
    requires IsSpectrum(output[..], outOff + 2 * n, t, Evens(x)) && IsSpectrum(output[..], outOff + 3 * n, t, Odds(x))
    modifies output
    ensures IsSpectrum(output[..], outOff, t, x)
    ensures forall i :: 0 <= i < output.Length && !(outOff <= i < outOff + 2 * n) ==> output[i] == old(output[i])
  {
    assert 0 < t.size == |t.sin| && |Evens(x)| == |Odds(x)| == n / 2;
    hide *;
    var h, step := n / 2, t.size / n;
    ghost var first := output[..];
    NoneCombined(first, outOff, t, x);
    for k := 0 to h
      invariant Combined(output[..], outOff, t, x, k)
      invariant forall i :: 0 <= i < output.Length && !(outOff <= i < outOff + 2 * n) ==> output[i] == first[i]
    {
      CombineOne(output, outOff, n, k, step, t, x, first);
    }
    AllCombined(output[..], outOff, t, x);
  }

  method CombineOne(output: array<real>, outOff: nat, n: nat, k: nat, step: nat, t: Tables, ghost x: seq<real>,
                    ghost first: seq<real>)
    requires
      RootsOfUnity(t) && |x| == n > 0 && t.size % n == 0 && n % 2 == 0 && outOff + 4 * n <= output.Length == |first|
    requires IsSpectrum(first, outOff + 2 * n, t, Evens(x)) && IsSpectrum(first, outOff + 3 * n, t, Odds(x))
    requires k < n / 2 && step == t.size / n && Combined(output[..], outOff, t, x, k)
    requires forall i :: 0 <= i < output.Length && !(outOff <= i < outOff + 2 * n) ==> output[i] == first[i]
    modifies output
    ensures Combined(output[..], outOff, t, x, k + 1)
    ensures forall i :: 0 <= i < output.Length && !(outOff <= i < outOff + 2 * n) ==> output[i] == first[i]
  {
    hide RootsOfUnity, Coefficient, Evens, Odds, Add, Mul, Neg, Combined, PairAt, W, IsSpectrum;
    Butterfly(t, x, k);
    var idx := k * step;
    ghost var even, odd, before := Coefficient(t, Evens(x), k), Coefficient(t, Odds(x), k), output[..];
    HalvesKept(first, before, outOff, t, x, k);
    SmallAngle(t, idx);
    ButterflyAt(output, outOff, n, k, t.cos[idx], -t.sin[idx], even, odd);
    CombineMore(before, output[..], outOff, t, x, k);
  }

  lemma {:induction false} SmallAngle(t: Tables, idx: nat)
    requires idx < t.size == |t.sin|
    ensures W(t, idx) == Complex(t.cos[idx], -t.sin[idx])
  {
  }

  lemma {:induction false} HalvesKept(first: seq<real>, out: seq<real>, off: nat, t: Tables, x: seq<real>, k: nat)
    requires |x| % 2 == 0 && k < |x| / 2 && off + 4 * |x| <= |first| == |out|
    requires IsSpectrum(first, off + 2 * |x|, t, Evens(x)) && IsSpectrum(first, off + 3 * |x|, t, Odds(x))
    requires forall i :: off + 2 * |x| <= i < off + 4 * |x| ==> out[i] == first[i]
    ensures PairAt(out, off + 2 * |x| + 2 * k, Coefficient(t, Evens(x), k))
      && PairAt(out, off + 3 * |x| + 2 * k, Coefficient(t, Odds(x), k))
  {
    hide Coefficient, Evens, Odds;
    assert PairAt(first, off + 2 * |x| + 2 * k, Coefficient(t, Evens(x), k));
    assert PairAt(first, off + 3 * |x| + 2 * k, Coefficient(t, Odds(x), k));
  }

  /** The coefficients from k butterflies: the first k of either half. */
  ghost predicate Combined(out: seq<real>, off: nat, t: Tables, x: seq<real>, k: nat) {
    && 0 < t.size == |t.sin| && 0 < |x| && |x| % 2 == 0 && k <= |x| / 2 && off + 2 * |x| <= |out|
    && (forall j :: 0 <= j < k ==> PairAt(out, off + 2 * j, Coefficient(t, x, j)))
    && (forall j :: |x| / 2 <= j < |x| / 2 + k ==> PairAt(out, off + 2 * j, Coefficient(t, x, j)))
  }

  lemma {:induction false} NoneCombined(out: seq<real>, off: nat, t: Tables, x: seq<real>)
    requires 0 < t.size == |t.sin| && 0 < |x| && |x| % 2 == 0 && off + 2 * |x| <= |out|
    ensures Combined(out, off, t, x, 0)
  {
  }

  lemma {:induction false} AllCombined(out: seq<real>, off: nat, t: Tables, x: seq<real>)
    requires 0 < |x| && |x| % 2 == 0 && Combined(out, off, t, x, |x| / 2)
    ensures IsSpectrum(out, off, t, x)
  {
    hide PairAt, Coefficient;
  }

  lemma {:induction false} CombineMore(before: seq<real>, out: seq<real>, off: nat, t: Tables, x: seq<real>, k: nat)
    requires Combined(before, off, t, x, k) && |before| == |out| && k < |x| / 2
    requires PairAt(out, off + 2 * k, Coefficient(t, x, k))
      && PairAt(out, off + 2 * (k + |x| / 2), Coefficient(t, x, k + |x| / 2))
    requires forall j ::
      0 <= j < |x| && j != k && j != k + |x| / 2 ==>
        out[off + 2 * j] == before[off + 2 * j] && out[off + 2 * j + 1] == before[off + 2 * j + 1]
    ensures Combined(out, off, t, x, k + 1)
  {
    hide Coefficient;
  }

  method ButterflyAt(output: array<real>, outOff: nat, n: nat, k: nat, re: real, im: real, ghost even: Complex,
                     ghost odd: Complex)
    requires n % 2 == 0 && k < n / 2 && outOff + 4 * n <= output.Length
    requires PairAt(output[..], outOff + 2 * n + 2 * k, even) && PairAt(output[..], outOff + 3 * n + 2 * k, odd)
    modifies output
    ensures PairAt(output[..], outOff + 2 * k, Add(even, Mul(Complex(re, im), odd)))
    ensures PairAt(output[..], outOff + 2 * (k + n / 2), Add(even, Neg(Mul(Complex(re, im), odd))))
    ensures forall i :: (0 <= i < output.Length && i - outOff != 2 * k && i - outOff != 2 * k + 1
      && i - outOff != 2 * (k + n / 2) && i - outOff != 2 * (k + n / 2) + 1) ==> output[i] == old(output[i])
  {
    ButterflyValues(re, im, even, odd);
    hide Add, Mul, Neg;
    var h, e, o := n / 2, outOff + 2 * n, outOff + 3 * n;
    var reOdd, imOdd := output[o + 2 * k], output[o + 2 * k + 1];
    assert output[e + 2 * k] == even.re && output[e + 2 * k + 1] == even.im && reOdd == odd.re && imOdd == odd.im;
    output[outOff + 2 * k] := output[e + 2 * k] + re * reOdd - im * imOdd;
    output[outOff + 2 * k + 1] := output[e + 2 * k + 1] + re * imOdd + im * reOdd;
    output[outOff + 2 * (k + h)] := output[e + 2 * k] - re * reOdd + im * imOdd;
    output[outOff + 2 * (k + h) + 1] := output[e + 2 * k + 1] - re * imOdd - im * reOdd;
  }

  lemma {:induction false} ButterflyValues(re: real, im: real, even: Complex, odd: Complex)
    ensures Add(even, Mul(Complex(re, im), odd))
      == Complex(even.re + re * odd.re - im * odd.im, even.im + re * odd.im + im * odd.re)
    ensures Add(even, Neg(Mul(Complex(re, im), odd)))
      == Complex(even.re - re * odd.re + im * odd.im, even.im - re * odd.im - im * odd.re)
  {
  }

  /** The recursive transform. Both halves share one scratch area behind the input, and one behind the
      output, but the second half destroys neither the input nor what the first has produced. */
  method Fft(input: array<real>, off: nat, n: nat, output: array<real>, outOff: nat, t: Tables)
    requires RootsOfUnity(t) && 0 < n && t.size % n == 0 && input != output
    requires off + 2 * n <= input.Length && outOff + 8 * n <= output.Length
    modifies input, output
    ensures IsSpectrum(output[..], outOff, t, old(input[off..off + n]))
    ensures forall i :: 0 <= i < input.Length && !(off + n <= i < off + 2 * n) ==> input[i] == old(input[i])
    ensures forall i :: 0 <= i < output.Length && !(outOff <= i < outOff + 8 * n) ==> output[i] == old(output[i])
    decreases n
  {
    hide RootsOfUnity, IsSpectrum, Evens, Odds;
    ghost var x := input[off..off + n];
    if n == 1 {
      output[outOff] := input[off];
      output[outOff + 1] := 0.0;
      OnePoint(output[..], outOff, t, x);
      return;
    }
    if n % 2 == 1 {
      Dft(input, off, n, output, outOff, t);
      return;
    }
    Halves(t, n);
    var h := n / 2;
    Split(input, off, n, false);
    Fft(input, off + n, h, output, outOff + 2 * n, t);
    ghost var first := output[..];
    assert input[off..off + n] == x;
    Split(input, off, n, true);
    Fft(input, off + n, h, output, outOff + 3 * n, t);
    SpectrumKept(first, output[..], outOff + 2 * n, t, Evens(x), h);
    Combine(output, outOff, n, t, x);
  }

  lemma {:induction false} OnePoint(out: seq<real>, off: nat, t: Tables, x: seq<real>)
    requires RootsOfUnity(t) && |x| == 1 && off + 2 <= |out| && out[off] == x[0] && out[off + 1] == 0.0
    ensures IsSpectrum(out, off, t, x)
  {
    NoTerms(t, t.size, x, 0);
    OneMore(t, t.size, x, 0, 0);
    assert W(t, 0) == Complex(1.0, 0.0);
    assert Term(t, t.size, x, 0, 0) == Complex(x[0], 0.0);
    assert t.size / 1 == t.size;
    hide Partial, Term, W;
    assert Partial(t, t.size, x, 0, 1) == Complex(x[0], 0.0);
    assert Coefficient(t, x, 0) == Complex(x[0], 0.0);
    assert PairAt(out, off + 2 * 0, Coefficient(t, x, 0));
  }

  lemma {:induction false} SpectrumKept(before: seq<real>, out: seq<real>, off: nat, t: Tables, x: seq<real>, h: nat)
    requires IsSpectrum(before, off, t, x) && |x| == h && |before| == |out|
    requires forall i :: off <= i < off + 2 * h ==> out[i] == before[i]
    ensures IsSpectrum(out, off, t, x)
  {
    hide Coefficient;
    forall k | 0 <= k < h ensures PairAt(out, off + 2 * k, Coefficient(t, x, k)) {
      assert PairAt(before, off + 2 * k, Coefficient(t, x, k));
    }
  }

  // ---------------------------------------------------------------------------------------------
  // One column of the spectrogram, in buffers that still hold the previous column's leftovers

  function Norm(c: Complex): (r: real)
    ensures r >= 0.0
  {
    c.re * c.re + c.im * c.im
  }

  /** The frame at offset, under the window, continued with zeros behind the last sample. */
  function Windowed(samples: seq<real>, offset: nat, hann: seq<real>): (x: seq<real>)
    ensures |x| == |hann|
  {
    seq(|hann|, j requires 0 <= j < |hann| => if offset + j < |samples| then hann[j] * samples[offset + j] else 0.0)
  }

  method FillFrame(samples: seq<real>, offset: nat, hann: seq<real>, input: array<real>)
    requires offset <= |samples| && |hann| <= input.Length
    modifies input
    ensures input[..|hann|] == Windowed(samples, offset, hann)
  {
    var rest := |samples| - offset;
    var filled := if rest < |hann| then rest else |hann|;
    for j := 0 to filled
      invariant forall i :: 0 <= i < j ==> input[i] == hann[i] * samples[offset + i]
    {
      input[j] := hann[j] * samples[offset + j];
    }
    if rest < |hann| {
      for j := rest to input.Length
        invariant forall i :: 0 <= i < rest ==> input[i] == hann[i] * samples[offset + i]
        invariant forall i :: rest <= i < j ==> input[i] == 0.0
      {
        input[j] := 0.0;
      }
    }
    forall i | 0 <= i < |hann| ensures input[i] == Windowed(samples, offset, hann)[i] {
      assert i < filled || (rest < |hann| && rest <= i);
    }
  }

  /** Turns the first coefficients into their squared magnitudes, on the spot. */
  method PowerSpectrum(output: array<real>, bins: nat, t: Tables, ghost x: seq<real>)
    requires IsSpectrum(output[..], 0, t, x) && bins <= |x|
    modifies output
    ensures forall j :: 0 <= j < bins ==> output[j] == Norm(Coefficient(t, x, j))
  {
    hide Coefficient, Norm;
    ghost var first := output[..];
    for j := 0 to bins
      invariant forall i :: 0 <= i < j ==> output[i] == Norm(Coefficient(t, x, i))
      invariant forall i :: j <= i < output.Length ==> output[i] == first[i]
    {
      assert PairAt(first, 2 * j, Coefficient(t, x, j));
      output[j] := output[2 * j] * output[2 * j] + output[2 * j + 1] * output[2 * j + 1];
      IsNorm(output[j], first[2 * j], first[2 * j + 1], Coefficient(t, x, j));
    }
  }

  lemma {:induction false} IsNorm(v: real, re: real, im: real, c: Complex)
    requires v == re * re + im * im && c == Complex(re, im)
    ensures v == Norm(c)
  {
  }

  /** A column depends on its frame alone, not on what the buffers held before. */
  method Column(samples: seq<real>, offset: nat, hann: seq<real>, bins: nat, input: array<real>, output: array<real>,
                t: Tables)
    requires RootsOfUnity(t) && 0 < |hann| && t.size % |hann| == 0 && offset <= |samples| && bins <= |hann|
    requires input != output && input.Length == 2 * |hann| && output.Length == 8 * |hann|
    modifies input, output
    ensures forall j :: 0 <= j < bins ==> output[j] == Norm(Coefficient(t, Windowed(samples, offset, hann), j))
  {
    hide *;
    FillFrame(samples, offset, hann, input);
    assert input[0..0 + |hann|] == input[..|hann|];
    Fft(input, 0, |hann|, output, 0, t);
    PowerSpectrum(output, bins, t, Windowed(samples, offset, hann));
  }

  /** Such tables exist: four steps around the circle. */
  lemma {:induction false} QuarterTurns()
    ensures RootsOfUnity(Tables([1.0, 0.0, -1.0, 0.0], [0.0, 1.0, 0.0, -1.0]))
  {
    var t := Tables([1.0, 0.0, -1.0, 0.0], [0.0, 1.0, 0.0, -1.0]);
    assert AnglesAdd(t, 0, 0) && AnglesAdd(t, 0, 1) && AnglesAdd(t, 0, 2) && AnglesAdd(t, 0, 3);
    assert AnglesAdd(t, 1, 0) && AnglesAdd(t, 1, 1) && AnglesAdd(t, 1, 2) && AnglesAdd(t, 1, 3);
    assert AnglesAdd(t, 2, 0) && AnglesAdd(t, 2, 1) && AnglesAdd(t, 2, 2) && AnglesAdd(t, 2, 3);
    assert AnglesAdd(t, 3, 0) && AnglesAdd(t, 3, 1) && AnglesAdd(t, 3, 2) && AnglesAdd(t, 3, 3);
  }
}
