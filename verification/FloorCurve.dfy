/** The floor curve of a Vorbis channel: amplitudes and lines. */
module FloorCurve {
  import Arith

  // Sections 7.2.4, 9.2.6 and 9.2.7 of the Vorbis I specification.

  function Abs(x: int): nat {
    if x < 0 then -x else x
  }

  /** C's division, which truncates, for a positive divisor. */
  function Truncated(a: int, b: int): int
    requires b > 0
  {
    if a >= 0 then a / b else -(-a / b)
  }

  function PredictPoint(x: int, x0: int, x1: int, y0: int, y1: int): int
    requires x0 <= x && x0 < x1
  {
    var dy, adx := y1 - y0, x1 - x0;
    Arith.MulMono(Abs(dy), 0, x - x0);
    var off := Truncated(Abs(dy) * (x - x0), adx);
    if dy < 0 then y0 - off else y0 + off
  }

  /** The prediction starts and ends in the two points and stays between them. */
  lemma {:induction false} PredictBetween(x: int, x0: int, x1: int, y0: int, y1: int)
    requires x0 <= x <= x1 && x0 < x1
    ensures PredictPoint(x0, x0, x1, y0, y1) == y0 && PredictPoint(x1, x0, x1, y0, y1) == y1
    ensures
      if y0 <= y1 then y0 <= PredictPoint(x, x0, x1, y0, y1) <= y1 else y1 <= PredictPoint(x, x0, x1, y0, y1) <= y0
  {
    var ady, adx := Abs(y1 - y0), x1 - x0;
    Arith.MulMono(ady, x - x0, adx);
    Arith.MulMono(ady, 0, x - x0);
    assert ady * 0 == 0;
    Arith.DivUnique(ady * adx, adx, ady, 0);
    Arith.DivMono(ady * (x - x0), ady * adx, adx);
  }

  /** Going one further adds the quotient, and one more if the error runs over. */
  lemma {:induction false} OneFurther(ady: nat, adx: nat, k: nat)
    requires adx > 0
    ensures var q, err := (ady * k) / adx, (ady * k) % adx + ady % adx;
      && (ady * (k + 1)) / adx == q + ady / adx + (if err >= adx then 1 else 0)
      && (ady * (k + 1)) % adx == if err >= adx then err - adx else err
  {
    var a, b := ady * k, ady;
    Arith.MulDistribute(ady, k, 1);
    Arith.MulDistribute(adx, a / adx, b / adx);
    Arith.MulDistribute(adx, a / adx + b / adx, 1);
    var err := a % adx + b % adx;
    if err >= adx {
      Arith.DivUnique(a + b, adx, a / adx + b / adx + 1, err - adx);
    } else {
      Arith.DivUnique(a + b, adx, a / adx + b / adx, err);
    }
  }

  ghost predicate OnLine(y: int, err: int, x: int, x0: int, y0: int, x1: int, y1: int)
    requires x0 <= x && x0 < x1
  {
    y == PredictPoint(x, x0, x1, y0, y1) && err == (Abs(y1 - y0) * (x - x0)) % (x1 - x0)
  }

  lemma {:induction false} LineStarts(x0: int, y0: int, x1: int, y1: int)
    requires x0 < x1
    ensures OnLine(y0, 0, x0, x0, y0, x1, y1)
  {
    assert Abs(y1 - y0) * 0 == 0;
  }

  lemma {:induction false} OnLineIs(y: int, err: int, x: int, x0: int, y0: int, x1: int, y1: int)
    requires x0 <= x && x0 < x1
    ensures var a, adx, k := Abs(y1 - y0), x1 - x0, x - x0;
      OnLine(y, err, x, x0, y0, x1, y1) <==>
        (y == (if y1 < y0 then y0 - (a * k) / adx else y0 + (a * k) / adx) && err == (a * k) % adx)
  {
    Arith.MulMono(Abs(y1 - y0), 0, x - x0);
  }

  lemma {:induction false} TruncatedIs(a: int, b: int)
    requires b > 0
    ensures Abs(Truncated(a, b)) == Abs(a) / b && Truncated(a, b) == (if a < 0 then -(Abs(a) / b) else Abs(a) / b)
    ensures Abs(a) - Abs(Truncated(a, b)) * b == Abs(a) % b
  {
    assert Abs(a) == b * (Abs(a) / b) + Abs(a) % b;
  }

  /** What the loop adds takes the error accumulator from one point of the line to the next. */
  lemma {:induction false} LineStep(y: int, err: int, x: int, x0: int, y0: int, x1: int, y1: int, base: int, sy: int,
                                    ady: int)
    requires x0 <= x && x0 < x1 && OnLine(y, err, x, x0, y0, x1, y1)
    requires base == Truncated(y1 - y0, x1 - x0) && sy == (if y1 < y0 then base - 1 else base + 1)
    requires ady == Abs(y1 - y0) - Abs(base) * (x1 - x0)
    ensures if err + ady >= x1 - x0 then OnLine(y + sy, err + ady - (x1 - x0), x + 1, x0, y0, x1, y1)
            else OnLine(y + base, err + ady, x + 1, x0, y0, x1, y1)
  {
    var a, adx, k := Abs(y1 - y0), x1 - x0, x - x0;
    OnLineIs(y, err, x, x0, y0, x1, y1);
    TruncatedIs(y1 - y0, adx);
    OneFurther(a, adx, k);
    OnLineIs(y + sy, err + ady - adx, x + 1, x0, y0, x1, y1);
    OnLineIs(y + base, err + ady, x + 1, x0, y0, x1, y1);
    hide OnLine, Truncated, Abs;
    var c := a * (x + 1 - x0);
    assert c == a * (k + 1);
  }

  /** The table entry for a height; the index is cut to eight bits. */
  function Level(table: seq<real>, y: int): real
    requires |table| == 256
  {
    table[y % 256]
  }

  /** Multiplies the samples from x0 up to x1, or to n, by the table entries for the predicted heights. */
  method DrawLine(output: array<real>, x0: int, y0: int, x1: int, y1: int, n: int, table: seq<real>)
    requires 0 <= x0 < x1 && n <= output.Length && |table| == 256
    modifies output
    ensures forall x :: 0 <= x < output.Length ==>
      output[x] == if x0 <= x < x1 && x < n then old(output[x]) * Level(table,
          PredictPoint(x, x0, x1, y0, y1)) else old(output[x])
  {
    hide PredictPoint, Level, OnLine, Truncated;
    var dy, adx := y1 - y0, x1 - x0;
    var ady: int := Abs(dy);
    var x, y, err := x0, y0, 0;
    var base := Truncated(dy, adx);
    var sy := if dy < 0 then base - 1 else base + 1;
    ady := ady - Abs(base) * adx;
    var end := if x1 > n then n else x1;
    LineStarts(x0, y0, x1, y1);
    if x < end {
      LineAt(y, err, x, x0, y0, x1, y1, table);
      output[x] := output[x] * table[y % 256];
      x := x + 1;
      while x < end
        invariant x0 < x <= end && OnLine(y, err, x - 1, x0, y0, x1, y1)
        invariant forall i :: 0 <= i < output.Length ==>
          output[i]
            == if x0 <= i < x then old(output[i]) * Level(table, PredictPoint(i, x0, x1, y0, y1)) else old(output[i])
      {
        LineStep(y, err, x - 1, x0, y0, x1, y1, base, sy, ady);
        err := err + ady;
        if err >= adx {
          err := err - adx;
          y := y + sy;
        } else {
          y := y + base;
        }
        LineAt(y, err, x, x0, y0, x1, y1, table);
        output[x] := output[x] * table[y % 256];
        x := x + 1;
      }
    }
  }

  lemma {:induction false} LineAt(y: int, err: int, x: int, x0: int, y0: int, x1: int, y1: int, table: seq<real>)
    requires x0 <= x && x0 < x1 && |table| == 256 && OnLine(y, err, x, x0, y0, x1, y1)
    ensures table[y % 256] == Level(table, PredictPoint(x, x0, x1, y0, y1))
  {
  }

  // ---------------------------------------------------------------------------------------------
  // Amplitudes

  /** The amplitude that a decoded value stands for, given its prediction. */
  function Unwrapped(val: int, pred: int, range: int): int {
    var highroom, lowroom := range - pred, pred;
    var room := if highroom < lowroom then highroom * 2 else lowroom * 2;
    if val == 0 then pred
    else if val >= room then
      if highroom > lowroom then val - lowroom + pred else pred - val + highroom - 1
    else if val % 2 == 1 then pred - (val + 1) / 2
    else pred + val / 2
  }

  /** While there is room on both sides of the prediction the values lead away from it in turn, below and above;
      then they count on along the wider side, and out of the range. */
  lemma {:induction false} UnwrapSides(pred: int, range: int)
    requires 0 <= pred < range
    ensures var room := if range - pred < pred then range - pred else pred;
      && (forall k :: 0 <= k < room ==> Unwrapped(2 * k, pred, range) == pred + k)
      && (forall k :: 1 <= k <= room ==> Unwrapped(2 * k - 1, pred, range) == pred - k)
      && (forall v :: 2 * room <= v ==>
            Unwrapped(v, pred, range) == if pred < range - pred then v else range - 1 - v)
  {
  }

  /** The value an encoder has to write. */
  function Wrapped(y: int, pred: int, range: int): int {
    var highroom, lowroom := range - pred, pred;
    if highroom > lowroom && y >= 2 * lowroom then y
    else if highroom <= lowroom && y < pred - highroom then range - 1 - y
    else if y < pred then 2 * (pred - y) - 1
    else 2 * (y - pred)
  }

  lemma {:induction false} WrapsBack(val: int, pred: int, range: int)
    requires 0 <= val < range && 0 <= pred < range
    ensures 0 <= Unwrapped(val, pred, range) < range && Wrapped(Unwrapped(val, pred, range), pred, range) == val
  {
    if val % 2 == 1 {
      assert (val + 1) / 2 * 2 == val + 1;
    } else {
      assert val / 2 * 2 == val;
    }
  }

  lemma {:induction false} UnwrapsBack(y: int, pred: int, range: int)
    requires 0 <= y < range && 0 <= pred < range
    ensures 0 <= Wrapped(y, pred, range) < range && Unwrapped(Wrapped(y, pred, range), pred, range) == y
  {
    if y < pred {
      assert (2 * (pred - y) - 1) % 2 == 1 && (2 * (pred - y) - 1 + 1) / 2 == pred - y;
    } else {
      assert 2 * (y - pred) % 2 == 0 && 2 * (y - pred) / 2 == y - pred;
    }
  }

  /** For each prediction the values are the amplitudes in another order: nothing leaves the range, every
      amplitude can be written, and in one way only. */
  lemma {:induction false} UnwrapBijective(pred: int, range: int)
    requires 0 <= pred < range
    ensures forall val ::
      0 <= val < range ==>
        0 <= Unwrapped(val, pred, range) < range && Wrapped(Unwrapped(val, pred, range), pred, range) == val
    ensures forall y ::
      0 <= y < range ==> 0 <= Wrapped(y, pred, range) < range && Unwrapped(Wrapped(y, pred, range), pred, range) == y
  {
    hide Unwrapped, Wrapped;
    forall n | 0 <= n < range
      ensures 0 <= Unwrapped(n, pred, range) < range && Wrapped(Unwrapped(n, pred, range), pred, range) == n
      ensures 0 <= Wrapped(n, pred, range) < range && Unwrapped(Wrapped(n, pred, range), pred, range) == n
    {
      WrapsBack(n, pred, range);
      UnwrapsBack(n, pred, range);
    }
  }

  /** What is stored of a number in 16 bits. */
  function Short(x: int): int {
    (x + 0x8000) % 0x1_0000 - 0x8000
  }

  lemma {:induction false} ShortExact(x: int)
    ensures -0x8000 <= Short(x) < 0x8000 && (x - Short(x)) % 0x1_0000 == 0
  {
  }

  /** A value that could not be decoded, which is -1, stands for the prediction; of the others just those from the
      range on leave it. */
  lemma {:induction false} UnwrapExact(val: int, pred: int, range: int)
    requires 0 <= pred < range <= 256 && -1 <= val < 0x8000
    ensures val == -1 ==> Unwrapped(val, pred, range) == pred
    ensures 0 <= Short(Unwrapped(val, pred, range)) < range <==> val < range
    ensures val < range ==> Short(Unwrapped(val, pred, range)) == Unwrapped(val, pred, range)
  {
    var y := Unwrapped(val, pred, range);
    if 0 <= val < range {
      UnwrapBijective(pred, range);
    } else if val >= range {
      BeyondRange(val, pred, range);
    } else {
      assert val == -1 && y == pred;
    }
    hide Unwrapped;
    ShortSame(y);
  }

  lemma {:induction false} BeyondRange(val: int, pred: int, range: int)
    requires 0 <= pred < range <= val
    ensures Unwrapped(val, pred, range) == val || Unwrapped(val, pred, range) == range - 1 - val
  {
  }

  lemma {:induction false} ShortSame(x: int)
    requires -0x8000 <= x < 0x8000
    ensures Short(x) == x
  {
  }

  /** Positions: the first two are the ends, the others are between them, and all are different. */
  ghost predicate PositionsOk(xs: seq<int>) {
    && |xs| >= 2 && xs[0] == 0 < xs[1] && (forall j :: 2 <= j < |xs| ==> 0 < xs[j] < xs[1])
    && forall i, j :: 0 <= i < j < |xs| ==> xs[i] != xs[j]
  }

  /** Of the first n positions, the nearest ones on either side of position n. */
  ghost predicate AreNeighbors(xs: seq<int>, n: nat, low: int, high: int)
    requires n < |xs|
  {
    && 0 <= low < n && 0 <= high < n && xs[low] < xs[n] < xs[high]
    && forall i :: 0 <= i < n ==> xs[i] <= xs[low] || xs[i] >= xs[high]
  }

  method Neighbors(xs: seq<int>, n: nat) returns (plow: nat, phigh: nat)
    requires PositionsOk(xs) && 2 <= n < |xs| && xs[1] < 65536
    ensures AreNeighbors(xs, n, plow, phigh)
  {
    var low, high := -1, 65536;
    plow, phigh := 0, 0;
    for i := 0 to n
      invariant low == -1 || (plow < i && low == xs[plow] < xs[n])
      invariant high == 65536 || (phigh < i && high == xs[phigh] > xs[n])
      invariant i > 0 ==> low >= 0
      invariant i > 1 ==> high < 65536
      invariant low < xs[n] < high && forall k :: 0 <= k < i ==> xs[k] <= low || xs[k] >= high
    {
      if xs[i] > low && xs[i] < xs[n] {
        plow, low := i, xs[i];
      }
      if xs[i] < high && xs[i] > xs[n] {
        phigh, high := i, xs[i];
      }
    }
  }

  /** The amplitudes of a channel are unwrapped from the decoded values, each given its prediction from
      two earlier ones. */
  ghost predicate Amplitudes(xs: seq<int>, neighbors: seq<(nat, nat)>, vals: seq<int>, range: int, ys: seq<int>)
    requires |xs| == |neighbors| == |vals| && NeighborsOk(xs, neighbors)
  {
    |ys| <= |xs| && forall j :: 0 <= j < |ys| ==> AmplitudeAt(xs, neighbors, vals, range, ys, j)
  }

  ghost predicate AmplitudeAt(xs: seq<int>, neighbors: seq<(nat, nat)>, vals: seq<int>, range: int, ys: seq<int>,
                              j: nat)
    requires |xs| == |neighbors| == |vals| && NeighborsOk(xs, neighbors) && j < |ys| <= |xs|
  {
    ys[j] == if j < 2 then vals[j] else Short(Unwrapped(vals[j], Prediction(xs, neighbors, ys, j), range))
  }

  ghost predicate AllIn(s: seq<int>, low: int, high: int) {
    forall j :: 0 <= j < |s| ==> low <= s[j] < high
  }

  /** All amplitudes are in the range if and only if all decoded values are below it. */
  lemma {:induction false} RangeExact(xs: seq<int>, neighbors: seq<(nat, nat)>, vals: seq<int>, range: int,
                                      ys: seq<int>)
    requires |xs| == |neighbors| == |vals| && NeighborsOk(xs, neighbors) && Amplitudes(xs, neighbors, vals, range, ys)
    requires |ys| == |xs| >= 2 && 0 < range <= 256 && AllIn(vals, -1, 0x8000) && AllIn(vals[..2], 0, range)
    ensures AllIn(ys, 0, range) <==> AllIn(vals, -1, range)
  {
    hide Unwrapped, Short, NeighborsOk;
    var j := 0;
    while j < |ys|
      invariant 0 <= j <= |ys| && AllIn(ys[..j], 0, range) && AllIn(vals[..j], -1, range)
    {
      assert AmplitudeAt(xs, neighbors, vals, range, ys, j);
      if j < 2 {
        assert vals[j] == vals[..2][j];
      } else {
        forall k | 0 <= k < j ensures 0 <= ys[k] < range {
          assert ys[k] == ys[..j][k];
        }
        PredictionInside(xs, neighbors, ys, j, range);
        UnwrapExact(vals[j], Prediction(xs, neighbors, ys, j), range);
        if vals[j] >= range {
          return;
        }
      }
      assert ys[..j + 1] == ys[..j] + [ys[j]] && vals[..j + 1] == vals[..j] + [vals[j]];
      j := j + 1;
    }
    assert ys[..j] == ys && vals[..j] == vals;
  }

  ghost predicate NeighborsOk(xs: seq<int>, neighbors: seq<(nat, nat)>) {
    |neighbors| == |xs| && forall j :: 2 <= j < |xs| ==> AreNeighbors(xs, j, neighbors[j].0, neighbors[j].1)
  }

  function Prediction(xs: seq<int>, neighbors: seq<(nat, nat)>, ys: seq<int>, j: nat): int
    requires NeighborsOk(xs, neighbors) && 2 <= j < |xs| && j <= |ys|
  {
    assert AreNeighbors(xs, j, neighbors[j].0, neighbors[j].1);
    PredictPoint(xs[j], xs[neighbors[j].0], xs[neighbors[j].1], ys[neighbors[j].0], ys[neighbors[j].1])
  }

  lemma {:induction false} PredictionInside(xs: seq<int>, neighbors: seq<(nat, nat)>, ys: seq<int>, j: nat, range: int)
    requires NeighborsOk(xs, neighbors) && 2 <= j < |xs| && j <= |ys| && forall k :: 0 <= k < j ==> 0 <= ys[k] < range
    ensures 0 <= Prediction(xs, neighbors, ys, j) < range
  {
    assert AreNeighbors(xs, j, neighbors[j].0, neighbors[j].1);
    PredictBetween(xs[j], xs[neighbors[j].0], xs[neighbors[j].1], ys[neighbors[j].0], ys[neighbors[j].1]);
  }

  lemma {:induction false} OneAmplitude(xs: seq<int>, neighbors: seq<(nat, nat)>, vals: seq<int>, range: int,
                                        ys: seq<int>)
    requires |xs| == |neighbors| == |vals| && NeighborsOk(xs, neighbors) && Amplitudes(xs, neighbors, vals, range, ys)
      && 2 <= |ys| < |xs|
    ensures Amplitudes(xs, neighbors, vals, range,
                       ys + [Short(Unwrapped(vals[|ys|], Prediction(xs, neighbors, ys, |ys|), range))])
  {
    hide Unwrapped, Short, PredictPoint;
    var j, pred := |ys|, Prediction(xs, neighbors, ys, |ys|);
    var longer := ys + [Short(Unwrapped(vals[j], pred, range))];
    forall k | 0 <= k < |longer| ensures AmplitudeAt(xs, neighbors, vals, range, longer, k) {
      if 2 <= k {
        assert AreNeighbors(xs, k, neighbors[k].0, neighbors[k].1);
      }
      assert k < j ==> AmplitudeAt(xs, neighbors, vals, range, ys, k);
    }
  }

  /** Value k is not zero, and j is one of its neighbours. */
  ghost predicate IsUsedBy(neighbors: seq<(nat, nat)>, vals: seq<int>, j: int, k: int) {
    2 <= k < |vals| && k < |neighbors| && vals[k] != 0 && (neighbors[k].0 == j || neighbors[k].1 == j)
  }

  /** A position is on the curve for its own sake or that of one of the first n whose neighbour it is. */
  ghost predicate Used(neighbors: seq<(nat, nat)>, vals: seq<int>, j: nat, n: nat)
    requires j < |vals|
  {
    j < 2 || vals[j] != 0 || exists k :: k < n && IsUsedBy(neighbors, vals, j, k)
  }

  ghost predicate UsedMarked(neighbors: seq<(nat, nat)>, vals: seq<int>, used: seq<bool>, n: nat) {
    n <= |used| == |vals| && forall j :: 0 <= j < n ==> used[j] == Used(neighbors, vals, j, n)
  }

  lemma {:induction false} MarkMore(xs: seq<int>, neighbors: seq<(nat, nat)>, vals: seq<int>, used: seq<bool>, n: nat)
    requires |xs| == |vals| && NeighborsOk(xs, neighbors) && UsedMarked(neighbors, vals, used, n) && 2 <= n < |xs|
    ensures var low, high := neighbors[n].0, neighbors[n].1;
      && low < n && high < n
      && UsedMarked(neighbors, vals,
                    if vals[n] != 0 then used[low := true][high := true][n := true] else used[n := false], n + 1)
  {
    assert AreNeighbors(xs, n, neighbors[n].0, neighbors[n].1);
    forall j | 0 <= j < n
      ensures Used(neighbors, vals, j, n + 1) <==> Used(neighbors, vals, j, n) || IsUsedBy(neighbors, vals, j, n)
    {
    }
    forall k | 2 <= k < n + 1 ensures !IsUsedBy(neighbors, vals, n, k) {
      assert AreNeighbors(xs, k, neighbors[k].0, neighbors[k].1);
    }
    hide AreNeighbors;
    var low, high := neighbors[n].0, neighbors[n].1;
    var marked := if vals[n] != 0 then used[low := true][high := true][n := true] else used[n := false];
    forall j | 0 <= j < n + 1 ensures marked[j] == Used(neighbors, vals, j, n + 1) {
      if j < n {
        assert Used(neighbors, vals, j, n + 1) <==> Used(neighbors, vals, j, n) || IsUsedBy(neighbors, vals, j, n);
        assert used[j] == Used(neighbors, vals, j, n);
      }
    }
  }

  /** Turns the decoded values into amplitudes, in place; those that only repeat their prediction, and
      predict nothing else, are replaced by -1. */
  method Synthesize(xs: seq<int>, neighbors: seq<(nat, nat)>, finalY: array<int>, range: int)
    returns (ghost ys: seq<int>)
    requires PositionsOk(xs) && NeighborsOk(xs, neighbors) && finalY.Length == |xs|
    modifies finalY
    ensures |ys| == |xs| && Amplitudes(xs, neighbors, old(finalY[..]), range, ys)
    ensures forall j :: 0 <= j < |xs| ==> finalY[j] == if Used(neighbors, old(finalY[..]), j, |xs|) then ys[j] else -1
  {
    assert |xs| >= 2 && |neighbors| == |xs|;
    hide Unwrapped, Short, PredictPoint, Amplitudes, UsedMarked, NeighborsOk, Used, PositionsOk;
    ghost var vals := finalY[..];
    ys := vals[..2];
    var used := seq(|xs|, j => j < 2);
    FirstAmplitudes(xs, neighbors, vals, range, used);
    for j := 2 to |xs|
      invariant |ys| == j && Amplitudes(xs, neighbors, vals, range, ys) && |used| == |xs|
        && UsedMarked(neighbors, vals, used, j)
      invariant forall k :: 0 <= k < |xs| ==> finalY[k] == if k < j then ys[k] else vals[k]
    {
      OneAmplitude(xs, neighbors, vals, range, ys);
      MarkMore(xs, neighbors, vals, used, j);
      NeighborsAt(xs, neighbors, j);
      var low, high := neighbors[j].0, neighbors[j].1;
      var pred := PredictPoint(xs[j], xs[low], xs[high], finalY[low], finalY[high]);
      assert pred == Prediction(xs, neighbors, ys, j);
      ys := ys + [Short(Unwrapped(vals[j], pred, range))];
      if finalY[j] != 0 {
        used := used[low := true][high := true][j := true];
      } else {
        used := used[j := false];
      }
      finalY[j] := Short(Unwrapped(finalY[j], pred, range));
    }
    MarkedAll(neighbors, vals, used);
    for j := 0 to |xs|
      invariant forall k :: 0 <= k < |xs| ==> finalY[k] == if k >= j || used[k] then ys[k] else -1
    {
      if !used[j] {
        finalY[j] := -1;
      }
    }
  }

  lemma {:induction false} FirstAmplitudes(xs: seq<int>, neighbors: seq<(nat, nat)>, vals: seq<int>, range: int,
                                           used: seq<bool>)
    requires PositionsOk(xs) && NeighborsOk(xs, neighbors) && |vals| == |xs|
    requires |used| == |xs| && forall j :: 0 <= j < |xs| ==> used[j] == (j < 2)
    ensures |xs| >= 2 && Amplitudes(xs, neighbors, vals, range, vals[..2]) && UsedMarked(neighbors, vals, used, 2)
  {
  }

  lemma {:induction false} NeighborsAt(xs: seq<int>, neighbors: seq<(nat, nat)>, j: nat)
    requires NeighborsOk(xs, neighbors) && 2 <= j < |xs|
    ensures |neighbors| == |xs| && AreNeighbors(xs, j, neighbors[j].0, neighbors[j].1)
  {
  }

  lemma {:induction false} MarkedAll(neighbors: seq<(nat, nat)>, vals: seq<int>, used: seq<bool>)
    requires UsedMarked(neighbors, vals, used, |vals|)
    ensures |used| == |vals| && forall j :: 0 <= j < |vals| ==> used[j] == Used(neighbors, vals, j, |vals|)
  {
  }

  // ---------------------------------------------------------------------------------------------
  // The curve

  datatype Point = Point(x: int, y: int)

  ghost predicate Rising(pts: seq<Point>) {
    forall i, j :: 0 <= i < j < |pts| ==> pts[i].x < pts[j].x
  }

  /** The height at x: on the line between the points around it, or that of the last point. */
  function Curve(pts: seq<Point>, x: int): int
    requires pts != [] && pts[0].x <= x && Rising(pts)
  {
    var last := pts[|pts| - 1];
    if x >= last.x then last.y
    else if x >= pts[|pts| - 2].x then PredictPoint(x, pts[|pts| - 2].x, last.x, pts[|pts| - 2].y, last.y)
    else Curve(pts[..|pts| - 1], x)
  }

  lemma {:induction false} CurveGrows(pts: seq<Point>, p: Point, x: int)
    requires pts != [] && Rising(pts) && pts[|pts| - 1].x < p.x && pts[0].x <= x < p.x
    ensures Rising(pts + [p])
    ensures Curve(pts + [p], x)
      == var last := pts[|pts| - 1]; if x < last.x then Curve(pts, x) else PredictPoint(x, last.x, p.x, last.y, p.y)
  {
    assert (pts + [p])[..|pts|] == pts;
  }

  /** order lists the positions from left to right. */
  ghost predicate Sorted(xs: seq<int>, order: seq<nat>) {
    && |order| == |xs| && (forall q :: 0 <= q < |order| ==> order[q] < |xs|)
    && (forall q, r :: 0 <= q < r < |order| ==> xs[order[q]] < xs[order[r]])
    && (forall j :: 0 <= j < |xs| ==> j in order)
  }

  lemma {:induction false} SortedEnds(xs: seq<int>, order: seq<nat>)
    requires PositionsOk(xs) && Sorted(xs, order)
    ensures order[0] == 0 && order[|order| - 1] == 1
  {
    assert 0 in order && 1 in order;
    var q :| 0 <= q < |order| && order[q] == 0;
    var r :| 0 <= r < |order| && order[r] == 1;
    assert xs[order[0]] <= xs[order[q]];
    var e := order[|order| - 1];
    assert xs[order[r]] <= xs[e];
    assert xs[e] <= xs[1];
  }

  lemma {:induction false} OrderRises(xs: seq<int>, order: seq<nat>)
    requires PositionsOk(xs) && Sorted(xs, order)
    ensures |order| == |xs| >= 2 && xs[0] == 0 && forall q :: 0 <= q < |order| ==> order[q] < |xs|
    ensures forall q :: 1 <= q < |order| ==> xs[order[q - 1]] < xs[order[q]]
  {
  }

  /** The points of the curve among the first q positions: those with an amplitude. */
  function Points(xs: seq<int>, order: seq<nat>, ys: seq<int>, multiplier: nat, q: nat): (pts: seq<Point>)
    requires q <= |order| && |xs| == |ys| && forall k :: 0 <= k < |order| ==> order[k] < |xs|
  {
    if q == 0 then []
    else
      var before, j := Points(xs, order, ys, multiplier, q - 1), order[q - 1];
      if ys[j] >= 0 then before + [Point(xs[j], ys[j] * multiplier)] else before
  }

  lemma {:induction false} PointsRise(xs: seq<int>, order: seq<nat>, ys: seq<int>, multiplier: nat, q: nat)
    requires q <= |order| && |xs| == |ys| && Sorted(xs, order) && 0 < q && ys[order[0]] >= 0
    ensures var pts := Points(xs, order, ys, multiplier, q);
      Rising(pts) && pts != [] && pts[0] == Point(xs[order[0]], ys[order[0]] * multiplier)
        && pts[|pts| - 1].x <= xs[order[q - 1]]
    decreases q
  {
    if q == 1 {
      assert Points(xs, order, ys, multiplier, 0) == [];
    } else {
      PointsRise(xs, order, ys, multiplier, q - 1);
    }
  }

  /** The samples before x are multiplied by the table entries for the curve, and no others. */
  ghost predicate Drawn(before: seq<real>, now: seq<real>, pts: seq<Point>, x: int, table: seq<real>) {
    && |before| == |now| && |table| == 256 && pts != [] && Rising(pts) && pts[0].x == 0
    && (forall i :: 0 <= i < |now| && i < x ==> now[i] == before[i] * Level(table, Curve(pts, i)))
    && (forall i :: 0 <= i < |now| && i >= x ==> now[i] == before[i])
  }

  lemma {:induction false} DrawnMore(before: seq<real>, now: seq<real>, next: seq<real>, pts: seq<Point>, p: Point,
                                     n: int, table: seq<real>)
    requires pts != [] && pts[|pts| - 1].x < p.x && |now| == |next| && n <= |now|
    requires Drawn(before, now, pts, if pts[|pts| - 1].x < n then pts[|pts| - 1].x else n, table)
    requires var last := pts[|pts| - 1]; forall x :: 0 <= x < |now| ==>
      next[x] == if last.x <= x < p.x && x < n then now[x] * Level(table, PredictPoint(x, last.x, p.x, last.y, p.y))
                 else now[x]
    ensures Drawn(before, next, pts + [p], if p.x < n then p.x else n, table)
  {
    hide Level, PredictPoint, Curve;
    assert Rising(pts + [p]) && (pts + [p])[0] == pts[0];
    forall x | 0 <= x < p.x ensures Curve(pts + [p], x) == var last := pts[|pts| - 1];
      if x < last.x then Curve(pts, x) else PredictPoint(x, last.x, p.x, last.y, p.y) {
      CurveGrows(pts, p, x);
    }
  }

  lemma {:induction false} DrawnOut(before: seq<real>, now: seq<real>, next: seq<real>, pts: seq<Point>, n: int,
                                    table: seq<real>)
    requires pts != [] && pts[|pts| - 1].x < n <= |now| == |next| && Drawn(before, now, pts, pts[|pts| - 1].x, table)
    requires 0 <= pts[|pts| - 1].y < 256
    requires forall x ::
      0 <= x < |now| ==> next[x] == if pts[|pts| - 1].x <= x < n then now[x] * table[pts[|pts| - 1].y] else now[x]
    ensures Drawn(before, next, pts, n, table)
  {
    forall x | pts[|pts| - 1].x <= x < n ensures 0 <= x && Level(table, Curve(pts, x)) == table[pts[|pts| - 1].y] {
      assert pts[0].x <= pts[|pts| - 1].x;
    }
    hide Level, Curve;
  }

  /** The last stretch is level. */
  method ScaleRest(target: array<real>, from: nat, n: nat, level: real)
    requires from <= n <= target.Length
    modifies target
    ensures forall x ::
      0 <= x < target.Length ==> target[x] == if from <= x < n then old(target[x]) * level else old(target[x])
  {
    for j := from to n
      invariant forall x ::
        0 <= x < target.Length ==> target[x] == if from <= x < j then old(target[x]) * level else old(target[x])
    {
      target[j] := target[j] * level;
    }
  }

  /** Every one of the n samples is multiplied once, by the table entry for the curve's height. */
  method DoFloor(target: array<real>, n: nat, xs: seq<int>, order: seq<nat>, finalY: seq<int>, multiplier: nat,
                 table: seq<real>)
    requires PositionsOk(xs) && Sorted(xs, order) && |finalY| == |xs| && n <= target.Length && |table| == 256
    requires finalY[0] >= 0 && finalY[1] >= 0 && finalY[1] * multiplier < 256
    modifies target
    ensures Drawn(old(target[..]), target[..], Points(xs, order, finalY, multiplier, |xs|), n, table)
  {
    hide Drawn, PredictPoint, Level, Points, Curve, Rising, Sorted, PositionsOk;
    SortedEnds(xs, order);
    OrderRises(xs, order);
    var lx, ly := 0, finalY[0] * multiplier;
    ghost var pts := Points(xs, order, finalY, multiplier, 1);
    FirstPoint(target[..], xs, order, finalY, multiplier, n, table);
    for q := 1 to |xs|
      invariant pts == Points(xs, order, finalY, multiplier, q) && pts != [] && pts[|pts| - 1] == Point(lx, ly)
      invariant 0 <= lx <= xs[order[q - 1]] && (q == |xs| ==> ly == finalY[1] * multiplier)
      invariant Drawn(old(target[..]), target[..], pts, if lx < n then lx else n, table)
    {
      var j := order[q];
      OnePoint(xs, order, finalY, multiplier, q);
      if finalY[j] >= 0 {
        var hy, hx := finalY[j] * multiplier, xs[j];
        if lx != hx {
          ghost var now := target[..];
          DrawLine(target, lx, ly, hx, hy, n, table);
          DrawnMore(old(target[..]), now, target[..], pts, Point(hx, hy), n, table);
        }
        lx, ly := hx, hy;
        pts := pts + [Point(hx, hy)];
      }
    }
    if lx < n {
      ghost var now := target[..];
      Arith.MulMono(multiplier, 0, finalY[1]);
      ScaleRest(target, lx, n, table[ly]);
      DrawnOut(old(target[..]), now, target[..], pts, n, table);
    }
  }

  lemma {:induction false} FirstPoint(target: seq<real>, xs: seq<int>, order: seq<nat>, ys: seq<int>, multiplier: nat,
                                      n: nat, table: seq<real>)
    requires PositionsOk(xs) && Sorted(xs, order) && |ys| == |xs| && ys[0] >= 0 && order[0] == 0 && |table| == 256
    ensures var pts := Points(xs, order, ys, multiplier, 1);
      pts == [Point(0, ys[0] * multiplier)] && Drawn(target, target, pts, 0, table)
  {
    assert Points(xs, order, ys, multiplier, 0) == [];
  }

  lemma {:induction false} OnePoint(xs: seq<int>, order: seq<nat>, ys: seq<int>, multiplier: nat, q: nat)
    requires q < |order| && |xs| == |ys| && forall k :: 0 <= k < |order| ==> order[k] < |xs|
    ensures Points(xs, order, ys, multiplier, q + 1)
         == if ys[order[q]] >= 0 then Points(xs, order, ys, multiplier,
                                             q) + [Point(xs[order[q]], ys[order[q]] * multiplier)]
            else Points(xs, order, ys, multiplier, q)
  {
  }

  /** The amplitudes' range for a multiplier. */
  function RangeOf(multiplier: nat): (range: nat)
    requires 1 <= multiplier <= 4
  {
    if multiplier == 1 then 256 else if multiplier == 2 then 128 else if multiplier == 3 then 86 else 64
  }

  /** Exactly the amplitudes in range, multiplied, are indices of the table. */
  lemma {:induction false} InTable(multiplier: nat)
    requires 1 <= multiplier <= 4
    ensures forall y: int :: 0 <= y < RangeOf(multiplier) <==> 0 <= y * multiplier < 256
  {
    if multiplier == 1 {
    } else if multiplier == 2 {
    } else if multiplier == 3 {
    } else {
    }
  }

  /** From the decoded values to the scaled samples: they are those of the curve through the unwrapped amplitudes. */
  method ApplyFloor(target: array<real>, n: nat, xs: seq<int>, neighbors: seq<(nat, nat)>, order: seq<nat>,
                    finalY: array<int>,
                    multiplier: nat, table: seq<real>) returns (ghost ys: seq<int>)
    requires PositionsOk(xs) && Sorted(xs, order) && NeighborsOk(xs, neighbors) && n <= target.Length && |table| == 256
    requires 1 <= multiplier <= 4 && finalY.Length == |xs|
      && forall j :: 0 <= j < 2 ==> 0 <= finalY[j] < RangeOf(multiplier)
    modifies finalY, target
    ensures |ys| == |xs| && Amplitudes(xs, neighbors, old(finalY[..]), RangeOf(multiplier), ys)
    ensures var kept := Kept(neighbors, old(finalY[..]), ys);
      Drawn(old(target[..]), target[..], Points(xs, order, kept, multiplier, |xs|), n, table)
  {
    hide Drawn, Points, Sorted, AreNeighbors, AmplitudeAt, Used;
    ghost var vals := finalY[..];
    ys := Synthesize(xs, neighbors, finalY, RangeOf(multiplier));
    assert |xs| >= 2;
    UsedEnds(neighbors, vals);
    EndsKept(xs, neighbors, vals, RangeOf(multiplier), ys);
    InTable(multiplier);
    assert finalY[..] == Kept(neighbors, vals, ys);
    DoFloor(target, n, xs, order, finalY[..], multiplier, table);
  }

  /** The amplitudes of the positions on the curve, and -1 for the others. */
  ghost function Kept(neighbors: seq<(nat, nat)>, vals: seq<int>, ys: seq<int>): (kept: seq<int>)
    requires |vals| == |ys|
    ensures |kept| == |ys|
  {
    seq(|ys|, j requires 0 <= j < |ys| => if Used(neighbors, vals, j, |vals|) then ys[j] else -1)
  }

  lemma {:induction false} UsedEnds(neighbors: seq<(nat, nat)>, vals: seq<int>)
    requires |vals| >= 2
    ensures Used(neighbors, vals, 0, |vals|) && Used(neighbors, vals, 1, |vals|)
  {
  }

  lemma {:induction false} EndsKept(xs: seq<int>, neighbors: seq<(nat, nat)>, vals: seq<int>, range: int, ys: seq<int>)
    requires |xs| == |neighbors| == |vals| && NeighborsOk(xs, neighbors) && Amplitudes(xs, neighbors, vals, range, ys)
      && |ys| >= 2
    ensures ys[0] == vals[0] && ys[1] == vals[1]
  {
    assert AmplitudeAt(xs, neighbors, vals, range, ys, 0) && AmplitudeAt(xs, neighbors, vals, range, ys, 1);
  }
}
