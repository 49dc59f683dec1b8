/** Dynamic time warping: the table of costs and the path through it. */
module Dtw {
  /** The table's border is infinite. */
  datatype Cost = Fin(v: real) | Inf

  predicate Less(a: Cost, b: Cost) {
    a.Fin? && (b.Fin? ==> a.v < b.v)
  }

  function Plus(x: real, c: Cost): Cost {
    if c.Fin? then Fin(x + c.v) else Inf
  }

  datatype Cell = Cell(i: int, j: int)

  ghost predicate Matrix(x: seq<seq<real>>, m: nat) {
    forall i :: 0 <= i < |x| ==> |x[i]| == m
  }

  // ---------------------------------------------------------------------------------------------
  // Paths

  ghost predicate Inside(c: Cell, n: nat, m: nat) {
    0 <= c.i < n && 0 <= c.j < m
  }

  ghost predicate Step(a: Cell, b: Cell) {
    || (b.i == a.i + 1 && b.j == a.j + 1)
    || (b.i == a.i + 1 && b.j == a.j)
    || (b.i == a.i && b.j == a.j + 1)
  }

  /** Unit steps forward, never leaving the n by m matrix. */
  ghost predicate Walk(p: seq<Cell>, n: nat, m: nat) {
    && (forall k :: 0 <= k < |p| ==> Inside(p[k], n, m))
    && (forall k :: 0 <= k < |p| - 1 ==> Step(p[k], p[k + 1]))
  }

  /** A walk through the first n rows and m columns from corner to corner. */
  ghost predicate IsPath(p: seq<Cell>, n: nat, m: nat) {
    Walk(p, n, m) && 0 < |p| && p[0] == Cell(0, 0) && p[|p| - 1] == Cell(n - 1, m - 1)
  }

  function PathCost(x: seq<seq<real>>, m: nat, p: seq<Cell>): real
    requires Matrix(x, m) && forall k :: 0 <= k < |p| ==> Inside(p[k], |x|, m)
  {
    if p == [] then 0.0
    else
      assert Inside(p[|p| - 1], |x|, m);
      PathCost(x, m, p[..|p| - 1]) + x[p[|p| - 1].i][p[|p| - 1].j]
  }

  lemma {:induction false} PathCostFront(x: seq<seq<real>>, m: nat, c: Cell, p: seq<Cell>)
    requires Matrix(x, m) && Inside(c, |x|, m) && forall k :: 0 <= k < |p| ==> Inside(p[k], |x|, m)
    ensures PathCost(x, m, [c] + p) == x[c.i][c.j] + PathCost(x, m, p)
    decreases |p|
  {
    var q := [c] + p;
    if p == [] {
      assert q[..|q| - 1] == [];
    } else {
      PathCostFront(x, m, c, p[..|p| - 1]);
      assert q[..|q| - 1] == [c] + p[..|p| - 1];
      assert q[|q| - 1] == p[|p| - 1];
    }
  }

  /** A path's length is at most what the two sides allow. */
  lemma {:induction false} PathLength(p: seq<Cell>, n: nat, m: nat)
    requires Walk(p, n, m) && 0 < |p| && p[0] == Cell(0, 0)
    ensures |p| <= p[|p| - 1].i + p[|p| - 1].j + 1
    decreases |p|
  {
    if |p| > 1 {
      PathLength(p[..|p| - 1], n, m);
      assert Step(p[|p| - 2], p[|p| - 1]);
    }
  }

  // ---------------------------------------------------------------------------------------------
  // The least cost, and what the table holds

  function Min(a: Cost, b: Cost): Cost {
    if Less(a, b) then a else b
  }

  /** The least cost of a path through the first i rows and j columns. */
  function Best(x: seq<seq<real>>, m: nat, i: nat, j: nat): Cost
    requires Matrix(x, m) && i <= |x| && j <= m
    decreases i + j, i
  {
    if i == 0 && j == 0 then Fin(0.0)
    else if i == 0 || j == 0 then Inf
    else Plus(x[i - 1][j - 1], Min(Best(x, m, i - 1, j - 1), Min(Best(x, m, i - 1, j), Best(x, m, i, j - 1))))
  }

  /** Which neighbour the table goes on from: 0 diagonal, 1 the row before, 2 the column before. */
  function Choice(c0: Cost, c1: Cost, c2: Cost): int {
    if Less(c0, c1) && Less(c0, c2) then 0
    else if Less(c1, c0) && Less(c1, c2) then 1
    else 2
  }

  function Chosen(c0: Cost, c1: Cost, c2: Cost): Cost {
    var t := Choice(c0, c1, c2);
    if t == 0 then c0 else if t == 1 then c1 else c2
  }

  function CostAt(x: seq<seq<real>>, m: nat, i: nat, j: nat): Cost
    requires Matrix(x, m) && i <= |x| && j <= m
    decreases i + j, i
  {
    if i == 0 && j == 0 then Fin(0.0)
    else if i == 0 || j == 0 then Inf
    else Plus(x[i - 1][j - 1], Chosen(CostAt(x, m, i - 1, j - 1), CostAt(x, m, i - 1, j), CostAt(x, m, i, j - 1)))
  }

  function TraceAt(x: seq<seq<real>>, m: nat, i: nat, j: nat): int
    requires Matrix(x, m) && 0 < i <= |x| && 0 < j <= m
  {
    Choice(CostAt(x, m, i - 1, j - 1), CostAt(x, m, i - 1, j), CostAt(x, m, i, j - 1))
  }

  lemma {:induction false} CostFinite(x: seq<seq<real>>, m: nat, i: nat, j: nat)
    requires Matrix(x, m) && 0 < i <= |x| && 0 < j <= m
    ensures CostAt(x, m, i, j).Fin?
    decreases i + j, i
  {
    if i > 1 && j > 1 {
      CostFinite(x, m, i - 1, j - 1);
    }
    if i > 1 {
      CostFinite(x, m, i - 1, j);
    }
    if j > 1 {
      CostFinite(x, m, i, j - 1);
    }
  }

  /** No path is cheaper than Best. */
  lemma {:induction false} BestIsLeast(x: seq<seq<real>>, m: nat, i: nat, j: nat, p: seq<Cell>)
    requires Matrix(x, m) && 0 < i <= |x| && 0 < j <= m && IsPath(p, i, j)
    ensures Best(x, m, i, j).Fin? && Best(x, m, i, j).v <= PathCost(x, m, p)
    decreases |p|
  {
    if |p| == 1 {
      assert p[..0] == [];
      assert Best(x, m, 0, 0) == Fin(0.0) && PathCost(x, m, p[..0]) == 0.0;
      assert Best(x, m, 0, 1) == Inf && Best(x, m, 1, 0) == Inf;
    } else {
      var q, a, b := p[..|p| - 1], p[|p| - 2], p[|p| - 1];
      assert Step(a, b);
      assert Walk(q, a.i + 1, a.j + 1) by {
        forall k | 0 <= k < |q| ensures Inside(q[k], a.i + 1, a.j + 1) {
          OnlyForward(q, i, j, k, |q| - 1);
        }
      }
      BestIsLeast(x, m, a.i + 1, a.j + 1, q);
    }
  }

  lemma {:induction false} OnlyForward(p: seq<Cell>, n: nat, m: nat, k: nat, l: nat)
    requires Walk(p, n, m) && k <= l < |p|
    ensures p[k].i <= p[l].i && p[k].j <= p[l].j
    decreases l - k
  {
    if k < l {
      assert Step(p[k], p[k + 1]);
      OnlyForward(p, n, m, k + 1, l);
    }
  }

  /** The neighbour that the least cost comes from. */
  lemma {:induction false} BestComesFrom(x: seq<seq<real>>, m: nat, i: nat, j: nat) returns (a: nat, b: nat)
    requires Matrix(x, m) && 0 < i <= |x| && 0 < j <= m
    ensures (a == i - 1 && b == j - 1) || (a == i - 1 && b == j) || (a == i && b == j - 1)
    ensures (a == 0 && b == 0) || (a > 0 && b > 0)
    ensures Best(x, m, i, j) == Plus(x[i - 1][j - 1], Best(x, m, a, b))
  {
    var b0, b1, b2 := Best(x, m, i - 1, j - 1), Best(x, m, i - 1, j), Best(x, m, i, j - 1);
    BestFinite(x, m, i, j);
    var least := Min(b0, Min(b1, b2));
    a, b :=
      if least == b0 then i - 1
      else if least == b1 then i - 1 else i, if least == b0 then j - 1 else if least == b1 then j else j - 1;
  }

  lemma {:induction false} BestFinite(x: seq<seq<real>>, m: nat, i: nat, j: nat)
    requires Matrix(x, m) && 0 < i <= |x| && 0 < j <= m
    ensures Best(x, m, i, j).Fin?
    decreases i + j
  {
    if i > 1 {
      BestFinite(x, m, i - 1, j);
    } else if j > 1 {
      BestFinite(x, m, i, j - 1);
    }
  }

  /** ... and one path costs just that. */
  lemma {:induction false} BestIsReached(x: seq<seq<real>>, m: nat, i: nat, j: nat) returns (p: seq<Cell>)
    requires Matrix(x, m) && 0 < i <= |x| && 0 < j <= m
    ensures IsPath(p, i, j) && Best(x, m, i, j) == Fin(PathCost(x, m, p))
    decreases i + j
  {
    var a, b := BestComesFrom(x, m, i, j);
    assert Best(x, m, 0, 0) == Fin(0.0) && PathCost(x, m, []) == 0.0;
    hide Best, IsPath, PathCost, Matrix;
    var q := [];
    if a > 0 {
      q := BestIsReached(x, m, a, b);
    }
    p := q + [Cell(i - 1, j - 1)];
    PathOnward(x, m, a, b, i, j, q);
  }

  lemma {:induction false} PathOnward(x: seq<seq<real>>, m: nat, a: nat, b: nat, i: nat, j: nat, q: seq<Cell>)
    requires Matrix(x, m) && a <= i <= |x| && b <= j <= m && Step(Cell(a, b), Cell(i, j))
    requires if q == [] then a == 0 && b == 0 && i == 1 && j == 1 else IsPath(q, a, b)
    ensures IsPath(q + [Cell(i - 1, j - 1)], i, j)
    ensures PathCost(x, m, q + [Cell(i - 1, j - 1)]) == PathCost(x, m, q) + x[i - 1][j - 1]
  {
    var p := q + [Cell(i - 1, j - 1)];
    assert p[..|p| - 1] == q;
  }

  /** The table never goes below the least cost. */
  lemma {:induction false} CostAboveBest(x: seq<seq<real>>, m: nat, i: nat, j: nat)
    requires Matrix(x, m) && i <= |x| && j <= m
    ensures !Less(CostAt(x, m, i, j), Best(x, m, i, j))
    decreases i + j, i
  {
    hide Less, Plus, Chosen, Choice, Min;
    if i > 0 && j > 0 {
      CostAboveBest(x, m, i - 1, j - 1);
      CostAboveBest(x, m, i - 1, j);
      CostAboveBest(x, m, i, j - 1);
      ChosenAboveMin(x[i - 1][j - 1], CostAt(x, m, i - 1, j - 1), CostAt(x, m, i - 1, j), CostAt(x, m, i, j - 1),
                     Best(x, m, i - 1, j - 1), Best(x, m, i - 1, j), Best(x, m, i, j - 1));
    } else {
      NotLess(CostAt(x, m, i, j));
    }
  }

  lemma {:induction false} NotLess(c: Cost)
    ensures !Less(c, c)
  {
  }

  lemma {:induction false} ChosenAboveMin(v: real, c0: Cost, c1: Cost, c2: Cost, b0: Cost, b1: Cost, b2: Cost)
    requires !Less(c0, b0) && !Less(c1, b1) && !Less(c2, b2)
    ensures !Less(Plus(v, Chosen(c0, c1, c2)), Plus(v, Min(b0, Min(b1, b2))))
  {
  }

  /** Diagonal and row before are equally good and better than the column before: the table then
      takes the column before all the same. */
  ghost predicate Tie(x: seq<seq<real>>, m: nat, i: nat, j: nat)
    requires Matrix(x, m) && 0 < i <= |x| && 0 < j <= m
  {
    CostAt(x, m, i - 1, j - 1) == CostAt(x, m, i - 1, j) && Less(CostAt(x, m, i - 1, j), CostAt(x, m, i, j - 1))
  }

  ghost predicate NoTie(x: seq<seq<real>>, m: nat)
    requires Matrix(x, m)
  {
    forall i, j :: 0 < i <= |x| && 0 < j <= m ==> !Tie(x, m, i, j)
  }

  ghost predicate Minimal(x: seq<seq<real>>, m: nat, i: nat, j: nat)
    requires Matrix(x, m) && i <= |x| && j <= m
  {
    CostAt(x, m, i, j) == Best(x, m, i, j)
  }

  lemma {:induction false} MinimalWithoutTie(x: seq<seq<real>>, m: nat, i: nat, j: nat)
    requires Matrix(x, m) && NoTie(x, m) && i <= |x| && j <= m
    ensures Minimal(x, m, i, j)
    decreases i + j, i
  {
    if i > 0 && j > 0 {
      MinimalWithoutTie(x, m, i - 1, j - 1);
      MinimalWithoutTie(x, m, i - 1, j);
      MinimalWithoutTie(x, m, i, j - 1);
      assert !Tie(x, m, i, j);
    }
  }

  /** The whole table holds least costs exactly if there is no such tie. */
  lemma {:induction false} TableMinimal(x: seq<seq<real>>, m: nat)
    requires Matrix(x, m)
    ensures (forall i, j :: 0 <= i <= |x| && 0 <= j <= m ==> Minimal(x, m, i, j)) <==> NoTie(x, m)
  {
    if NoTie(x, m) {
      forall i, j | 0 <= i <= |x| && 0 <= j <= m ensures Minimal(x, m, i, j) {
        MinimalWithoutTie(x, m, i, j);
      }
    }
    if !NoTie(x, m) {
      var i, j :| 0 < i <= |x| && 0 < j <= m && Tie(x, m, i, j);
      if forall i, j :: 0 <= i <= |x| && 0 <= j <= m ==> Minimal(x, m, i, j) {
        assert Minimal(x, m, i - 1, j - 1) && Minimal(x, m, i - 1, j) && Minimal(x, m, i, j - 1);
        if Best(x, m, i, j - 1).Fin? {
          assert !Minimal(x, m, i, j);
        } else {
          CostFinite(x, m, i, j);
        }
      }
    }
  }

  /** With such a tie the path found can cost more than another. */
  lemma {:induction false} TieMisleads()
    ensures var x := [[0.0, 0.0], [1.0, 0.0]];
      Matrix(x, 2) && CostAt(x, 2, 2, 2) == Fin(1.0) && IsPath([Cell(0, 0), Cell(1, 1)], 2, 2)
      && PathCost(x, 2, [Cell(0, 0), Cell(1, 1)]) == 0.0
  {
    var x := [[0.0, 0.0], [1.0, 0.0]];
    var p := [Cell(0, 0), Cell(1, 1)];
    assert CostAt(x, 2, 1, 1) == Fin(0.0);
    assert CostAt(x, 2, 1, 2) == Fin(0.0);
    assert CostAt(x, 2, 2, 1) == Fin(1.0);
    assert p[..1] == [Cell(0, 0)] && [Cell(0, 0)][..0] == [];
    assert PathCost(x, 2, [Cell(0, 0)]) == 0.0;
  }

  // ---------------------------------------------------------------------------------------------
  // The table, and the way back

  method FillTable(x: seq<seq<real>>, m: nat) returns (cost: array2<Cost>, trace: array2<int>)
    requires Matrix(x, m)
    ensures fresh(cost) && fresh(trace)
    ensures cost.Length0 == trace.Length0 == |x| + 1 && cost.Length1 == trace.Length1 == m + 1
    ensures forall i, j :: 0 <= i <= |x| && 0 <= j <= m ==> cost[i, j] == CostAt(x, m, i, j)
    ensures forall i, j :: 0 < i <= |x| && 0 < j <= m ==> trace[i, j] == TraceAt(x, m, i, j)
  {
    hide CostAt, TraceAt, Less, Plus;
    var n := |x|;
    cost := new Cost[n + 1, m + 1]((_, _) => Inf);
    trace := new int[n + 1, m + 1]((_, _) => -1);
    cost[0, 0] := Fin(0.0);
    Border(x, m);
    for j := 1 to m + 1
      invariant forall k, l :: 0 <= k <= n && 0 <= l <= m && (k == 0 || l < j) ==> cost[k, l] == CostAt(x, m, k, l)
      invariant forall k, l :: 0 < k <= n && 0 < l < j ==> trace[k, l] == TraceAt(x, m, k, l)
    {
      for i := 1 to n + 1
        invariant forall k, l ::
          0 <= k <= n && 0 <= l <= m && (k == 0 || l < j || (l == j && k < i)) ==> cost[k, l] == CostAt(x, m, k, l)
        invariant
          forall k, l :: 0 < k <= n && 0 < l <= m && (l < j || (l == j && k < i)) ==> trace[k, l] == TraceAt(x, m, k, l)
      {
        var c0, c1, c2 := cost[i - 1, j - 1], cost[i - 1, j], cost[i, j - 1];
        var c, t;
        if Less(c0, c1) && Less(c0, c2) {
          c, t := c0, 0;
        } else if Less(c1, c0) && Less(c1, c2) {
          c, t := c1, 1;
        } else {
          c, t := c2, 2;
        }
        CellRule(x, m, i, j);
        cost[i, j] := Plus(x[i - 1][j - 1], c);
        trace[i, j] := t;
      }
    }
  }

  lemma {:induction false} Border(x: seq<seq<real>>, m: nat)
    requires Matrix(x, m)
    ensures CostAt(x, m, 0, 0) == Fin(0.0)
    ensures forall i :: 0 < i <= |x| ==> CostAt(x, m, i, 0) == Inf
    ensures forall j :: 0 < j <= m ==> CostAt(x, m, 0, j) == Inf
  {
  }

  lemma {:induction false} CellRule(x: seq<seq<real>>, m: nat, i: nat, j: nat)
    requires Matrix(x, m) && 0 < i <= |x| && 0 < j <= m
    ensures var c0, c1, c2 := CostAt(x, m, i - 1, j - 1), CostAt(x, m, i - 1, j), CostAt(x, m, i, j - 1);
      CostAt(x, m, i, j) == Plus(x[i - 1][j - 1], Chosen(c0, c1, c2)) && TraceAt(x, m, i, j) == Choice(c0, c1, c2)
  {
    hide Choice, Chosen;
  }

  /** The neighbour the trace leads back to is inside the matrix, or is the corner where the path ends. */
  lemma {:induction false} TraceBack(x: seq<seq<real>>, m: nat, i: nat, j: nat)
    requires Matrix(x, m) && 0 < i <= |x| && 0 < j <= m
    ensures var t := TraceAt(x, m, i, j); var a, b := if t == 2 then i else i - 1, if t == 1 then j else j - 1;
      && (t == 0 || t == 1 || t == 2) && ((a == 0 && b == 0) || (a > 0 && b > 0))
      && CostAt(x, m, i, j) == Plus(x[i - 1][j - 1], CostAt(x, m, a, b))
  {
    CellRule(x, m, i, j);
    Border(x, m);
    if i > 1 {
      CostFinite(x, m, i - 1, j);
    }
    if j > 1 {
      CostFinite(x, m, i, j - 1);
    }
    hide CostAt;
  }

  /** What has been traced back so far goes from cell (i, j) of the table to its end. */
  ghost predicate Traced(x: seq<seq<real>>, m: nat, i: nat, j: nat, p: seq<Cell>)
    requires Matrix(x, m) && 0 < |x| && 0 < m
  {
    && i <= |x| && j <= m && ((i == 0 && j == 0) || (i > 0 && j > 0)) && |p| <= |x| - i + m - j
    && Walk(p, |x|, m)
    && (p == [] ==> i == |x| && j == m)
    && (p != [] ==> p[|p| - 1] == Cell(|x| - 1, m - 1) && Step(Cell(i - 1, j - 1), p[0]))
    && CostAt(x, m, i, j).Fin? && CostAt(x, m, |x|, m) == Fin(PathCost(x, m, p) + CostAt(x, m, i, j).v)
  }

  lemma {:induction false} TraceStep(x: seq<seq<real>>, m: nat, i: nat, j: nat, p: seq<Cell>)
    requires Matrix(x, m) && 0 < |x| && 0 < m && Traced(x, m, i, j, p) && i > 0
    ensures |p| < |x| + m - 1
    ensures var t := TraceAt(x, m, i, j);
      t in {0, 1, 2} && Traced(x, m, if t == 2 then i else i - 1, if t == 1 then j else j - 1, [Cell(i - 1, j - 1)] + p)
  {
    TraceBack(x, m, i, j);
    PathCostFront(x, m, Cell(i - 1, j - 1), p);
    WalkFront(Cell(i - 1, j - 1), p, |x|, m);
    hide CostAt, PathCost, TraceAt, Walk, Matrix;
    var q := [Cell(i - 1, j - 1)] + p;
    assert |q| == |p| + 1 && q[|q| - 1] == if p == [] then q[0] else p[|p| - 1];
  }

  lemma {:induction false} WalkFront(c: Cell, p: seq<Cell>, n: nat, m: nat)
    requires Walk(p, n, m) && Inside(c, n, m) && (p != [] ==> Step(c, p[0]))
    ensures Walk([c] + p, n, m)
  {
    var q := [c] + p;
    forall k | 0 <= k < |q| - 1 ensures Step(q[k], q[k + 1]) {
      if k > 0 {
        assert Step(p[k - 1], p[k]);
      }
    }
  }

  lemma {:induction false} TraceEnds(x: seq<seq<real>>, m: nat, p: seq<Cell>)
    requires Matrix(x, m) && 0 < |x| && 0 < m && Traced(x, m, 0, 0, p)
    ensures IsPath(p, |x|, m) && |p| <= |x| + m - 1 && CostAt(x, m, |x|, m) == Fin(PathCost(x, m, p))
  {
    assert p[0] == Cell(0, 0);
    PathLength(p, |x|, m);
  }

  /** Row k of the trace, from the first one used. */
  ghost function Rows(bt: array2<int>, from: nat): seq<Cell>
    requires bt.Length1 == 2 && from <= bt.Length0
    reads bt
  {
    seq(bt.Length0 - from, k requires 0 <= k < bt.Length0 - from reads bt => Cell(bt[from + k, 0], bt[from + k, 1]))
  }

  ghost function Columns(r: array2<int>): seq<Cell>
    requires r.Length0 == 2
    reads r
  {
    seq(r.Length1, k requires 0 <= k < r.Length1 reads r => Cell(r[0, k], r[1, k]))
  }

  method Transposed(bt: array2<int>, from: nat) returns (r: array2<int>)
    requires bt.Length1 == 2 && from <= bt.Length0
    ensures fresh(r) && r.Length0 == 2 && Columns(r) == Rows(bt, from)
  {
    var columns := bt.Length0 - from;
    r := new int[2, columns];
    for i := 0 to 2
      invariant forall a, k :: 0 <= a < i && 0 <= k < columns ==> r[a, k] == bt[from + k, a]
    {
      for j := 0 to columns
        invariant forall a, k :: 0 <= a < i && 0 <= k < columns ==> r[a, k] == bt[from + k, a]
        invariant forall k :: 0 <= k < j ==> r[i, k] == bt[from + k, i]
      {
        r[i, j] := bt[j + from, i];
      }
    }
  }

  /** The path found is a path from corner to corner that fits the rows reserved for it, costs what the
      table says, and is as cheap as any path if no tie misleads it. */
  method DtwAndBacktrace(x: seq<seq<real>>, m: nat) returns (r: array2<int>)
    requires Matrix(x, m) && 0 < |x| && 0 < m
    ensures r.Length0 == 2 && 0 < r.Length1 <= |x| + m - 1 && IsPath(Columns(r), |x|, m)
    ensures CostAt(x, m, |x|, m) == Fin(PathCost(x, m, Columns(r)))
    ensures NoTie(x, m) ==> forall p :: IsPath(p, |x|, m) ==> PathCost(x, m, Columns(r)) <= PathCost(x, m, p)
  {
    hide CostAt, TraceAt, NoTie, Walk, PathCost, Traced;
    var n := |x|;
    var cost, trace := FillTable(x, m);
    var rows := n + m - 1;
    var bt := new int[rows, 2];
    for i := 0 to m + 1
      invariant forall i, j :: 0 < i <= n && 0 < j <= m ==> trace[i, j] == TraceAt(x, m, i, j)
    {
      trace[0, i] := 2;
    }
    for i := 0 to n + 1
      invariant forall i, j :: 0 < i <= n && 0 < j <= m ==> trace[i, j] == TraceAt(x, m, i, j)
    {
      trace[i, 0] := 1;
    }
    var row, i, j := rows - 1, n, m;
    ghost var p := [];
    TraceStarts(x, m);
    while i > 0 || j > 0
      invariant 0 <= i <= n && 0 <= j <= m && -1 <= row < rows && row + 1 + |p| == rows && Traced(x, m, i, j, p)
      invariant forall i, j :: 0 < i <= n && 0 < j <= m ==> trace[i, j] == TraceAt(x, m, i, j)
      invariant forall k :: 0 <= k < |p| ==> bt[row + 1 + k, 0] == p[k].i && bt[row + 1 + k, 1] == p[k].j
      decreases i + j
    {
      TracedInside(x, m, i, j, p);
      TraceStep(x, m, i, j, p);
      bt[row, 0] := i - 1;
      bt[row, 1] := j - 1;
      p := [Cell(i - 1, j - 1)] + p;
      row := row - 1;
      var t := trace[i, j];
      if t == 0 {
        i, j := i - 1, j - 1;
      } else if t == 1 {
        i := i - 1;
      } else if t == 2 {
        j := j - 1;
      } else {
        assert false;
      }
    }
    TraceEnds(x, m, p);
    assert Rows(bt, row + 1) == p;
    r := Transposed(bt, row + 1);
    if NoTie(x, m) {
      CheapestPath(x, m, p);
    }
  }

  lemma {:induction false} TraceStarts(x: seq<seq<real>>, m: nat)
    requires Matrix(x, m) && 0 < |x| && 0 < m
    ensures Traced(x, m, |x|, m, [])
  {
    CostFinite(x, m, |x|, m);
    hide CostAt;
  }

  lemma {:induction false} TracedInside(x: seq<seq<real>>, m: nat, i: nat, j: nat, p: seq<Cell>)
    requires Matrix(x, m) && 0 < |x| && 0 < m && Traced(x, m, i, j, p)
    ensures i <= |x| && j <= m && (i > 0 <==> j > 0)
  {
  }

  lemma {:induction false} CheapestPath(x: seq<seq<real>>, m: nat, p: seq<Cell>)
    requires Matrix(x, m) && 0 < |x| && 0 < m && NoTie(x, m) && IsPath(p, |x|, m)
      && CostAt(x, m, |x|, m) == Fin(PathCost(x, m, p))
    ensures forall q :: IsPath(q, |x|, m) ==> PathCost(x, m, p) <= PathCost(x, m, q)
  {
    MinimalWithoutTie(x, m, |x|, m);
    forall q | IsPath(q, |x|, m) ensures PathCost(x, m, p) <= PathCost(x, m, q) {
      BestIsLeast(x, m, |x|, m, q);
    }
  }
}
