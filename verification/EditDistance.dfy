/** The edit distance of two strings, computed in two rows. */
module EditDistance {
  /** One step of turning a string into another: a character stands for another or for itself, goes, or comes. */
  datatype Edit = Match(from: char, to: char) | Delete(from: char) | Insert(to: char)

  type Script = seq<Edit>

  function Source(s: Script): string {
    if s == [] then "" else Source(s[..|s| - 1]) + if s[|s| - 1].Insert? then "" else [s[|s| - 1].from]
  }

  function Target(s: Script): string {
    if s == [] then "" else Target(s[..|s| - 1]) + if s[|s| - 1].Delete? then "" else [s[|s| - 1].to]
  }

  function EditCost(e: Edit): nat {
    if e.Match? && e.from == e.to then 0 else 1
  }

  function Cost(s: Script): nat {
    if s == [] then 0 else Cost(s[..|s| - 1]) + EditCost(s[|s| - 1])
  }

  ghost predicate Turns(s: Script, a: string, b: string) {
    Source(s) == a && Target(s) == b
  }

  /** d is the least number of edits that turn a into b. */
  ghost predicate IsDistance(d: nat, a: string, b: string) {
    && (exists s: Script :: Turns(s, a, b) && Cost(s) == d)
    && forall s: Script :: Turns(s, a, b) ==> d <= Cost(s)
  }

  function Min(a: nat, b: nat): nat {
    if b < a then b else a
  }

  function Unequal(a: char, b: char): nat {
    if a == b then 0 else 1
  }

  function Distance(a: string, b: string): nat
    decreases |a| + |b|
  {
    if a == "" then |b|
    else if b == "" then |a|
    else
      var a', b' := a[..|a| - 1], b[..|b| - 1];
      Min(Min(1 + Distance(a, b'), 1 + Distance(a', b)), Distance(a', b') + Unequal(a[|a| - 1], b[|b| - 1]))
  }

  // ---------------------------------------------------------------------------------------------
  // It is the least number of edits

  lemma {:induction false} Append(s: Script, e: Edit)
    ensures Source(s + [e]) == Source(s) + if e.Insert? then "" else [e.from]
    ensures Target(s + [e]) == Target(s) + if e.Delete? then "" else [e.to]
    ensures Cost(s + [e]) == Cost(s) + EditCost(e)
  {
    assert (s + [e])[..|s|] == s;
  }

  lemma {:induction false} OneSided(a: string, b: string)
    ensures Distance(a, b) <= |a| + |b|
    ensures a != "" ==> Distance(a, b) <= 1 + Distance(a[..|a| - 1], b)
    ensures b != "" ==> Distance(a, b) <= 1 + Distance(a, b[..|b| - 1])
    decreases |a| + |b|
  {
    if a != "" && b != "" {
      OneSided(a[..|a| - 1], b);
    }
  }

  /** Every script takes at least that many edits. */
  lemma {:induction false} DistanceIsLeast(s: Script)
    ensures Distance(Source(s), Target(s)) <= Cost(s)
    decreases |s|
  {
    hide Distance, Source, Target, Cost;
    if s == [] {
      NoEdits();
    } else {
      var t, e := s[..|s| - 1], s[|s| - 1];
      DistanceIsLeast(t);
      assert s == t + [e];
      Append(t, e);
      LastEdit(Source(t), Target(t), e);
    }
  }

  lemma {:induction false} NoEdits()
    ensures Distance(Source([]), Target([])) == Cost([]) == 0
  {
  }

  lemma {:induction false} LastEdit(a: string, b: string, e: Edit)
    ensures Distance(a + if e.Insert? then "" else [e.from], b + if e.Delete? then "" else [e.to]) <= Distance(a,
          b) + EditCost(e)
  {
    assert a + "" == a && b + "" == b;
    match e
    case Match(c, d) =>
      assert (a + [c])[..|a|] == a && (b + [d])[..|b|] == b;
    case Delete(c) =>
      assert (a + [c])[..|a|] == a;
      OneSided(a + [c], b);
    case Insert(d) =>
      assert (b + [d])[..|b|] == b;
      OneSided(a, b + [d]);
  }

  lemma {:induction false} LastStep(a: string, b: string)
    requires a != "" && b != ""
    ensures var a', b' := a[..|a| - 1], b[..|b| - 1];
      Distance(a, b)
        == Min(Min(1 + Distance(a, b'), 1 + Distance(a', b)), Distance(a', b') + Unequal(a[|a| - 1], b[|b| - 1]))
  {
  }

  lemma {:induction false} EmptySide(a: string)
    ensures Distance(a, "") == Distance("", a) == |a|
  {
  }

  /** ... and one takes just that many. */
  lemma {:induction false} DistanceIsReached(a: string, b: string) returns (s: Script)
    ensures Turns(s, a, b) && Cost(s) == Distance(a, b)
    decreases |a| + |b|, 2
  {
    if a == "" && b == "" {
      s := [];
      NoEdits();
    } else {
      hide Distance, Cost, Source, Target;
      EmptySide(a);
      EmptySide(b);
      if a == "" {
        EmptySide(b[..|b| - 1]);
        s := Extend(a, b[..|b| - 1], Insert(b[|b| - 1]), a, b);
      } else if b == "" {
        EmptySide(a[..|a| - 1]);
        s := Extend(a[..|a| - 1], b, Delete(a[|a| - 1]), a, b);
      } else {
        s := BothReached(a, b);
      }
    }
  }

  lemma {:induction false} BothReached(a: string, b: string) returns (s: Script)
    requires a != "" && b != ""
    ensures Turns(s, a, b) && Cost(s) == Distance(a, b)
    decreases |a| + |b|, 1
  {
    hide Distance, Cost, Source, Target, Turns;
    LastStep(a, b);
    if Distance(a, b) == 1 + Distance(a, b[..|b| - 1]) {
      s := Extend(a, b[..|b| - 1], Insert(b[|b| - 1]), a, b);
    } else if Distance(a, b) == 1 + Distance(a[..|a| - 1], b) {
      s := Extend(a[..|a| - 1], b, Delete(a[|a| - 1]), a, b);
    } else {
      s := Extend(a[..|a| - 1], b[..|b| - 1], Match(a[|a| - 1], b[|b| - 1]), a, b);
    }
  }

  /** A script for shorter strings and one more edit. */
  lemma {:induction false} Extend(a: string, b: string, e: Edit, a': string, b': string) returns (s: Script)
    requires a' == (if e.Insert? then a else a + [e.from]) && b' == (if e.Delete? then b else b + [e.to])
    ensures Turns(s, a', b') && Cost(s) == Distance(a, b) + EditCost(e)
    decreases |a| + |b|, 3
  {
    hide Distance, Cost, Source, Target;
    var t := DistanceIsReached(a, b);
    s := t + [e];
    Append(t, e);
    assert a + "" == a && b + "" == b;
  }

  lemma {:induction false} DistanceExact(a: string, b: string)
    ensures IsDistance(Distance(a, b), a, b)
  {
    hide Distance, Cost, Source, Target;
    var s := DistanceIsReached(a, b);
    forall t: Script | Turns(t, a, b) ensures Distance(a, b) <= Cost(t) {
      DistanceIsLeast(t);
    }
  }

  // ---------------------------------------------------------------------------------------------
  // It is a metric

  function Reversed(e: Edit): Edit {
    match e
    case Match(c, d) => Match(d, c)
    case Delete(c) => Insert(c)
    case Insert(d) => Delete(d)
  }

  /** Undoing a script takes as many edits. */
  lemma {:induction false} Undo(s: Script) returns (t: Script)
    ensures Turns(t, Target(s), Source(s)) && Cost(t) == Cost(s)
    decreases |s|
  {
    if s == [] {
      t := [];
    } else {
      var u := Undo(s[..|s| - 1]);
      t := u + [Reversed(s[|s| - 1])];
      Append(u, Reversed(s[|s| - 1]));
    }
  }

  /** One script after another takes no more edits than both. */
  lemma {:induction false} Then(s: Script, t: Script) returns (u: Script)
    requires Target(s) == Source(t)
    ensures Turns(u, Source(s), Target(t)) && Cost(u) <= Cost(s) + Cost(t)
    decreases |s| + |t|
  {
    if s != [] && s[|s| - 1].Delete? {
      assert Target(s) == Target(s[..|s| - 1]);
      var w := Then(s[..|s| - 1], t);
      u := w + [s[|s| - 1]];
      Append(w, s[|s| - 1]);
    } else if t != [] && t[|t| - 1].Insert? {
      assert Source(t) == Source(t[..|t| - 1]);
      var w := Then(s, t[..|t| - 1]);
      u := w + [t[|t| - 1]];
      Append(w, t[|t| - 1]);
    } else if s == [] {
      assert t == [];
      u := [];
    } else {
      u := ThenBoth(s, t);
    }
  }

  lemma {:induction false} ThenBoth(s: Script, t: Script) returns (u: Script)
    requires Target(s) == Source(t) && s != [] && !s[|s| - 1].Delete? && (t != [] ==> !t[|t| - 1].Insert?)
    ensures Turns(u, Source(s), Target(t)) && Cost(u) <= Cost(s) + Cost(t)
    decreases |s| + |t|, 0
  {
    var s', t', e, f := s[..|s| - 1], t[..|t| - 1], s[|s| - 1], t[|t| - 1];
    assert Target(s) == Target(s') + [e.to] && Source(t) == Source(t') + [f.from];
    assert Target(s') == Target(s)[..|Target(s)| - 1] && Source(t') == Source(t)[..|Source(t)| - 1];
    var w := Then(s', t');
    if e.Insert? && f.Delete? {
      u := w;
    } else {
      var g := if e.Insert? then Insert(f.to) else if f.Delete? then Delete(e.from) else Match(e.from, f.to);
      u := w + [g];
      Append(w, g);
    }
  }

  /** Distances are symmetric, zero only between equal strings, and satisfy the triangle inequality. */
  lemma {:induction false} Metric(a: string, b: string, c: string)
    ensures Distance(a, b) == Distance(b, a)
    ensures Distance(a, b) == 0 <==> a == b
    ensures Distance(a, c) <= Distance(a, b) + Distance(b, c)
  {
    hide Distance, Cost, Source, Target;
    var s := DistanceIsReached(a, b);
    var t := DistanceIsReached(b, a);
    var s' := Undo(s);
    var t' := Undo(t);
    DistanceIsLeast(s');
    DistanceIsLeast(t');
    var r := DistanceIsReached(b, c);
    var u := Then(s, r);
    DistanceIsLeast(u);
    ZeroIfEqual(a);
    if Distance(a, b) == 0 {
      FreeKeeps(s);
    }
  }

  lemma {:induction false} ZeroIfEqual(a: string)
    ensures Distance(a, a) == 0
    decreases |a|
  {
    if a != "" {
      ZeroIfEqual(a[..|a| - 1]);
    }
  }

  lemma {:induction false} FreeKeeps(s: Script)
    requires Cost(s) == 0
    ensures Source(s) == Target(s)
    decreases |s|
  {
    if s != [] {
      FreeKeeps(s[..|s| - 1]);
    }
  }

  // ---------------------------------------------------------------------------------------------
  // Row by row

  ghost predicate IsRow(row: seq<int>, a: string, b: string) {
    |row| == |b| + 1 && forall j :: 0 <= j <= |b| ==> row[j] == Distance(a, b[..j])
  }

  /** Two rows are enough; they change places after every character of the first string. */
  method Compute(s0: string, s1: string) returns (d: nat)
    ensures IsDistance(d, s0, s1)
  {
    hide Distance, IsDistance;
    var len0, len1 := |s0| + 1, |s1| + 1;
    var col := new int[len1](_ => 0);
    var prevCol := new int[len1](_ => 0);
    for i := 0 to len1
      invariant forall j :: 0 <= j < i ==> prevCol[j] == j
    {
      prevCol[i] := i;
    }
    FirstRow(prevCol[..], s1);
    for i := 0 to len0
      invariant col.Length == prevCol.Length == len1 && col != prevCol && fresh(col) && fresh(prevCol)
      invariant IsRow(prevCol[..], s0[..if i > 0 then i - 1 else 0], s1)
    {
      NextRow(col, prevCol, s0, s1, i);
      col, prevCol := prevCol, col;
    }
    assert s0[..|s0|] == s0 && s1[..|s1|] == s1;
    d := prevCol[len1 - 1];
    DistanceExact(s0, s1);
  }

  lemma {:induction false} FirstRow(row: seq<int>, b: string)
    requires |row| == |b| + 1 && forall j :: 0 <= j <= |b| ==> row[j] == j
    ensures IsRow(row, "", b)
  {
  }

  method NextRow(col: array<int>, prevCol: array<int>, s0: string, s1: string, i: nat)
    requires col != prevCol && col.Length == prevCol.Length == |s1| + 1 && i <= |s0|
    requires IsRow(prevCol[..], s0[..if i > 0 then i - 1 else 0], s1)
    modifies col
    ensures IsRow(col[..], s0[..i], s1)
  {
    hide Distance;
    EmptySide(s0[..i]);
    assert s1[..0] == "";
    col[0] := i;
    for j := 1 to |s1| + 1
      invariant prevCol[..] == old(prevCol[..])
      invariant forall k :: 0 <= k < j ==> col[k] == Distance(s0[..i], s1[..k])
    {
      NextEntry(s0, s1, i, j);
      assert prevCol[..][j] == prevCol[j] && prevCol[..][j - 1] == prevCol[j - 1];
      var diagonal := prevCol[j - 1] + if i > 0 && s0[i - 1] == s1[j - 1] then 0 else 1;
      var side := if 1 + prevCol[j] < 1 + col[j - 1] then 1 + prevCol[j] else 1 + col[j - 1];
      col[j] := if diagonal < side then diagonal else side;
    }
  }

  lemma {:induction false} NextEntry(s0: string, s1: string, i: nat, j: nat)
    requires i <= |s0| && 0 < j <= |s1|
    ensures
      var left, above, corner := Distance(s0[..i], s1[..j - 1]), Distance(s0[..if i > 0 then i - 1 else 0], s1[..j]),
                                       Distance(s0[..if i > 0 then i - 1 else 0], s1[..j - 1]);
      Distance(s0[..i], s1[..j])
        == Min(Min(1 + left, 1 + above), corner + if i > 0 && s0[i - 1] == s1[j - 1] then 0 else 1)
  {
    hide Distance;
    var b := s1[..j];
    assert b[..|b| - 1] == s1[..j - 1];
    if i > 0 {
      var a := s0[..i];
      assert a[..|a| - 1] == s0[..i - 1];
      LastStep(a, b);
    } else {
      assert s0[..0] == "";
      EmptySide(b);
      EmptySide(s1[..j - 1]);
    }
  }
}
