/** The language of a rule taken apart into runs of elements. */
module GrammarSegments {
  import opened Grammar

  /** A run of elements without ends that starts with one of its own. */
  ghost predicate Plain(es: seq<Element>) {
    && (forall i :: 0 <= i < |es| ==> !IsEnd(es[i]))
    && (es != [] ==> es[0].kind in {CHAR, CHAR_NOT, RULE_REF})
    && (forall i :: 0 < i < |es| && es[i].kind == CHAR_RNG_UPPER ==> es[i - 1].kind in {CHAR, CHAR_NOT, CHAR_ALT})
    && (forall i ::
          0 < i < |es| && es[i].kind == CHAR_ALT ==> es[i - 1].kind in {CHAR, CHAR_NOT, CHAR_ALT, CHAR_RNG_UPPER})
  }

  lemma {:induction false} PlainJoin(a: seq<Element>, b: seq<Element>)
    requires Plain(a) && Plain(b)
    ensures Plain(a + b)
  {
    var c := a + b;
    forall i | 0 < i < |c| && c[i].kind == CHAR_RNG_UPPER ensures c[i - 1].kind in {CHAR, CHAR_NOT, CHAR_ALT} {
      assert i < |a| || i - |a| > 0;
    }
    forall i | 0 < i < |c| && c[i].kind == CHAR_ALT
      ensures c[i - 1].kind in {CHAR, CHAR_NOT, CHAR_ALT, CHAR_RNG_UPPER}
    {
      assert i < |a| || i - |a| > 0;
    }
  }

  ghost predicate RuleDerives(rules: seq<Rule>, r: nat, w: Word, n: nat)
    requires RulesOk(rules) && r < |rules|
  {
    exists a: nat :: AltStart(rules[r], a) && DerivesAlt(rules, r, a, w, n)
  }

  /** What a run of elements derives with nesting up to n. */
  ghost predicate Seg(rules: seq<Rule>, es: seq<Element>, w: Word, n: nat)
    requires RulesOk(rules)
    decreases |es|
  {
    if es == [] then w == []
    else if IsChar(es[0]) then w != [] && Accepts(es, 0, w[0]) && ClassEnd(es, 0) <= |es| && Seg(rules,
        es[ClassEnd(es, 0)..], w[1..], n)
    else if es[0].kind == RULE_REF then n > 0 && es[0].value < |rules| && exists k: nat :: RefSeg(rules, es, w, n, k)
    else false
  }

  ghost predicate RefSeg(rules: seq<Rule>, es: seq<Element>, w: Word, n: nat, k: nat)
    requires RulesOk(rules) && es != [] && es[0].value < |rules| && n > 0
    decreases |es|, 0
  {
    k <= |w| && RuleDerives(rules, es[0].value, w[..k], n - 1) && Seg(rules, es[1..], w[k..], n)
  }

  lemma {:induction false} SegNone(rules: seq<Rule>, w: Word, n: nat)
    requires RulesOk(rules)
    ensures Seg(rules, [], w, n) <==> w == []
  {
  }

  lemma {:induction false} SegChar(rules: seq<Rule>, es: seq<Element>, w: Word, n: nat)
    requires RulesOk(rules) && es != [] && IsChar(es[0])
    ensures Seg(rules, es, w, n)
       <==> w != [] && Accepts(es, 0, w[0]) && ClassEnd(es, 0) <= |es| && Seg(rules, es[ClassEnd(es, 0)..], w[1..], n)
  {
  }

  lemma {:induction false} SegHead(rules: seq<Rule>, es: seq<Element>, w: Word, n: nat)
    requires RulesOk(rules) && Seg(rules, es, w, n) && es != []
    ensures IsChar(es[0]) || es[0].kind == RULE_REF
  {
  }

  lemma {:induction false} SegRefSplit(rules: seq<Rule>, es: seq<Element>, w: Word, n: nat) returns (k: nat)
    requires RulesOk(rules) && Seg(rules, es, w, n) && es != [] && es[0].kind == RULE_REF
    ensures n > 0 && es[0].value < |rules| && RefSeg(rules, es, w, n, k)
    ensures k <= |w| && RuleDerives(rules, es[0].value, w[..k], n - 1) && Seg(rules, es[1..], w[k..], n)
  {
    k :| RefSeg(rules, es, w, n, k);
  }

  lemma {:induction false} SegByRef(rules: seq<Rule>, es: seq<Element>, w: Word, n: nat, k: nat)
    requires RulesOk(rules) && es != [] && es[0].kind == RULE_REF && n > 0 && es[0].value < |rules| && k <= |w|
    requires RuleDerives(rules, es[0].value, w[..k], n - 1) && Seg(rules, es[1..], w[k..], n)
    ensures Seg(rules, es, w, n)
  {
    assert RefSeg(rules, es, w, n, k);
  }

  lemma {:induction false} SegMore(rules: seq<Rule>, es: seq<Element>, w: Word, m: nat, n: nat)
    requires RulesOk(rules) && Seg(rules, es, w, m) && m <= n
    ensures Seg(rules, es, w, n)
    decreases |es|
  {
    if es != [] && IsChar(es[0]) {
      SegMore(rules, es[ClassEnd(es, 0)..], w[1..], m, n);
    } else if es != [] {
      var k := SegRefSplit(rules, es, w, m);
      RuleDerivesMore(rules, es[0].value, w[..k], m - 1, n - 1);
      SegMore(rules, es[1..], w[k..], m, n);
      SegByRef(rules, es, w, n, k);
    }
  }

  lemma {:induction false} RuleDerivesMore(rules: seq<Rule>, r: nat, w: Word, m: nat, n: nat)
    requires RulesOk(rules) && r < |rules| && RuleDerives(rules, r, w, m) && m <= n
    ensures RuleDerives(rules, r, w, n)
  {
    var a: nat :| AltStart(rules[r], a) && DerivesAlt(rules, r, a, w, m);
    AltStartOk(rules, r, a);
    DerivesMore(rules, Pos(r, a), w, m, n);
    assert DerivesAlt(rules, r, a, w, n);
  }

  // ---------------------------------------------------------------------------------------------
  // Character classes look the same wherever they stand

  /** What follows does not belong to the class. */
  ghost predicate Closed(rule: Rule, j: nat) {
    j < |rule| ==> rule[j].kind !in {CHAR_ALT, CHAR_RNG_UPPER}
  }

  lemma {:induction false} ClassMoves(rule: Rule, i: nat, es: seq<Element>, k: nat, c: nat)
    requires i + |es| <= |rule| && rule[i..i + |es|] == es && k < |es| && Closed(rule, i + |es|)
    ensures ClassEnd(rule, i + k) == i + ClassEnd(es, k) && ClassEnd(es, k) <= |es|
    ensures Listed(rule, i + k, c) == Listed(es, k, c)
    decreases |es| - k
  {
    assert forall l :: 0 <= l < |es| ==> rule[i + l] == es[l];
    var next := ItemEnd(es, k);
    assert ItemEnd(rule, i + k) == i + next;
    if next < |es| && es[next].kind == CHAR_ALT {
      assert rule[i + next] == es[next];
      ClassMoves(rule, i, es, next, c);
    }
  }

  /** A class at the start of a run goes on in the same way when another run follows. */
  lemma {:induction false} ClassAtHead(a: seq<Element>, b: seq<Element>, c: nat)
    requires a != [] && Closed(b, 0)
    ensures ClassEnd(a + b, 0) == ClassEnd(a, 0) <= |a| && Accepts(a + b, 0, c) == Accepts(a, 0, c)
    ensures (a + b)[ClassEnd(a, 0)..] == a[ClassEnd(a, 0)..] + b
  {
    ClassMoves(a + b, 0, a, 0, c);
  }

  // ---------------------------------------------------------------------------------------------
  // Runs one after another

  ghost predicate SegSplit(rules: seq<Rule>, a: seq<Element>, b: seq<Element>, w: Word, n: nat, k: nat)
    requires RulesOk(rules)
  {
    k <= |w| && Seg(rules, a, w[..k], n) && Seg(rules, b, w[k..], n)
  }

  lemma {:induction false} SegJoin(rules: seq<Rule>, a: seq<Element>, b: seq<Element>, w: Word, n: nat, k: nat)
    requires RulesOk(rules) && Closed(b, 0) && SegSplit(rules, a, b, w, n, k)
    ensures Seg(rules, a + b, w, n)
    decreases |a|
  {
    hide Seg, Accepts, ClassEnd, RulesOk, RuleDerives;
    var es, u := a + b, w[..k];
    if a == [] {
      SegNone(rules, u, n);
      assert es == b && w[k..] == w;
    } else {
      SegHead(rules, a, u, n);
      if IsChar(a[0]) {
        SegChar(rules, a, u, n);
        SegChar(rules, es, w, n);
        ClassAtHead(a, b, w[0]);
        assert w[1..][..k - 1] == u[1..] && w[1..][k - 1..] == w[k..];
        SegJoin(rules, a[ClassEnd(a, 0)..], b, w[1..], n, k - 1);
      } else {
        var l := SegRefSplit(rules, a, u, n);
        assert es[1..] == a[1..] + b && u[..l] == w[..l];
        assert w[l..][..k - l] == u[l..] && w[l..][k - l..] == w[k..];
        SegJoin(rules, a[1..], b, w[l..], n, k - l);
        SegByRef(rules, es, w, n, l);
      }
    }
  }

  lemma {:induction false} SegCut(rules: seq<Rule>, a: seq<Element>, b: seq<Element>, w: Word, n: nat) returns (k: nat)
    requires RulesOk(rules) && Closed(b, 0) && Seg(rules, a + b, w, n)
    ensures SegSplit(rules, a, b, w, n, k)
    decreases |a|
  {
    hide Seg, Accepts, ClassEnd, RulesOk, RuleDerives;
    var es := a + b;
    if a == [] {
      SegNone(rules, w[..0], n);
      assert es == b && w[0..] == w;
      k := 0;
    } else {
      SegHead(rules, es, w, n);
      if IsChar(a[0]) {
        SegChar(rules, es, w, n);
        ClassAtHead(a, b, w[0]);
        var l := SegCut(rules, a[ClassEnd(a, 0)..], b, w[1..], n);
        k := l + 1;
        assert w[..k][1..] == w[1..][..l] && w[k..] == w[1..][l..];
        SegChar(rules, a, w[..k], n);
      } else {
        var l := SegRefSplit(rules, es, w, n);
        assert es[1..] == a[1..] + b;
        var m := SegCut(rules, a[1..], b, w[l..], n);
        k := l + m;
        assert w[..k][..l] == w[..l] && w[..k][l..] == w[l..][..m] && w[k..] == w[l..][m..];
        SegByRef(rules, a, w[..k], n, l);
      }
    }
  }

  /** A single reference derives what its rule does. */
  lemma {:induction false} SegRef(rules: seq<Rule>, r: nat, w: Word, n: nat)
    requires RulesOk(rules) && r < |rules|
    ensures Seg(rules, [Element(RULE_REF, r)], w, n) <==> n > 0 && RuleDerives(rules, r, w, n - 1)
  {
    var es := [Element(RULE_REF, r)];
    assert es[1..] == [] && w[..|w|] == w && w[|w|..] == [];
    if n > 0 && RuleDerives(rules, r, w, n - 1) {
      SegByRef(rules, es, w, n, |w|);
    }
    if Seg(rules, es, w, n) {
      var k := SegRefSplit(rules, es, w, n);
      assert k == |w|;
    }
  }

  // ---------------------------------------------------------------------------------------------
  // A run within a rule

  /** es stand in rule r from i on, and end their alternative. */
  ghost predicate RunAt(rules: seq<Rule>, r: nat, i: nat, es: seq<Element>) {
    && r < |rules| && i + |es| < |rules[r]| && rules[r][i..i + |es|] == es
    && IsEnd(rules[r][i + |es|]) && PosOk(rules, Pos(r, i))
    && forall k :: 0 <= k < |es| ==> !IsEnd(es[k])
  }

  lemma {:induction false} RunDerives(rules: seq<Rule>, r: nat, i: nat, es: seq<Element>, w: Word, n: nat)
    requires RulesOk(rules) && RunAt(rules, r, i, es)
    ensures PosOk(rules, Pos(r, i)) && (Derives(rules, Pos(r, i), w, n) <==> Seg(rules, es, w, n))
    decreases |es|
  {
    if es == [] {
      SegNone(rules, w, n);
    } else if IsChar(es[0]) {
      hide Derives, Seg, RulesOk, ClassEnd, PosOk, Accepts;
      assert rules[r][i] == es[0];
      SegChar(rules, es, w, n);
      DerivesChar(rules, Pos(r, i), w, n);
      if w != [] {
        RunByChar(rules, r, i, es, w);
        var e := ClassEnd(es, 0);
        hide RunAt;
        RunDerives(rules, r, i + e, es[e..], w[1..], n);
      }
    } else {
      RunNext(rules, r, i, es);
      hide *;
      forall v: Word ensures Derives(rules, Pos(r, i + 1), v, n) <==> Seg(rules, es[1..], v, n) {
        RunDerives(rules, r, i + 1, es[1..], v, n);
      }
      RunByRef(rules, r, i, es, w, n);
    }
  }

  lemma {:induction false} RunNext(rules: seq<Rule>, r: nat, i: nat, es: seq<Element>)
    requires RulesOk(rules) && RunAt(rules, r, i, es) && es != [] && !IsChar(es[0])
    ensures RunAt(rules, r, i + 1, es[1..]) && PosOk(rules, Pos(r, i + 1)) && PosOk(rules, Pos(r, i))
    ensures r < |rules| && i < |rules[r]| && rules[r][i] == es[0] && es[0].kind == RULE_REF
  {
    var rule := rules[r];
    assert rule[i] == es[0];
    PosKind(rules, Pos(r, i));
    NextOk(rules, Pos(r, i));
    assert rule[i + 1..i + |es|] == es[1..];
  }

  lemma {:induction false} PosKind(rules: seq<Rule>, p: Pos)
    requires PosOk(rules, p)
    ensures p.rule < |rules| && p.at < |rules[p.rule]|
      && (!IsEnd(At(rules, p)) && !IsChar(At(rules, p)) ==> At(rules, p).kind == RULE_REF)
  {
  }

  lemma {:induction false} DerivesChar(rules: seq<Rule>, p: Pos, w: Word, n: nat)
    requires RulesOk(rules) && PosOk(rules, p) && IsChar(At(rules, p))
    ensures PosOk(rules, Pos(p.rule, ClassEnd(rules[p.rule], p.at)))
    ensures Derives(rules, p, w, n) <==>
      && w != [] && Accepts(rules[p.rule], p.at, w[0])
      && Derives(rules, Pos(p.rule, ClassEnd(rules[p.rule], p.at)), w[1..], n)
  {
    ClassEndOk(rules, p);
  }

  lemma {:induction false} RunByChar(rules: seq<Rule>, r: nat, i: nat, es: seq<Element>, w: Word)
    requires RulesOk(rules) && RunAt(rules, r, i, es) && es != [] && IsChar(es[0]) && w != []
    ensures var e := ClassEnd(es, 0);
      && 0 < e <= |es| && ClassEnd(rules[r], i) == i + e && RunAt(rules, r, i + e, es[e..])
      && PosOk(rules, Pos(r, i + e)) && Accepts(rules[r], i, w[0]) == Accepts(es, 0, w[0])
  {
    assert rules[r][i] == es[0];
    ClassMoves(rules[r], i, es, 0, w[0]);
    ClassEndOk(rules, Pos(r, i));
    var e := ClassEnd(es, 0);
    assert rules[r][i + e..i + |es|] == es[e..];
  }

  lemma {:induction false} RunByRef(rules: seq<Rule>, r: nat, i: nat, es: seq<Element>, w: Word, n: nat)
    requires
      RulesOk(rules) && r < |rules| && i < |rules[r]| && es != [] && rules[r][i] == es[0] && es[0].kind == RULE_REF
    requires PosOk(rules, Pos(r, i)) && PosOk(rules, Pos(r, i + 1))
    requires forall v: Word :: Derives(rules, Pos(r, i + 1), v, n) <==> Seg(rules, es[1..], v, n)
    ensures Derives(rules, Pos(r, i), w, n) <==> Seg(rules, es, w, n)
  {
    var p := Pos(r, i);
    NextOk(rules, p);
    if Derives(rules, p, w, n) {
      var k, a := RefDerives(rules, p, w, n);
      assert DerivesAlt(rules, es[0].value, a, w[..k], n - 1);
      SegByRef(rules, es, w, n, k);
    }
    if Seg(rules, es, w, n) {
      var k := SegRefSplit(rules, es, w, n);
      var a: nat :| AltStart(rules[es[0].value], a) && DerivesAlt(rules, es[0].value, a, w[..k], n - 1);
      AltStartOk(rules, es[0].value, a);
      DerivesByRef(rules, p, w, n, k, a);
    }
  }

  // ---------------------------------------------------------------------------------------------
  // Alternatives

  function Joined(runs: seq<seq<Element>>): seq<Element> {
    if runs == [] then []
    else if |runs| == 1 then runs[0]
    else Joined(runs[..|runs| - 1]) + [Element(ALT, 0)] + runs[|runs| - 1]
  }

  ghost predicate AltsDerive(rules: seq<Rule>, runs: seq<seq<Element>>, w: Word, n: nat)
    requires RulesOk(rules)
  {
    exists i :: 0 <= i < |runs| && Seg(rules, runs[i], w, n)
  }

  ghost predicate AltsPlain(runs: seq<seq<Element>>) {
    forall i :: 0 <= i < |runs| ==> Plain(runs[i])
  }

  /** One of the alternatives that start within the first `len` elements derives w. */
  ghost predicate FirstAltsDerive(rules: seq<Rule>, r: nat, len: nat, w: Word, n: nat)
    requires RulesOk(rules) && r < |rules|
  {
    exists a: nat :: a <= len && AltStart(rules[r], a) && DerivesAlt(rules, r, a, w, n)
  }

  lemma {:induction false} AltStartsJoined(rule: Rule, runs: seq<seq<Element>>, a: nat)
    requires |runs| > 0 && AltsPlain(runs) && |Joined(runs)| < |rule| && rule[..|Joined(runs)|] == Joined(runs)
    ensures |runs| == 1 ==> (a <= |Joined(runs)| && AltStart(rule, a) <==> a == 0)
    ensures |runs| > 1 ==>
      (a <= |Joined(runs)| && AltStart(rule, a) <==>
       (a <= |Joined(runs[..|runs| - 1])| && AltStart(rule, a)) || a == |Joined(runs[..|runs| - 1])| + 1)
  {
    var all, last := Joined(runs), runs[|runs| - 1];
    assert Plain(last);
    assert forall k :: 0 <= k < |all| ==> rule[k] == all[k];
    if |runs| > 1 {
      var before := Joined(runs[..|runs| - 1]);
      assert all == before + [Element(ALT, 0)] + last;
      assert rule[|before|] == Element(ALT, 0);
      assert forall k :: |before| + 1 <= k < |all| ==> rule[k] == last[k - |before| - 1];
    }
  }

  lemma {:induction false} JoinedDerives(rules: seq<Rule>, r: nat, runs: seq<seq<Element>>, w: Word, n: nat)
    requires RulesOk(rules) && r < |rules| && |runs| > 0 && AltsPlain(runs)
    requires
      |Joined(runs)| < |rules[r]| && rules[r][..|Joined(runs)|] == Joined(runs) && IsEnd(rules[r][|Joined(runs)|])
    ensures FirstAltsDerive(rules, r, |Joined(runs)|, w, n) <==> AltsDerive(rules, runs, w, n)
    decreases |runs|
  {
    var rule, all, last := rules[r], Joined(runs), runs[|runs| - 1];
    forall a: nat ensures |runs| == 1 ==> (a <= |all| && AltStart(rule, a) <==> a == 0) {
      AltStartsJoined(rule, runs, a);
    }
    if |runs| == 1 {
      LastAlt(rules, r, 0, last, w, n);
      if Seg(rules, last, w, n) {
        assert AltsDerive(rules, runs, w, n);
        assert 0 <= |all| && AltStart(rule, 0) && DerivesAlt(rules, r, 0, w, n);
      }
    } else {
      var front, b := runs[..|runs| - 1], |Joined(runs[..|runs| - 1])|;
      assert all == Joined(front) + [Element(ALT, 0)] + last;
      assert rule[..b] == Joined(front) && rule[b] == Element(ALT, 0) by {
        assert rule[b] == all[b];
        assert rule[..b] == all[..b];
      }
      JoinedDerives(rules, r, front, w, n);
      assert rule[b + 1..b + 1 + |last|] == last by {
        assert rule[b + 1..|all|] == all[b + 1..];
      }
      LastAlt(rules, r, b + 1, last, w, n);
      forall a: nat ensures a <= |all| && AltStart(rule, a) <==> (a <= b && AltStart(rule, a)) || a == b + 1 {
        AltStartsJoined(rule, runs, a);
      }
      AltsSplit(rules, runs, w, n);
      FirstAltsSplit(rules, r, b, |all|, w, n);
    }
  }

  lemma {:induction false} LastAlt(rules: seq<Rule>, r: nat, a: nat, es: seq<Element>, w: Word, n: nat)
    requires
      RulesOk(rules) && r < |rules| && AltStart(rules[r], a) && a + |es| < |rules[r]| && rules[r][a..a + |es|] == es
    requires IsEnd(rules[r][a + |es|]) && Plain(es)
    ensures DerivesAlt(rules, r, a, w, n) <==> Seg(rules, es, w, n)
  {
    AltStartOk(rules, r, a);
    RunDerives(rules, r, a, es, w, n);
  }

  lemma {:induction false} AltsSplit(rules: seq<Rule>, runs: seq<seq<Element>>, w: Word, n: nat)
    requires RulesOk(rules) && |runs| > 0
    ensures AltsDerive(rules, runs, w, n)
      <==> AltsDerive(rules, runs[..|runs| - 1], w, n) || Seg(rules, runs[|runs| - 1], w, n)
  {
    hide Seg;
    var front := runs[..|runs| - 1];
    if AltsDerive(rules, front, w, n) {
      var i :| 0 <= i < |front| && Seg(rules, front[i], w, n);
      assert runs[i] == front[i];
    }
    if AltsDerive(rules, runs, w, n) {
      var i :| 0 <= i < |runs| && Seg(rules, runs[i], w, n);
      assert i < |front| ==> front[i] == runs[i];
    }
  }

  lemma {:induction false} FirstAltsSplit(rules: seq<Rule>, r: nat, b: nat, len: nat, w: Word, n: nat)
    requires RulesOk(rules) && r < |rules| && b < len
    requires forall a: nat :: a <= len && AltStart(rules[r], a) <==> (a <= b && AltStart(rules[r], a)) || a == b + 1
    ensures AltStart(rules[r], b + 1)
    ensures
      FirstAltsDerive(rules, r, len, w, n) <==> FirstAltsDerive(rules, r, b, w, n) || DerivesAlt(rules, r, b + 1, w, n)
  {
    hide DerivesAlt, AltStart;
    assert b + 1 <= len && AltStart(rules[r], b + 1);
  }

  /** A rule derives what one of its alternatives does. */
  lemma {:induction false} RuleOfRuns(rules: seq<Rule>, r: nat, runs: seq<seq<Element>>, w: Word, n: nat)
    requires
      RulesOk(rules) && r < |rules| && |runs| > 0 && AltsPlain(runs) && rules[r] == Joined(runs) + [Element(END, 0)]
    ensures RuleDerives(rules, r, w, n) <==> AltsDerive(rules, runs, w, n)
  {
    hide DerivesAlt, AltsDerive;
    JoinedDerives(rules, r, runs, w, n);
    if RuleDerives(rules, r, w, n) {
      var a: nat :| AltStart(rules[r], a) && DerivesAlt(rules, r, a, w, n);
      assert a <= |Joined(runs)|;
    }
  }
}
