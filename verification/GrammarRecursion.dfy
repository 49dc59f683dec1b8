/** Left recursion: exactly when following references ends. */
module GrammarRecursion {
  import opened Grammar
  import opened GrammarSegments
  import opened GrammarSyntax
  import opened GrammarMeaning
  import opened GrammarEngine

  /** The rule derives the empty word. */
  ghost predicate Empty(rules: seq<Rule>, q: nat)
    requires RulesOk(rules)
  {
    q < |rules| && RuleLang(rules, q, [])
  }

  ghost predicate EmptyTo(rules: seq<Rule>, r: nat, a: nat, i: nat)
    requires RulesOk(rules) && r < |rules|
  {
    i <= |rules[r]| && forall j :: a <= j < i ==> rules[r][j].kind == RULE_REF && Empty(rules, rules[r][j].value)
  }

  /** Element i of rule r refers to q, behind references to rules that derive the empty word only. */
  ghost predicate LeftRefAt(rules: seq<Rule>, r: nat, q: nat, a: nat, i: nat)
    requires RulesOk(rules)
  {
    && r < |rules| && AltStart(rules[r], a) && a <= i < |rules[r]|
    && EmptyTo(rules, r, a, i) && rules[r][i].kind == RULE_REF && rules[r][i].value == q
  }

  ghost predicate LeftRef(rules: seq<Rule>, r: nat, q: nat)
    requires RulesOk(rules)
  {
    exists a: nat, i: nat :: LeftRefAt(rules, r, q, a, i)
  }

  ghost predicate LeftSteps(rules: seq<Rule>, r: nat, q: nat, n: nat)
    requires RulesOk(rules)
    decreases n
  {
    n > 0 && if n == 1 then LeftRef(rules, r, q) else exists m: nat :: LeftVia(rules, r, m, q, n)
  }

  ghost predicate LeftVia(rules: seq<Rule>, r: nat, m: nat, q: nat, n: nat)
    requires RulesOk(rules) && n > 1
    decreases n, 0
  {
    LeftRef(rules, r, m) && LeftSteps(rules, m, q, n - 1)
  }

  ghost predicate LeftReaches(rules: seq<Rule>, r: nat, q: nat)
    requires RulesOk(rules)
  {
    exists n: nat :: LeftSteps(rules, r, q, n)
  }

  /** Some rule reaches itself at the left. */
  ghost predicate LeftRecursive(rules: seq<Rule>)
    requires RulesOk(rules)
  {
    exists r: nat :: LeftReaches(rules, r, r)
  }

  // ---------------------------------------------------------------------------------------------
  // A ranking rules left recursion out

  lemma {:induction false} EmptyIsNullable(rules: seq<Rule>, rk: Ranking, r: nat, a: nat, i: nat, n: nat)
    requires RulesOk(rules) && NoLeftRecursion(rules, rk) && LeftReach(rules, rk, r, a, i) && PosOk(rules, Pos(r, i))
    requires Derives(rules, Pos(r, i), [], n)
    ensures r in rk.nullable
    decreases n, |rules[r]| - i
  {
    assert LeftEdgeOk(rules, rk, r, i);
    var e := rules[r][i];
    if !IsEnd(e) {
      hide NoLeftRecursion, RulesOk;
      var k, b := RefDerives(rules, Pos(r, i), [], n);
      EmptyIsNullable(rules, rk, e.value, b, b, n - 1);
      EmptyIsNullable(rules, rk, r, a, i + 1, n);
    }
  }

  lemma {:induction false} EmptyNullable(rules: seq<Rule>, rk: Ranking, q: nat)
    requires RulesOk(rules) && NoLeftRecursion(rules, rk) && Empty(rules, q)
    ensures q in rk.nullable
  {
    var a: nat :| AltLang(rules, q, a, []);
    AltStartOk(rules, q, a);
    var n: nat :| Derives(rules, Pos(q, a), [], n);
    hide RulesOk, NoLeftRecursion, Derives;
    EmptyIsNullable(rules, rk, q, a, a, n);
  }

  lemma {:induction false} StepsLower(rules: seq<Rule>, rk: Ranking, r: nat, q: nat, n: nat)
    requires RulesOk(rules) && NoLeftRecursion(rules, rk) && LeftSteps(rules, r, q, n)
    ensures r < |rules| == |rk.rank| && q < |rules| && rk.rank[q] < rk.rank[r]
    decreases n
  {
    if n == 1 {
      RefLowers(rules, rk, r, q);
    } else {
      var m: nat :| LeftVia(rules, r, m, q, n);
      RefLowers(rules, rk, r, m);
      hide NoLeftRecursion, RulesOk;
      StepsLower(rules, rk, m, q, n - 1);
    }
  }

  lemma {:induction false} RefLowers(rules: seq<Rule>, rk: Ranking, r: nat, q: nat)
    requires RulesOk(rules) && NoLeftRecursion(rules, rk) && LeftRef(rules, r, q)
    ensures r < |rules| == |rk.rank| && q < |rules| && rk.rank[q] < rk.rank[r]
  {
    var a: nat, i: nat :| LeftRefAt(rules, r, q, a, i);
    forall j | a <= j < i ensures rules[r][j].kind == RULE_REF && rules[r][j].value in rk.nullable {
      hide NoLeftRecursion, RulesOk;
      EmptyNullable(rules, rk, rules[r][j].value);
    }
    assert LeftReach(rules, rk, r, a, i);
    assert LeftEdgeOk(rules, rk, r, i);
  }

  // ---------------------------------------------------------------------------------------------
  // Without left recursion there is a ranking: by the number of rules reached

  ghost function Reached(rules: seq<Rule>, r: nat): set<nat>
    requires RulesOk(rules)
  {
    set q: nat | 0 <= q < |rules| && LeftReaches(rules, r, q)
  }

  ghost function ReachRanking(rules: seq<Rule>): Ranking
    requires RulesOk(rules)
  {
    Ranking(set q: nat | 0 <= q < |rules| && Empty(rules, q),
            seq(|rules|, r requires 0 <= r < |rules| => |Reached(rules, r)|))
  }

  lemma {:induction false} Smaller(a: set<nat>, b: set<nat>, x: nat)
    requires a <= b && x in b && x !in a
    ensures |a| < |b|
  {
    assert a <= b - {x};
    SubsetSize(a, b - {x});
  }

  lemma {:induction false} SubsetSize(a: set<nat>, b: set<nat>)
    requires a <= b
    ensures |a| <= |b|
    decreases a
  {
    if a != {} {
      var x :| x in a;
      SubsetSize(a - {x}, b - {x});
    }
  }

  lemma {:induction false} ReachStep(rules: seq<Rule>, r: nat, q: nat, n: nat, t: nat)
    requires RulesOk(rules) && LeftRef(rules, r, q) && LeftSteps(rules, q, t, n)
    ensures LeftReaches(rules, r, t)
  {
    assert LeftVia(rules, r, q, t, n + 1);
    assert LeftSteps(rules, r, t, n + 1);
  }

  lemma {:induction false} RefLowersReach(rules: seq<Rule>, r: nat, q: nat)
    requires RulesOk(rules) && !LeftRecursive(rules) && LeftRef(rules, r, q) && q < |rules|
    ensures |Reached(rules, q)| < |Reached(rules, r)|
  {
    hide RulesOk, LeftRef;
    assert LeftSteps(rules, r, q, 1);
    forall t | t in Reached(rules, q) ensures t in Reached(rules, r) {
      var n: nat :| LeftSteps(rules, q, t, n);
      ReachStep(rules, r, q, n, t);
    }
    Smaller(Reached(rules, q), Reached(rules, r), q);
  }

  lemma {:induction false} EmptyFrom(rules: seq<Rule>, r: nat, a: nat, i: nat)
    requires RulesOk(rules) && r < |rules| && a <= i < |rules[r]| && PosOk(rules, Pos(r, a))
    requires EmptyTo(rules, r, a, i) && IsEnd(rules[r][i])
    ensures Lang(rules, Pos(r, a), [])
    decreases i - a
  {
    if a == i {
      LangEnd(rules, Pos(r, a), []);
    } else {
      NextOk(rules, Pos(r, a));
      EmptyFrom(rules, r, a + 1, i);
      hide RulesOk, Lang, RuleLang;
      var none: Word := [];
      assert none[..0] == none && none[0..] == none;
      assert RefSplit(rules, Pos(r, a), none, 0);
      RefJoins(rules, Pos(r, a), none, 0);
    }
  }

  lemma {:induction false} ReachRanks(rules: seq<Rule>)
    requires RulesOk(rules) && !LeftRecursive(rules)
    ensures NoLeftRecursion(rules, ReachRanking(rules))
  {
    var rk := ReachRanking(rules);
    forall r, a, i | LeftReach(rules, rk, r, a, i) ensures LeftEdgeOk(rules, rk, r, i) {
      ReachEdge(rules, r, a, i);
    }
  }

  lemma {:induction false} ReachEdge(rules: seq<Rule>, r: nat, a: nat, i: nat)
    requires RulesOk(rules) && !LeftRecursive(rules) && LeftReach(rules, ReachRanking(rules), r, a, i)
    ensures LeftEdgeOk(rules, ReachRanking(rules), r, i)
  {
    assert RuleOk(rules[r], |rules|);
    hide RulesOk, LeftRecursive, Reached, RuleLang;
    assert EmptyTo(rules, r, a, i);
    AltStartOk(rules, r, a);
    var e := rules[r][i];
    if e.kind == RULE_REF {
      assert LeftRefAt(rules, r, e.value, a, i);
      RefLowersReach(rules, r, e.value);
    } else if IsEnd(e) {
      EmptyFrom(rules, r, a, i);
      EmptyRule(rules, r, a);
    }
  }

  lemma {:induction false} EmptyRule(rules: seq<Rule>, r: nat, a: nat)
    requires
      RulesOk(rules) && r < |rules| && AltStart(rules[r], a) && PosOk(rules, Pos(r, a)) && Lang(rules, Pos(r, a), [])
    ensures Empty(rules, r)
  {
    assert AltLang(rules, r, a, []);
  }

  /** A grammar has a ranking if and only if no rule reaches itself at the left. */
  lemma {:induction false} RankingExact(rules: seq<Rule>)
    requires RulesOk(rules)
    ensures (exists rk :: NoLeftRecursion(rules, rk)) <==> !LeftRecursive(rules)
  {
    if LeftRecursive(rules) {
      var r: nat :| LeftReaches(rules, r, r);
      var n: nat :| LeftSteps(rules, r, r, n);
      forall rk ensures !NoLeftRecursion(rules, rk) {
        if NoLeftRecursion(rules, rk) {
          StepsLower(rules, rk, r, r, n);
        }
      }
    } else {
      ReachRanks(rules);
    }
  }

  // ---------------------------------------------------------------------------------------------
  // Chains of nested calls

  /** From s, following references n deep can lead to t. */
  ghost predicate Chain(rules: seq<Rule>, s: Stack, t: Stack, n: nat)
    decreases n
  {
    if n == 0 then s == t else exists a: nat :: ChainBy(rules, s, a, t, n)
  }

  ghost predicate ChainBy(rules: seq<Rule>, s: Stack, a: nat, t: Stack, n: nat)
    requires n > 0
    decreases n, 0
  {
    RefAlt(rules, s, a) && Chain(rules, Expand(rules, s, a), t, n - 1)
  }

  /** Following references from s goes no deeper than some bound. */
  ghost predicate AdvanceEnds(rules: seq<Rule>, s: Stack) {
    exists bound: nat :: NoDeeper(rules, s, bound)
  }

  ghost predicate NoDeeper(rules: seq<Rule>, s: Stack, bound: nat) {
    forall t, n: nat :: Chain(rules, s, t, n) ==> n <= bound
  }

  lemma {:induction false} ChainMeasure(rules: seq<Rule>, rk: Ranking, s: Stack, t: Stack, n: nat)
    requires RulesOk(rules) && NoLeftRecursion(rules, rk) && StackOk(rules, s) && Chain(rules, s, t, n)
    ensures |rk.rank| == |rules| && n <= Measure(rules, rk, s)
    decreases n
  {
    hide RulesOk, Measure, StackOk, Expand, RefAlt, Chain;
    assert |rk.rank| == |rules|;
    if n > 0 {
      var a := ChainHead(rules, s, t, n);
      ExpandDecreases(rules, rk, s, a);
      ChainMeasure(rules, rk, Expand(rules, s, a), t, n - 1);
    }
  }

  lemma {:induction false} ChainConcat(rules: seq<Rule>, s: Stack, t: Stack, u: Stack, m: nat, n: nat)
    requires Chain(rules, s, t, m) && Chain(rules, t, u, n)
    ensures Chain(rules, s, u, m + n)
    decreases m
  {
    hide Chain, RefAlt, Expand;
    NoChain(rules, s, t);
    if m > 0 {
      var a := ChainHead(rules, s, t, m);
      ChainConcat(rules, Expand(rules, s, a), t, u, m - 1, n);
      ChainMore(rules, s, a, u, m + n);
    }
  }

  lemma {:induction false} NoChain(rules: seq<Rule>, s: Stack, t: Stack)
    ensures Chain(rules, s, t, 0) <==> s == t
  {
  }

  lemma {:induction false} ChainHead(rules: seq<Rule>, s: Stack, t: Stack, n: nat) returns (a: nat)
    requires n > 0 && Chain(rules, s, t, n)
    ensures RefAlt(rules, s, a) && Chain(rules, Expand(rules, s, a), t, n - 1)
  {
    a :| ChainBy(rules, s, a, t, n);
  }

  lemma {:induction false} ChainMore(rules: seq<Rule>, s: Stack, a: nat, t: Stack, n: nat)
    requires n > 0 && RefAlt(rules, s, a) && Chain(rules, Expand(rules, s, a), t, n - 1)
    ensures Chain(rules, s, t, n)
  {
    assert ChainBy(rules, s, a, t, n);
  }

  lemma {:induction false} ChainOnce(rules: seq<Rule>, s: Stack, a: nat)
    requires RefAlt(rules, s, a)
    ensures Chain(rules, s, Expand(rules, s, a), 1)
  {
    hide RefAlt, Expand, Chain;
    NoChain(rules, Expand(rules, s, a), Expand(rules, s, a));
    ChainMore(rules, s, a, Expand(rules, s, a), 1);
  }

  /** Replacing the top by an alternative of its rule. */
  lemma {:induction false} ExpandTop(rules: seq<Rule>, u: Stack, p: Pos, a: nat)
    requires RulesOk(rules) && StackOk(rules, u) && PosOk(rules, p) && At(rules, p).kind == RULE_REF
    requires At(rules, p).value < |rules| && AltStart(rules[At(rules, p).value], a)
    ensures PosOk(rules, Pos(p.rule, p.at + 1)) && PosOk(rules, Pos(At(rules, p).value, a)) && RefAlt(rules, u + [p], a)
    ensures var v := Push(rules, u, Pos(p.rule, p.at + 1));
      StackOk(rules, v) && Expand(rules, u + [p], a) == Push(rules, v, Pos(At(rules, p).value, a))
  {
    NextOk(rules, p);
    AltStartOk(rules, At(rules, p).value, a);
    hide RulesOk;
    assert (u + [p])[..|u|] == u;
  }

  /** What derives the empty word can disappear from the top. */
  lemma {:induction false} Vanish(rules: seq<Rule>, u: Stack, p: Pos, n: nat) returns (len: nat)
    requires RulesOk(rules) && StackOk(rules, u) && PosOk(rules, p) && Derives(rules, p, [], n)
    ensures Chain(rules, Push(rules, u, p), u, len)
    decreases n, |rules[p.rule]| - p.at
  {
    hide RulesOk, Chain, Derives, StackOk, Expand, RefAlt;
    if IsEnd(At(rules, p)) {
      NoChain(rules, u, u);
      len := 0;
    } else {
      EmptyIsRef(rules, p, n);
      var k, b := RefDerives(rules, p, [], n);
      var q, next := At(rules, p).value, Pos(p.rule, p.at + 1);
      NextOk(rules, p);
      ExpandTop(rules, u, p, b);
      ChainOnce(rules, u + [p], b);
      var v := Push(rules, u, next);
      var l1 := Vanish(rules, v, Pos(q, b), n - 1);
      var l2 := Vanish(rules, u, next, n);
      ChainConcat(rules, Push(rules, v, Pos(q, b)), v, u, l1, l2);
      ChainConcat(rules, u + [p], Push(rules, v, Pos(q, b)), u, 1, l1 + l2);
      len := 1 + (l1 + l2);
    }
  }

  lemma {:induction false} EmptyIsRef(rules: seq<Rule>, p: Pos, n: nat)
    requires RulesOk(rules) && PosOk(rules, p) && Derives(rules, p, [], n) && !IsEnd(At(rules, p))
    ensures At(rules, p).kind == RULE_REF
  {
  }

  lemma {:induction false} EmptyDerives(rules: seq<Rule>, q: nat) returns (b: nat, n: nat)
    requires RulesOk(rules) && Empty(rules, q)
    ensures q < |rules| && AltStart(rules[q], b) && PosOk(rules, Pos(q, b)) && Derives(rules, Pos(q, b), [], n)
  {
    b :| AltLang(rules, q, b, []);
    AltStartOk(rules, q, b);
    n :| Derives(rules, Pos(q, b), [], n);
  }

  /** Past a reference to a rule that derives the empty word. */
  lemma {:induction false} PassEmpty(rules: seq<Rule>, u: Stack, r: nat, j: nat) returns (len: nat)
    requires RulesOk(rules) && StackOk(rules, u) && FrameOk(rules, Pos(r, j)) && FrameOk(rules, Pos(r, j + 1))
    requires rules[r][j].kind == RULE_REF && Empty(rules, rules[r][j].value)
    ensures Chain(rules, u + [Pos(r, j)], u + [Pos(r, j + 1)], len)
  {
    hide RulesOk, Chain, Derives, Empty, Expand, RefAlt;
    var p, q := Pos(r, j), rules[r][j].value;
    var b, n := EmptyDerives(rules, q);
    ExpandTop(rules, u, p, b);
    ChainOnce(rules, u + [p], b);
    var v := u + [Pos(r, j + 1)];
    var l := Vanish(rules, v, Pos(q, b), n);
    ChainConcat(rules, u + [p], Push(rules, v, Pos(q, b)), v, 1, l);
    len := 1 + l;
  }

  lemma {:induction false} PassAll(rules: seq<Rule>, u: Stack, r: nat, a: nat, i: nat) returns (len: nat)
    requires RulesOk(rules) && StackOk(rules, u) && r < |rules| && a <= i < |rules[r]| && EmptyTo(rules, r, a, i)
    requires rules[r][i].kind == RULE_REF
    ensures Chain(rules, u + [Pos(r, a)], u + [Pos(r, i)], len)
    decreases i - a
  {
    hide RulesOk, Empty, StackOk;
    if a == i {
      len := 0;
    } else {
      hide Chain;
      var l1 := PassEmpty(rules, u, r, a);
      var l2 := PassAll(rules, u, r, a + 1, i);
      ChainConcat(rules, u + [Pos(r, a)], u + [Pos(r, a + 1)], u + [Pos(r, i)], l1, l2);
      len := l1 + l2;
    }
  }

  /** The top of the stack refers to rule r. */
  ghost predicate RefersTo(rules: seq<Rule>, s: Stack, r: nat) {
    s != [] && StackOk(rules, s) && At(rules, s[|s| - 1]).kind == RULE_REF && At(rules, s[|s| - 1]).value == r
  }

  lemma {:induction false} RefChain(rules: seq<Rule>, s: Stack, r: nat, q: nat) returns (t: Stack, len: nat)
    requires RulesOk(rules) && RefersTo(rules, s, r) && LeftRef(rules, r, q)
    ensures RefersTo(rules, t, q) && len > 0 && Chain(rules, s, t, len)
  {
    hide RulesOk, Empty, Chain, Expand, RefAlt;
    var a: nat, i: nat :| LeftRefAt(rules, r, q, a, i);
    var u, p := TopOf(rules, s, r);
    ExpandTop(rules, u, p, a);
    ChainOnce(rules, s, a);
    var v := Push(rules, u, Pos(p.rule, p.at + 1));
    assert a < i ==> rules[r][a].kind == RULE_REF;
    hide Push;
    var l := PassAll(rules, v, r, a, i);
    t := v + [Pos(r, i)];
    assert Push(rules, v, Pos(r, a)) == v + [Pos(r, a)] by { PushRef(rules, v, Pos(r, a)); }
    ChainConcat(rules, s, v + [Pos(r, a)], t, 1, l);
    len := 1 + l;
  }

  lemma {:induction false} PushRef(rules: seq<Rule>, v: Stack, p: Pos)
    requires p.rule < |rules| && p.at < |rules[p.rule]| && At(rules, p).kind == RULE_REF
    ensures Push(rules, v, p) == v + [p]
  {
  }

  lemma {:induction false} TopOf(rules: seq<Rule>, s: Stack, r: nat) returns (u: Stack, p: Pos)
    requires RefersTo(rules, s, r)
    ensures
      s == u + [p] && StackOk(rules, u) && PosOk(rules, p) && At(rules, p).kind == RULE_REF && At(rules, p).value == r
  {
    u, p := s[..|s| - 1], s[|s| - 1];
  }

  lemma {:induction false} StepsChain(rules: seq<Rule>, s: Stack, r: nat, q: nat, n: nat) returns (t: Stack, len: nat)
    requires RulesOk(rules) && RefersTo(rules, s, r) && LeftSteps(rules, r, q, n)
    ensures RefersTo(rules, t, q) && len > 0 && Chain(rules, s, t, len)
    decreases n
  {
    hide RulesOk, LeftRef, Chain, RefersTo;
    if n == 1 {
      t, len := RefChain(rules, s, r, q);
    } else {
      var m: nat :| LeftVia(rules, r, m, q, n);
      var t1, l1 := RefChain(rules, s, r, m);
      var l2;
      t, l2 := StepsChain(rules, t1, m, q, n - 1);
      ChainConcat(rules, s, t1, t, l1, l2);
      len := l1 + l2;
    }
  }

  /** Around the loop at least count times. */
  lemma {:induction false} LoopChain(rules: seq<Rule>, s: Stack, r: nat, n: nat, count: nat)
    returns (t: Stack, len: nat)
    requires RulesOk(rules) && RefersTo(rules, s, r) && LeftSteps(rules, r, r, n)
    ensures RefersTo(rules, t, r) && len >= count && Chain(rules, s, t, len)
    decreases count
  {
    hide RulesOk, LeftSteps, RefersTo, Chain;
    if count == 0 {
      NoChain(rules, s, s);
      t, len := s, 0;
    } else {
      var t1, l1 := StepsChain(rules, s, r, r, n);
      var l2;
      t, l2 := LoopChain(rules, t1, r, n, count - 1);
      ChainConcat(rules, s, t1, t, l1, l2);
      len := l1 + l2;
    }
  }

  /** Some stack refers to a rule that is reached. */
  lemma {:induction false} ReachedRef(rules: seq<Rule>, r: nat, q: nat, n: nat) returns (s: Stack)
    requires RulesOk(rules) && LeftSteps(rules, r, q, n)
    ensures RefersTo(rules, s, q)
    decreases n
  {
    if n == 1 {
      var a: nat, i: nat :| LeftRefAt(rules, r, q, a, i);
      s := [Pos(r, i)];
    } else {
      var m: nat :| LeftVia(rules, r, m, q, n);
      s := ReachedRef(rules, m, q, n - 1);
    }
  }

  /** Following references ends, whatever the stack, if and only if no rule reaches itself at the left. */
  lemma {:induction false} TerminationExact(rules: seq<Rule>)
    requires RulesOk(rules)
    ensures (forall s :: StackOk(rules, s) ==> AdvanceEnds(rules, s)) <==> !LeftRecursive(rules)
  {
    if LeftRecursive(rules) {
      var r: nat :| LeftReaches(rules, r, r);
      var n: nat :| LeftSteps(rules, r, r, n);
      var s := ReachedRef(rules, r, r, n);
      forall bound: nat ensures !NoDeeper(rules, s, bound) {
        var t, len := LoopChain(rules, s, r, n, bound + 1);
      }
      assert StackOk(rules, s) && !AdvanceEnds(rules, s);
    } else {
      ReachRanks(rules);
      var rk := ReachRanking(rules);
      hide RulesOk, LeftRecursive, NoLeftRecursion, Chain, Measure, StackOk, ReachRanking;
      forall s | StackOk(rules, s) ensures AdvanceEnds(rules, s) {
        ChainMeasure(rules, rk, s, s, 0) by { NoChain(rules, s, s); }
        forall t, n: nat | Chain(rules, s, t, n) ensures n <= Measure(rules, rk, s) {
          ChainMeasure(rules, rk, s, t, n);
        }
        assert NoDeeper(rules, s, Measure(rules, rk, s));
      }
    }
  }

  // ---------------------------------------------------------------------------------------------
  // Repetitions

  /** A run derives the empty word exactly if it consists of references to rules that do. */
  ghost predicate AllEmpty(rules: seq<Rule>, es: seq<Element>)
    requires RulesOk(rules)
  {
    forall j :: 0 <= j < |es| ==> es[j].kind == RULE_REF && Empty(rules, es[j].value)
  }

  lemma {:induction false} SegEmpty(rules: seq<Rule>, es: seq<Element>, n: nat)
    requires RulesOk(rules) && Seg(rules, es, [], n)
    ensures AllEmpty(rules, es)
    decreases |es|
  {
    if es != [] {
      hide RulesOk, Seg, RuleDerives, Empty;
      SegHead(rules, es, [], n);
      if IsChar(es[0]) {
        SegChar(rules, es, [], n);
      }
      var k := SegRefSplit(rules, es, [], n);
      var none: Word := [];
      assert none[..k] == none && none[k..] == none;
      DerivesEmpty(rules, es[0].value, n - 1);
      SegEmpty(rules, es[1..], n);
      forall j | 0 <= j < |es| ensures es[j].kind == RULE_REF && Empty(rules, es[j].value) {
        assert j > 0 ==> es[1..][j - 1] == es[j];
      }
    }
  }

  lemma {:induction false} DerivesEmpty(rules: seq<Rule>, q: nat, n: nat)
    requires RulesOk(rules) && q < |rules| && RuleDerives(rules, q, [], n)
    ensures Empty(rules, q)
  {
    DerivesLang(rules, q, [], n);
  }

  lemma {:induction false} EmptySeg(rules: seq<Rule>, es: seq<Element>) returns (n: nat)
    requires RulesOk(rules) && AllEmpty(rules, es)
    ensures Seg(rules, es, [], n)
    decreases |es|
  {
    if es == [] {
      n := 0;
      SegNone(rules, [], 0);
    } else {
      var m := LangDerives(rules, es[0].value, []);
      forall j | 0 <= j < |es[1..]| ensures es[1..][j].kind == RULE_REF && Empty(rules, es[1..][j].value) {
        assert es[1..][j] == es[j + 1];
      }
      hide RulesOk, Seg, RuleDerives, AllEmpty, Empty, RuleLang;
      var l := EmptySeg(rules, es[1..]);
      n := Max(m + 1, l);
      RuleDerivesMore(rules, es[0].value, [], m, n - 1);
      SegMore(rules, es[1..], [], l, n);
      var none: Word := [];
      assert none[..0] == none && none[0..] == none;
      SegByRef(rules, es, none, n, 0);
    }
  }

  /** The expression can be empty. */
  ghost predicate CanBeEmpty(g: Definitions, e: Expr) {
    exists n: nat :: Means(g, n, e, [])
  }

  lemma {:induction false} EmptyElems(c: Compiled, e: Expr)
    requires CompiledOk(c) && Wired(c, e)
    ensures CanBeEmpty(c.g, e) <==> AllEmpty(c.rules, Elems(e))
  {
    hide CompiledOk, Wired, Means, Seg, Elems;
    CompiledRules(c);
    if CanBeEmpty(c.g, e) {
      var n: nat :| Means(c.g, n, e, []);
      var m := MeansSeg(c, e, [], n);
      SegEmpty(c.rules, Elems(e), m);
    }
    if AllEmpty(c.rules, Elems(e)) {
      var m := EmptySeg(c.rules, Elems(e));
      var n := SegMeans(c, e, [], m);
    }
  }

  lemma {:induction false} CompiledRules(c: Compiled)
    requires CompiledOk(c)
    ensures RulesOk(c.rules)
  {
  }

  /** Elements hold references only if they are one. */
  lemma {:induction false} ElemsRef(e: Expr, j: nat)
    requires j < |Elems(e)| && Elems(e)[j].kind == RULE_REF
    ensures j == 0 && |Elems(e)| == 1
  {
    if e.Class? && e.ranges != [] {
      ClassPlain(if e.negated then CHAR_NOT else CHAR, e.ranges, 0);
    }
  }

  /** The elements of a * or + rule. */
  lemma {:induction false} LoopRule(c: Compiled, e: Expr)
    requires Wired(c, e) && e.Repeat? && e.op != Query
    ensures var es := Elems(e.item);
      && e.id < |c.rules| && |c.rules[e.id]| == |es| + (if e.op == Plus then |es| else 0) + 3
      && (forall j :: 0 <= j < |es| ==> c.rules[e.id][j] == es[j])
      && c.rules[e.id][|es|] == Element(RULE_REF, e.id) && c.rules[e.id][|es| + 1] == Element(ALT, 0)
      && (forall q :: |es| + 2 <= q < |c.rules[e.id]| - 1 ==> c.rules[e.id][q] == es[q - |es| - 2])
      && c.rules[e.id][|c.rules[e.id]| - 1] == Element(END, 0)
      && (forall j :: 0 <= j < |c.rules[e.id]| && c.rules[e.id][j].kind == ALT ==> j == |es| + 1)
  {
    ElemsPlain(e.item);
    var es := Elems(e.item);
    var runs := RepeatRuns(es, e.op, e.id);
    assert runs[..1] == [es + [Element(RULE_REF, e.id)]];
    assert Joined(runs) == es + [Element(RULE_REF, e.id)] + [Element(ALT, 0)] + if e.op == Plus then es else [];
  }

  /** A rule made for * or + is left recursive by itself if and only if what it repeats can be empty. */
  lemma {:induction false} RepetitionLoops(c: Compiled, e: Expr)
    requires CompiledOk(c) && Wired(c, e) && e.Repeat? && e.op != Query && Elems(e.item) != [Element(RULE_REF, e.id)]
    ensures RulesOk(c.rules) && (LeftRef(c.rules, e.id, e.id) <==> CanBeEmpty(c.g, e.item))
  {
    CompiledRules(c);
    LoopRule(c, e);
    assert Wired(c, e.item);
    EmptyElems(c, e.item);
    hide CompiledOk, Wired, CanBeEmpty, RulesOk, Elems, Empty;
    var es, rule := Elems(e.item), c.rules[e.id];
    if AllEmpty(c.rules, es) {
      assert LeftRefAt(c.rules, e.id, e.id, 0, |es|);
    }
    if LeftRef(c.rules, e.id, e.id) {
      var a: nat, i: nat :| LeftRefAt(c.rules, e.id, e.id, a, i);
      LoopEdge(c, e, a, i);
    }
  }

  lemma {:induction false} LoopEdge(c: Compiled, e: Expr, a: nat, i: nat)
    requires RulesOk(c.rules) && Wired(c, e) && e.Repeat? && e.op != Query && Elems(e.item) != [Element(RULE_REF, e.id)]
    requires LeftRefAt(c.rules, e.id, e.id, a, i)
    ensures AllEmpty(c.rules, Elems(e.item))
  {
    hide RulesOk, Wired, Elems, Empty;
    NotItself(e);
    LoopRule(c, e);
    if a > 0 {
      LoopAlt(c, e, a);
    }
  }

  lemma {:induction false} NotItself(e: Expr)
    requires e.Repeat? && Elems(e.item) != [Element(RULE_REF, e.id)]
    ensures
      forall j :: 0 <= j < |Elems(e.item)| ==> !(Elems(e.item)[j].kind == RULE_REF && Elems(e.item)[j].value == e.id)
  {
    forall j | 0 <= j < |Elems(e.item)| && Elems(e.item)[j].kind == RULE_REF ensures Elems(e.item)[j].value != e.id {
      ElemsRef(e.item, j);
      assert Elems(e.item) == [Elems(e.item)[0]];
    }
  }

  lemma {:induction false} LoopAlt(c: Compiled, e: Expr, a: nat)
    requires Wired(c, e) && e.Repeat? && e.op != Query && e.id < |c.rules| && AltStart(c.rules[e.id], a) && a > 0
    ensures a == |Elems(e.item)| + 2
  {
    LoopRule(c, e);
  }

  /** root ::= ("x"*)*, compiled: its rules are those of a grammar, and have no ranking. */
  lemma {:induction false} NestedStarLoops()
    ensures var inner := Repeat(Literal([0x78]), Star, 2);
      var outer := Repeat(Group(One(Then(Nothing, inner)), 1), Star, 3);
      var rules := [[Element(RULE_REF, 3), Element(END, 0)],
                    [Element(RULE_REF, 2), Element(END, 0)],
                    [Element(CHAR, 0x78), Element(RULE_REF, 2), Element(ALT, 0), Element(END, 0)],
                    [Element(RULE_REF, 1), Element(RULE_REF, 3), Element(ALT, 0), Element(END, 0)]];
      var c := Compiled(rules, map["root" := 0], map["root" := One(Then(Nothing, outer))]);
      CompiledOk(c) && LeftRecursive(rules) && forall rk :: !NoLeftRecursion(rules, rk)
  {
    var inner := Repeat(Literal([0x78]), Star, 2);
    var group := Group(One(Then(Nothing, inner)), 1);
    var outer := Repeat(group, Star, 3);
    var rules := [[Element(RULE_REF, 3), Element(END, 0)],
                  [Element(RULE_REF, 2), Element(END, 0)],
                  [Element(CHAR, 0x78), Element(RULE_REF, 2), Element(ALT, 0), Element(END, 0)],
                  [Element(RULE_REF, 1), Element(RULE_REF, 3), Element(ALT, 0), Element(END, 0)]];
    var c := Compiled(rules, map["root" := 0], map["root" := One(Then(Nothing, outer))]);
    NestedWired(c, inner, group, outer);
    NestedEmpty(c.g, inner, group);
    RepetitionLoops(c, outer);
    hide CompiledOk, RulesOk, LeftRef, NoLeftRecursion;
    assert LeftSteps(rules, 3, 3, 1);
    assert LeftReaches(rules, 3, 3);
    RankingExact(rules);
  }

  lemma {:induction false} StarRule(x: Element, id: nat)
    ensures RuleOf(RepeatRuns([x], Star, id)) == [x, Element(RULE_REF, id), Element(ALT, 0), Element(END, 0)]
  {
    var runs := RepeatRuns([x], Star, id);
    assert [x] + [Element(RULE_REF, id)] == [x, Element(RULE_REF, id)];
    assert runs[..1] == [[x, Element(RULE_REF, id)]];
    assert Joined(runs) == Joined(runs[..1]) + [Element(ALT, 0)] + [];
  }

  lemma {:induction false} OneRule(e: Expr, x: Element)
    requires Elems(e) == [x]
    ensures RuleOf(Runs(One(Then(Nothing, e)))) == [x, Element(END, 0)]
  {
    assert ItemElems(Then(Nothing, e)) == [x];
  }

  lemma {:induction false} NestedWired(c: Compiled, inner: Expr, group: Expr, outer: Expr)
    requires inner == Repeat(Literal([0x78]), Star, 2) && group == Group(One(Then(Nothing, inner)), 1)
      && outer == Repeat(group, Star, 3)
    requires c.rules == [[Element(RULE_REF, 3), Element(END, 0)],
                         [Element(RULE_REF, 2), Element(END, 0)],
                         [Element(CHAR, 0x78), Element(RULE_REF, 2), Element(ALT, 0), Element(END, 0)],
                         [Element(RULE_REF, 1), Element(RULE_REF, 3), Element(ALT, 0), Element(END, 0)]]
    requires c.ids == map["root" := 0] && c.g == map["root" := One(Then(Nothing, outer))]
    ensures CompiledOk(c) && Wired(c, outer)
  {
    assert Elems(Literal([0x78])) == [Element(CHAR, 0x78)];
    StarRule(Element(CHAR, 0x78), 2);
    StarRule(Element(RULE_REF, 1), 3);
    OneRule(inner, Element(RULE_REF, 2));
    OneRule(outer, Element(RULE_REF, 3));
    hide RuleOf, RepeatRuns, Runs;
    assert Wired(c, inner);
    assert WiredItems(c, Nothing);
    assert WiredAlts(c, One(Then(Nothing, inner)));
    assert Wired(c, group);
    assert WiredAlts(c, One(Then(Nothing, outer)));
  }

  lemma {:induction false} NestedEmpty(g: Definitions, inner: Expr, group: Expr)
    requires inner == Repeat(Literal([0x78]), Star, 2) && group == Group(One(Then(Nothing, inner)), 1)
    ensures CanBeEmpty(g, group)
  {
    var none: Word := [];
    assert none[..0] == none && none[0..] == none;
    assert Times(g, 0, Literal([0x78]), 0, none);
    assert Means(g, 0, inner, none);
    assert MeansItems(g, 0, Nothing, none);
    assert ItemsSplit(g, 0, Nothing, inner, none, 0);
    assert MeansItems(g, 0, Then(Nothing, inner), none);
    assert Means(g, 0, group, none);
  }
}
