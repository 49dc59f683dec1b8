/** The pushdown recogniser that follows a grammar. */
module GrammarEngine {
  import opened Grammar

  // ---------------------------------------------------------------------------------------------
  // No left recursion: what makes following references end

  /** A witness: the rules that may derive nothing, and a rank that every reference at the left edge
      of a rule, behind nullable ones only, lowers. */
  datatype Ranking = Ranking(nullable: set<nat>, rank: seq<nat>)

  ghost predicate AllNullable(rule: Rule, nullable: set<nat>, a: nat, i: nat) {
    i <= |rule| && forall j :: a <= j < i ==> rule[j].kind == RULE_REF && rule[j].value in nullable
  }

  /** Element i of rule r is reached from alternative a without matching a character. */
  ghost predicate LeftReach(rules: seq<Rule>, rk: Ranking, r: nat, a: nat, i: nat) {
    r < |rules| && AltStart(rules[r], a) && a <= i < |rules[r]| && AllNullable(rules[r], rk.nullable, a, i)
  }

  ghost predicate NoLeftRecursion(rules: seq<Rule>, rk: Ranking) {
    |rk.rank| == |rules| && forall r, a, i :: LeftReach(rules, rk, r, a, i) ==> LeftEdgeOk(rules, rk, r, i)
  }

  /** Such a reference is to a rule of lower rank, and a rule with such an end may derive nothing. */
  ghost predicate LeftEdgeOk(rules: seq<Rule>, rk: Ranking, r: nat, i: nat) {
    r < |rules| == |rk.rank| && i < |rules[r]| &&
    var e := rules[r][i];
    && (e.kind == RULE_REF ==> e.value < |rules| && rk.rank[e.value] < rk.rank[r])
    && (IsEnd(e) ==> r in rk.nullable)
  }

  /** Nothing need be matched from i to the end of the sequence. */
  ghost predicate NullableFrom(rule: Rule, nullable: set<nat>, i: nat)
    requires i < |rule|
    decreases |rule| - i
  {
    IsEnd(rule[i])
    || (rule[i].kind == RULE_REF && rule[i].value in nullable && i + 1 < |rule| && NullableFrom(rule, nullable, i + 1))
  }

  /** How many references can be followed from i on, those to rules of rank limit and more left out. */
  ghost function Weight(rules: seq<Rule>, rk: Ranking, r: nat, i: nat, limit: nat): nat
    requires |rk.rank| == |rules| && r < |rules| && i < |rules[r]|
    decreases limit, 0, |rules[r]| - i
  {
    var e := rules[r][i];
    if e.kind == RULE_REF then
      (if e.value < |rules| && rk.rank[e.value] < limit then RuleWeight(rules, rk, e.value) else 0)
      + (if e.value in rk.nullable && i + 1 < |rules[r]| then Weight(rules, rk, r, i + 1, limit) else 0)
    else 0
  }

  ghost function RuleWeight(rules: seq<Rule>, rk: Ranking, r: nat): nat
    requires |rk.rank| == |rules| && r < |rules|
    decreases rk.rank[r], 2, 0
  {
    1 + AltWeight(rules, rk, r, |rules[r]|)
  }

  /** Summed over the alternatives that start below n. */
  ghost function AltWeight(rules: seq<Rule>, rk: Ranking, r: nat, n: nat): nat
    requires |rk.rank| == |rules| && r < |rules| && n <= |rules[r]|
    decreases rk.rank[r], 1, n
  {
    if n == 0 then 0
    else AltWeight(rules, rk, r, n - 1)
         + if AltStart(rules[r], n - 1) then Weight(rules, rk, r, n - 1, rk.rank[r]) else 0
  }

  ghost function MaxRank(rank: seq<nat>): (m: nat)
    ensures forall r :: 0 <= r < |rank| ==> rank[r] < m
  {
    if rank == [] then 0
    else var m := MaxRank(rank[..|rank| - 1]); if rank[|rank| - 1] < m then m else rank[|rank| - 1] + 1
  }

  ghost function FrameWeight(rules: seq<Rule>, rk: Ranking, p: Pos): nat
    requires |rk.rank| == |rules| && PosOk(rules, p)
  {
    Weight(rules, rk, p.rule, p.at, MaxRank(rk.rank))
  }

  /** The measure of a stack: frames below one that must match a character do not count. */
  ghost function Measure(rules: seq<Rule>, rk: Ranking, s: Stack): nat
    requires |rk.rank| == |rules| && StackOk(rules, s)
  {
    if s == [] then 0
    else
      var p := s[|s| - 1];
      FrameWeight(rules, rk, p)
      + if NullableFrom(rules[p.rule], rk.nullable, p.at) then Measure(rules, rk, s[..|s| - 1]) else 0
  }

  lemma {:induction false} AltWeightBound(rules: seq<Rule>, rk: Ranking, r: nat, a: nat, n: nat)
    requires |rk.rank| == |rules| && r < |rules| && AltStart(rules[r], a) && a < n <= |rules[r]|
    ensures Weight(rules, rk, r, a, rk.rank[r]) <= AltWeight(rules, rk, r, n)
    decreases n
  {
    if a < n - 1 {
      AltWeightBound(rules, rk, r, a, n - 1);
    }
  }

  /** At the left edge of a rule every reference counts, whatever the limit above the rule's rank. */
  lemma {:induction false} LeftEdgeWeight(rules: seq<Rule>, rk: Ranking, r: nat, a: nat, i: nat)
    requires NoLeftRecursion(rules, rk) && LeftReach(rules, rk, r, a, i)
    ensures Weight(rules, rk, r, i, MaxRank(rk.rank)) == Weight(rules, rk, r, i, rk.rank[r])
    decreases |rules[r]| - i
  {
    assert LeftEdgeOk(rules, rk, r, i);
    var e := rules[r][i];
    if e.kind == RULE_REF && e.value in rk.nullable && i + 1 < |rules[r]| {
      LeftEdgeWeight(rules, rk, r, a, i + 1);
    }
  }

  lemma {:induction false} LeftEdgeNullable(rules: seq<Rule>, rk: Ranking, r: nat, a: nat, i: nat)
    requires NoLeftRecursion(rules, rk) && LeftReach(rules, rk, r, a, i) && NullableFrom(rules[r], rk.nullable, i)
    ensures r in rk.nullable
    decreases |rules[r]| - i
  {
    assert LeftEdgeOk(rules, rk, r, i);
    if !IsEnd(rules[r][i]) {
      LeftEdgeNullable(rules, rk, r, a, i + 1);
    }
  }

  lemma {:induction false} MeasurePush(rules: seq<Rule>, rk: Ranking, s: Stack, p: Pos)
    requires |rk.rank| == |rules| && StackOk(rules, s) && PosOk(rules, p)
    ensures StackOk(rules, Push(rules, s, p))
    ensures Measure(rules, rk, Push(rules, s, p))
         == FrameWeight(rules, rk, p) + if NullableFrom(rules[p.rule], rk.nullable, p.at) then Measure(rules, rk,
             s) else 0
  {
    if !IsEnd(At(rules, p)) {
      assert (s + [p])[..|s|] == s;
    }
  }

  /** The top of the stack is a reference. */
  ghost predicate RefOnTop(rules: seq<Rule>, s: Stack) {
    s != [] && StackOk(rules, s) && At(rules, s[|s| - 1]).kind == RULE_REF
  }

  /** ... to a rule that has an alternative starting at a. */
  ghost predicate RefAlt(rules: seq<Rule>, s: Stack, a: nat) {
    && RefOnTop(rules, s) && s[|s| - 1].rule < |rules| && s[|s| - 1].at + 1 < |rules[s[|s| - 1].rule]|
    && At(rules, s[|s| - 1]).value < |rules| && AltStart(rules[At(rules, s[|s| - 1]).value], a)
  }

  /** The rule it refers to. */
  ghost function TopRule(rules: seq<Rule>, s: Stack, a: nat): (rule: Rule)
    requires RefAlt(rules, s, a)
    ensures a < |rule| && AltStart(rule, a)
  {
    rules[At(rules, s[|s| - 1]).value]
  }

  /** The stack that remains when the reference on top is replaced by alternative a of its rule. */
  ghost function Expand(rules: seq<Rule>, s: Stack, a: nat): Stack
    requires RefAlt(rules, s, a)
  {
    var p := s[|s| - 1];
    Push(rules, Push(rules, s[..|s| - 1], Pos(p.rule, p.at + 1)), Pos(At(rules, p).value, a))
  }

  lemma {:induction false} ExpandOk(rules: seq<Rule>, s: Stack, a: nat)
    requires RulesOk(rules) && RefAlt(rules, s, a)
    ensures PosOk(rules, Pos(s[|s| - 1].rule, s[|s| - 1].at + 1)) && PosOk(rules, Pos(At(rules, s[|s| - 1]).value, a))
    ensures StackOk(rules, Expand(rules, s, a))
  {
    var p := s[|s| - 1];
    NextOk(rules, p);
    AltStartOk(rules, At(rules, p).value, a);
  }

  lemma {:induction false} FirstAlt(rules: seq<Rule>, s: Stack)
    requires RulesOk(rules) && RefOnTop(rules, s)
    ensures RefAlt(rules, s, 0)
  {
    NextOk(rules, s[|s| - 1]);
    assert RuleOk(rules[At(rules, s[|s| - 1]).value], |rules|);
  }

  /** Following a reference lowers the measure. */
  lemma {:induction false} ExpandDecreases(rules: seq<Rule>, rk: Ranking, s: Stack, a: nat)
    requires RulesOk(rules) && NoLeftRecursion(rules, rk) && RefAlt(rules, s, a)
    ensures StackOk(rules, Expand(rules, s, a)) && Measure(rules, rk, Expand(rules, s, a)) < Measure(rules, rk, s)
  {
    hide RulesOk, NoLeftRecursion, Measure, StackOk, PosOk, RefAlt;
    ExpandOk(rules, s, a);
    var rest, p := Unstack(rules, s, a);
    ExpandMeasure(rules, rk, s, rest, p, Pos(p.rule, p.at + 1), Pos(At(rules, p).value, a));
  }

  lemma {:induction false} Unstack(rules: seq<Rule>, s: Stack, a: nat) returns (rest: Stack, p: Pos)
    requires RefAlt(rules, s, a)
    ensures s != [] && rest == s[..|s| - 1] && p == s[|s| - 1] && s == rest + [p]
    ensures StackOk(rules, s) && StackOk(rules, rest) && PosOk(rules, p) && At(rules, p).kind == RULE_REF
    ensures At(rules, p).value < |rules| && AltStart(rules[At(rules, p).value], a)
  {
    rest, p := s[..|s| - 1], s[|s| - 1];
  }

  lemma {:induction false} ExpandMeasure(rules: seq<Rule>, rk: Ranking, s: Stack, rest: Stack, p: Pos, next: Pos,
                                         sub: Pos)
    requires
      RulesOk(rules) && NoLeftRecursion(rules, rk) && StackOk(rules, rest) && StackOk(rules, s) && s == rest + [p]
    requires PosOk(rules, p) && PosOk(rules, next) && PosOk(rules, sub) && AltStart(rules[sub.rule], sub.at)
    requires At(rules, p) == Element(RULE_REF, sub.rule) && next == Pos(p.rule, p.at + 1)
    ensures StackOk(rules, Push(rules, Push(rules, rest, next), sub))
    ensures Measure(rules, rk, Push(rules, Push(rules, rest, next), sub)) < Measure(rules, rk, s)
  {
    TopMeasure(rules, rk, s, rest, p);
    hide RulesOk, NoLeftRecursion, NullableFrom, FrameWeight, RuleWeight, Measure, StackOk, PosOk, AltStart, Push;
    MeasurePush(rules, rk, rest, next);
    MeasurePush(rules, rk, Push(rules, rest, next), sub);
    RefWeight(rules, rk, p);
    AlternativeWeight(rules, rk, sub);
  }

  lemma {:induction false} TopMeasure(rules: seq<Rule>, rk: Ranking, s: Stack, rest: Stack, p: Pos)
    requires |rk.rank| == |rules| && StackOk(rules, rest) && StackOk(rules, s) && s == rest + [p] && PosOk(rules, p)
    ensures Measure(rules, rk, s)
         == FrameWeight(rules, rk, p) + if NullableFrom(rules[p.rule], rk.nullable, p.at) then Measure(rules, rk,
             rest) else 0
  {
    assert s[..|s| - 1] == rest;
  }

  lemma {:induction false} RefWeight(rules: seq<Rule>, rk: Ranking, p: Pos)
    requires RulesOk(rules) && |rk.rank| == |rules| && PosOk(rules, p) && At(rules, p).kind == RULE_REF
    ensures PosOk(rules, Pos(p.rule, p.at + 1)) && At(rules, p).value < |rules|
    ensures FrameWeight(rules, rk, p)
         == RuleWeight(rules, rk, At(rules, p).value)
            + if At(rules, p).value in rk.nullable then FrameWeight(rules, rk, Pos(p.rule, p.at + 1)) else 0
    ensures NullableFrom(rules[p.rule], rk.nullable, p.at)
        <==> At(rules, p).value in rk.nullable && NullableFrom(rules[p.rule], rk.nullable, p.at + 1)
  {
    NextOk(rules, p);
    hide RulesOk, RuleWeight;
  }

  lemma {:induction false} AlternativeWeight(rules: seq<Rule>, rk: Ranking, sub: Pos)
    requires NoLeftRecursion(rules, rk) && PosOk(rules, sub) && AltStart(rules[sub.rule], sub.at)
    ensures FrameWeight(rules, rk, sub) < RuleWeight(rules, rk, sub.rule)
    ensures NullableFrom(rules[sub.rule], rk.nullable, sub.at) ==> sub.rule in rk.nullable
  {
    AltWeightBound(rules, rk, sub.rule, sub.at, |rules[sub.rule]|);
    LeftEdgeWeight(rules, rk, sub.rule, sub.at, sub.at);
    if NullableFrom(rules[sub.rule], rk.nullable, sub.at) {
      LeftEdgeNullable(rules, rk, sub.rule, sub.at, sub.at);
    }
  }

  // ---------------------------------------------------------------------------------------------
  // Following the references on top of a stack

  /** The end of the sequence that i belongs to. */
  function SeqEnd(rule: Rule, i: nat): (e: nat)
    requires i < |rule|
    ensures i <= e < |rule| && (IsEnd(rule[e]) || e == |rule| - 1)
    ensures forall j :: i <= j < e ==> !IsEnd(rule[j])
    decreases |rule| - i
  {
    if IsEnd(rule[i]) || i == |rule| - 1 then i else SeqEnd(rule, i + 1)
  }

  /** Where the alternative behind a starts, 0 if there is none. */
  ghost function NextAlt(rules: seq<Rule>, s: Stack, a: nat): nat
    requires RefAlt(rules, s, a)
  {
    var e := SeqEnd(TopRule(rules, s, a), a);
    if TopRule(rules, s, a)[e].kind == ALT && e + 1 < |TopRule(rules, s, a)| then e + 1 else 0
  }

  /** All stacks with a character on top that the stack stands for. */
  ghost function Advance(rules: seq<Rule>, rk: Ranking, s: Stack): seq<Stack>
    requires RulesOk(rules) && NoLeftRecursion(rules, rk) && StackOk(rules, s)
    decreases Measure(rules, rk, s), 1, 0
  {
    if s == [] then [[]]
    else if At(rules, s[|s| - 1]).kind != RULE_REF then [s]
    else FirstAlt(rules, s); AdvanceFrom(rules, rk, s, 0)
  }

  /** ... by the alternatives from a on. */
  ghost function AdvanceFrom(rules: seq<Rule>, rk: Ranking, s: Stack, a: nat): seq<Stack>
    requires RulesOk(rules) && NoLeftRecursion(rules, rk) && RefAlt(rules, s, a)
    decreases Measure(rules, rk, s), 0, |TopRule(rules, s, a)| - a
  {
    hide *;
    AdvanceSafe(rules, rk, s, a);
    var first := Advance(rules, rk, Expand(rules, s, a));
    if NextAlt(rules, s, a) == 0 then first else first + AdvanceFrom(rules, rk, s, NextAlt(rules, s, a))
  }

  lemma {:induction false} AdvanceSafe(rules: seq<Rule>, rk: Ranking, s: Stack, a: nat)
    requires RulesOk(rules) && NoLeftRecursion(rules, rk) && RefAlt(rules, s, a)
    ensures StackOk(rules, s) && |rk.rank| == |rules|
    ensures StackOk(rules, Expand(rules, s, a)) && Measure(rules, rk, Expand(rules, s, a)) < Measure(rules, rk, s)
    ensures NextAlt(rules, s, a) != 0 ==>
      && RefAlt(rules, s, NextAlt(rules, s, a)) && NextAlt(rules, s, a) > a
      && TopRule(rules, s, NextAlt(rules, s, a)) == TopRule(rules, s, a)
  {
    hide RulesOk, Measure, StackOk, Expand;
    ExpandDecreases(rules, rk, s, a);
  }

  ghost predicate Settled(rules: seq<Rule>, s: Stack) {
    StackOk(rules, s) && (s == [] || IsChar(At(rules, s[|s| - 1])))
  }

  ghost predicate AllSettled(rules: seq<Rule>, stacks: seq<Stack>) {
    forall i :: 0 <= i < |stacks| ==> Settled(rules, stacks[i])
  }

  /** Every stack that comes out is empty or has a character on top, and there is at least one. */
  lemma {:induction false} AdvanceSettles(rules: seq<Rule>, rk: Ranking, s: Stack)
    requires RulesOk(rules) && NoLeftRecursion(rules, rk) && StackOk(rules, s)
    ensures |Advance(rules, rk, s)| > 0 && AllSettled(rules, Advance(rules, rk, s))
    decreases Measure(rules, rk, s), 1, 0
  {
    if s != [] && At(rules, s[|s| - 1]).kind == RULE_REF {
      FirstAlt(rules, s);
      AdvanceFromSettles(rules, rk, s, 0);
    }
  }

  lemma {:induction false} AdvanceFromSettles(rules: seq<Rule>, rk: Ranking, s: Stack, a: nat)
    requires RulesOk(rules) && NoLeftRecursion(rules, rk) && RefAlt(rules, s, a)
    ensures |AdvanceFrom(rules, rk, s, a)| > 0 && AllSettled(rules, AdvanceFrom(rules, rk, s, a))
    decreases Measure(rules, rk, s), 0, |TopRule(rules, s, a)| - a
  {
    hide RulesOk, NoLeftRecursion, AllSettled, Advance, Measure, StackOk, Expand, RefAlt, TopRule, NextAlt;
    AdvanceSafe(rules, rk, s, a);
    var next := NextAlt(rules, s, a);
    AdvanceSettles(rules, rk, Expand(rules, s, a));
    if next != 0 {
      AdvanceFromSettles(rules, rk, s, next);
      SettledConcat(rules, Advance(rules, rk, Expand(rules, s, a)), AdvanceFrom(rules, rk, s, next));
    }
  }

  lemma {:induction false} SettledConcat(rules: seq<Rule>, a: seq<Stack>, b: seq<Stack>)
    ensures AllSettled(rules, a + b) <==> AllSettled(rules, a) && AllSettled(rules, b)
  {
    hide Settled;
    if AllSettled(rules, a + b) {
      forall i | 0 <= i < |a| ensures Settled(rules, a[i]) {
        assert a[i] == (a + b)[i];
      }
      forall i | 0 <= i < |b| ensures Settled(rules, b[i]) {
        assert b[i] == (a + b)[|a| + i];
      }
    }
  }

  // ---------------------------------------------------------------------------------------------
  // The language is preserved

  ghost predicate AltExpandLang(rules: seq<Rule>, s: Stack, w: Word, a: nat)
    requires RulesOk(rules)
  {
    RefAlt(rules, s, a) && (ExpandOk(rules, s, a); StackLang(rules, Expand(rules, s, a), w))
  }

  /** w is a word of sub, then one of next, then one of the frames below. */
  ghost predicate ThreeParts(rules: seq<Rule>, rest: Stack, next: Pos, sub: Pos, w: Word, i: nat, j: nat)
    requires RulesOk(rules) && StackOk(rules, rest) && PosOk(rules, next) && PosOk(rules, sub)
  {
    i <= j <= |w| && Lang(rules, sub, w[..i]) && Lang(rules, next, w[i..j]) && StackLang(rules, rest, w[j..])
  }

  lemma {:induction false} PushBoth(rules: seq<Rule>, rest: Stack, next: Pos, sub: Pos, w: Word, i: nat, j: nat)
    requires RulesOk(rules) && StackOk(rules, rest) && PosOk(rules, next) && PosOk(rules, sub)
    requires ThreeParts(rules, rest, next, sub, w, i, j)
    ensures OneLang(rules, Push(rules, Push(rules, rest, next), sub), w)
  {
    hide RulesOk, Lang, StackLang, Push;
    PushLang(rules, rest, next, w[i..]);
    assert w[i..][..j - i] == w[i..j] && w[i..][j - i..] == w[j..];
    assert PushSplit(rules, rest, next, w[i..], j - i);
    PushLang(rules, Push(rules, rest, next), sub, w);
    assert PushSplit(rules, Push(rules, rest, next), sub, w, i);
  }

  lemma {:induction false} PopBoth(rules: seq<Rule>, rest: Stack, next: Pos, sub: Pos, w: Word) returns (i: nat, j: nat)
    requires RulesOk(rules) && StackOk(rules, rest) && PosOk(rules, next) && PosOk(rules, sub)
    requires OneLang(rules, Push(rules, Push(rules, rest, next), sub), w)
    ensures ThreeParts(rules, rest, next, sub, w, i, j)
  {
    hide RulesOk, Lang, StackLang, Push;
    PushLang(rules, rest, next, []);
    PushLang(rules, Push(rules, rest, next), sub, w);
    i :| PushSplit(rules, Push(rules, rest, next), sub, w, i);
    PushLang(rules, rest, next, w[i..]);
    var k: nat :| PushSplit(rules, rest, next, w[i..], k);
    j := i + k;
    assert w[i..][..k] == w[i..j] && w[i..][k..] == w[j..];
  }

  lemma {:induction false} TopSplits(rules: seq<Rule>, s: Stack, w: Word) returns (j: nat)
    requires RulesOk(rules) && s != [] && StackOk(rules, s) && StackLang(rules, s, w)
    ensures TopSplit(rules, s, w, j)
  {
    j :| TopSplit(rules, s, w, j);
  }

  lemma {:induction false} ExpandSplits(rules: seq<Rule>, s: Stack, w: Word) returns (a: nat)
    requires RulesOk(rules) && RefOnTop(rules, s) && StackLang(rules, s, w)
    ensures AltExpandLang(rules, s, w, a)
  {
    hide RulesOk, Lang, StackLang, Push;
    var j := TopSplits(rules, s, w);
    FirstAlt(rules, s);
    var rest, p := Unstack(rules, s, 0);
    NextOk(rules, p);
    var i := RefSplits(rules, p, w[..j]);
    a :| AltLang(rules, At(rules, p).value, a, w[..j][..i]);
    AltStartOk(rules, At(rules, p).value, a);
    assert w[..j][..i] == w[..i] && w[..j][i..] == w[i..j];
    PushBoth(rules, rest, Pos(p.rule, p.at + 1), Pos(At(rules, p).value, a), w, i, j);
  }

  lemma {:induction false} ExpandJoins(rules: seq<Rule>, s: Stack, w: Word, a: nat)
    requires RulesOk(rules) && AltExpandLang(rules, s, w, a)
    ensures StackOk(rules, s) && StackLang(rules, s, w)
  {
    ExpandOk(rules, s, a);
    var rest, p := Unstack(rules, s, a);
    var r, next := At(rules, p).value, Pos(p.rule, p.at + 1);
    var i, j := PopBoth(rules, rest, next, Pos(r, a), w);
    hide RulesOk, Lang, Push;
    assert w[..j][..i] == w[..i] && w[..j][i..] == w[i..j];
    assert AltLang(rules, r, a, w[..j][..i]);
    assert RefSplit(rules, p, w[..j], i);
    RefJoins(rules, p, w[..j], i);
    assert TopSplit(rules, s, w, j);
  }

  /** Some stack of the set derives w. */
  ghost predicate AnyLang(rules: seq<Rule>, stacks: seq<Stack>, w: Word)
    requires RulesOk(rules)
  {
    exists i :: 0 <= i < |stacks| && OneLang(rules, stacks[i], w)
  }

  ghost predicate OneLang(rules: seq<Rule>, s: Stack, w: Word)
    requires RulesOk(rules)
  {
    StackOk(rules, s) && StackLang(rules, s, w)
  }

  lemma {:induction false} AnyLangConcat(rules: seq<Rule>, a: seq<Stack>, b: seq<Stack>, w: Word)
    requires RulesOk(rules)
    ensures AnyLang(rules, a + b, w) <==> AnyLang(rules, a, w) || AnyLang(rules, b, w)
  {
    hide OneLang;
    if AnyLang(rules, a, w) {
      var i :| 0 <= i < |a| && OneLang(rules, a[i], w);
      assert (a + b)[i] == a[i];
    } else if AnyLang(rules, b, w) {
      var i :| 0 <= i < |b| && OneLang(rules, b[i], w);
      assert (a + b)[|a| + i] == b[i];
    }
  }

  /** Following references changes nothing in what can still be derived. */
  lemma {:induction false} AdvanceLang(rules: seq<Rule>, rk: Ranking, s: Stack, w: Word)
    requires RulesOk(rules) && NoLeftRecursion(rules, rk) && StackOk(rules, s)
    ensures AnyLang(rules, Advance(rules, rk, s), w) <==> StackLang(rules, s, w)
    decreases Measure(rules, rk, s), 1, 0
  {
    hide RulesOk, NoLeftRecursion, Measure;
    if s != [] && At(rules, s[|s| - 1]).kind == RULE_REF {
      FirstAlt(rules, s);
      AdvanceFromLang(rules, rk, s, 0, w);
      if StackLang(rules, s, w) {
        var a := ExpandSplits(rules, s, w);
      }
      if AnyLang(rules, Advance(rules, rk, s), w) {
        var b: nat :| AltExpandLang(rules, s, w, b);
        ExpandJoins(rules, s, w, b);
      }
    } else {
      assert Advance(rules, rk, s) == [s];
      assert OneLang(rules, [s][0], w) <==> StackLang(rules, s, w);
    }
  }

  lemma {:induction false} AdvanceFromLang(rules: seq<Rule>, rk: Ranking, s: Stack, a: nat, w: Word)
    requires RulesOk(rules) && NoLeftRecursion(rules, rk) && RefAlt(rules, s, a)
    ensures AnyLang(rules, AdvanceFrom(rules, rk, s, a), w) <==> LaterAlt(rules, s, w, a)
    decreases Measure(rules, rk, s), 0, |TopRule(rules, s, a)| - a
  {
    hide RulesOk, NoLeftRecursion, Measure, StackOk, Expand, RefAlt, TopRule, NextAlt, AnyLang, StackLang, Advance,
      LaterAlt;
    ExpandOk(rules, s, a);
    AdvanceSafe(rules, rk, s, a);
    var next, first := NextAlt(rules, s, a), Advance(rules, rk, Expand(rules, s, a));
    AdvanceLang(rules, rk, Expand(rules, s, a), w);
    assert AltExpandLang(rules, s, w, a) <==> AnyLang(rules, first, w);
    LaterStep(rules, s, w, a);
    if next != 0 {
      AdvanceFromLang(rules, rk, s, next, w);
      AnyLangConcat(rules, first, AdvanceFrom(rules, rk, s, next), w);
    }
  }

  /** w is derived through an alternative from a on. */
  ghost predicate LaterAlt(rules: seq<Rule>, s: Stack, w: Word, a: nat)
    requires RulesOk(rules)
  {
    exists b: nat :: b >= a && AltExpandLang(rules, s, w, b)
  }

  lemma {:induction false} LaterStep(rules: seq<Rule>, s: Stack, w: Word, a: nat)
    requires RulesOk(rules) && RefAlt(rules, s, a)
    ensures var next := NextAlt(rules, s, a);
      LaterAlt(rules, s, w, a) <==> AltExpandLang(rules, s, w, a) || (next != 0 && LaterAlt(rules, s, w, next))
  {
    hide RulesOk, StackLang, Expand, StackOk;
    NoAltBetween(rules, s, a);
    assert NextAlt(rules, s, a) != 0 ==> NextAlt(rules, s, a) > a;
    hide NextAlt, RefAlt;
  }

  /** No alternative starts between one and the next. */
  lemma {:induction false} NoAltBetween(rules: seq<Rule>, s: Stack, a: nat)
    requires RulesOk(rules) && RefAlt(rules, s, a)
    ensures forall b :: b > a && RefAlt(rules, s, b) ==> NextAlt(rules, s, a) != 0 && b >= NextAlt(rules, s, a)
  {
    var rule := TopRule(rules, s, a);
    forall b | b > a && RefAlt(rules, s, b) ensures NextAlt(rules, s, a) != 0 && b >= NextAlt(rules, s, a) {
      assert RuleOk(rule, |rules|) && IsEnd(rule[b - 1]);
    }
  }
}
