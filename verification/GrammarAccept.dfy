/** The recogniser: matching a character against all stacks. */
module GrammarAccept {
  import opened Grammar
  import opened GrammarEngine

  // ---------------------------------------------------------------------------------------------
  // What accepting a character does

  /** The stacks a settled stack becomes when c is read; none if it cannot be. */
  ghost function AcceptOne(rules: seq<Rule>, rk: Ranking, s: Stack, c: nat): seq<Stack>
    requires RulesOk(rules) && NoLeftRecursion(rules, rk) && Settled(rules, s)
  {
    if s == [] then []
    else
      var p := s[|s| - 1];
      ClassEndOk(rules, p);
      AfterOk(rules, s);
      if Accepts(rules[p.rule], p.at, c) then Advance(rules, rk, After(rules, s)) else []
  }

  /** The stack behind the character class on top. */
  ghost function After(rules: seq<Rule>, s: Stack): Stack
    requires RulesOk(rules) && Settled(rules, s) && s != []
  {
    var p := s[|s| - 1];
    ClassEndOk(rules, p);
    Push(rules, s[..|s| - 1], Pos(p.rule, ClassEnd(rules[p.rule], p.at)))
  }

  lemma {:induction false} AfterOk(rules: seq<Rule>, s: Stack)
    requires RulesOk(rules) && Settled(rules, s) && s != []
    ensures StackOk(rules, After(rules, s))
  {
    ClassEndOk(rules, s[|s| - 1]);
  }

  ghost function Accept(rules: seq<Rule>, rk: Ranking, stacks: seq<Stack>, c: nat): seq<Stack>
    requires RulesOk(rules) && NoLeftRecursion(rules, rk) && AllSettled(rules, stacks)
  {
    if stacks == [] then []
    else Accept(rules, rk, stacks[..|stacks| - 1], c) + AcceptOne(rules, rk, stacks[|stacks| - 1], c)
  }

  lemma {:induction false} AcceptSettles(rules: seq<Rule>, rk: Ranking, stacks: seq<Stack>, c: nat)
    requires RulesOk(rules) && NoLeftRecursion(rules, rk) && AllSettled(rules, stacks)
    ensures AllSettled(rules, Accept(rules, rk, stacks, c))
  {
    hide RulesOk, NoLeftRecursion, Accepts;
    if stacks != [] {
      var n := |stacks| - 1;
      AcceptSettles(rules, rk, stacks[..n], c);
      if stacks[n] != [] {
        AfterOk(rules, stacks[n]);
        AdvanceSettles(rules, rk, After(rules, stacks[n]));
      }
      hide Settled, AllSettled, Advance;
      SettledConcat(rules, Accept(rules, rk, stacks[..n], c), AcceptOne(rules, rk, stacks[n], c));
    }
  }

  /** Reading c leaves exactly the rests of the words that start with c. */
  lemma {:induction false} AcceptOneLang(rules: seq<Rule>, rk: Ranking, s: Stack, c: nat, w: Word)
    requires RulesOk(rules) && NoLeftRecursion(rules, rk) && Settled(rules, s)
    ensures AnyLang(rules, AcceptOne(rules, rk, s, c), w) <==> StackLang(rules, s, [c] + w)
  {
    if s != [] {
      var p := s[|s| - 1];
      AfterOk(rules, s);
      AfterLang(rules, s, c, w);
      hide RulesOk, NoLeftRecursion, Accepts, StackLang, After;
      if Accepts(rules[p.rule], p.at, c) {
        AdvanceLang(rules, rk, After(rules, s), w);
      }
    }
  }

  lemma {:induction false} TopSplits(rules: seq<Rule>, s: Stack, w: Word) returns (k: nat)
    requires RulesOk(rules) && StackOk(rules, s) && s != [] && StackLang(rules, s, w)
    ensures TopSplit(rules, s, w, k)
  {
    k :| TopSplit(rules, s, w, k);
  }

  lemma {:induction false} AfterLang(rules: seq<Rule>, s: Stack, c: nat, w: Word)
    requires RulesOk(rules) && Settled(rules, s) && s != [] && StackOk(rules, After(rules, s))
    ensures StackLang(rules, s, [c] + w)
        <==> Accepts(rules[s[|s| - 1].rule], s[|s| - 1].at, c) && StackLang(rules, After(rules, s), w)
  {
    var p, rest := s[|s| - 1], s[..|s| - 1];
    ClassEndOk(rules, p);
    var next := Pos(p.rule, ClassEnd(rules[p.rule], p.at));
    PushLang(rules, rest, next, w);
    var cw := [c] + w;
    if StackLang(rules, s, cw) {
      var k := TopSplits(rules, s, cw);
      LangChar(rules, p, cw[..k]);
      assert cw[..k][1..] == w[..k - 1] && cw[k..] == w[k - 1..];
      assert PushSplit(rules, rest, next, w, k - 1);
    }
    if Accepts(rules[p.rule], p.at, c) && StackLang(rules, After(rules, s), w) {
      var k: nat :| PushSplit(rules, rest, next, w, k);
      LangChar(rules, p, cw[..k + 1]);
      assert cw[..k + 1][1..] == w[..k] && cw[k + 1..] == w[k..];
      assert TopSplit(rules, s, cw, k + 1);
    }
  }

  /** The derivative: the stacks after c derive w exactly when the stacks before derived c followed by w. */
  lemma {:induction false} AcceptLang(rules: seq<Rule>, rk: Ranking, stacks: seq<Stack>, c: nat, w: Word)
    requires RulesOk(rules) && NoLeftRecursion(rules, rk) && AllSettled(rules, stacks)
    ensures AnyLang(rules, Accept(rules, rk, stacks, c), w) <==> AnyLang(rules, stacks, [c] + w)
  {
    if stacks != [] {
      var n := |stacks| - 1;
      assert Settled(rules, stacks[n]);
      assert stacks == stacks[..n] + [stacks[n]];
      hide RulesOk, NoLeftRecursion, StackLang, StackOk, AnyLang;
      AcceptLang(rules, rk, stacks[..n], c, w);
      AcceptOneLang(rules, rk, stacks[n], c, w);
      AnyLangConcat(rules, Accept(rules, rk, stacks[..n], c), AcceptOne(rules, rk, stacks[n], c), w);
      AnyLangConcat(rules, stacks[..n], [stacks[n]], [c] + w);
      SingleLang(rules, stacks[n], [c] + w);
    }
  }

  lemma {:induction false} SingleLang(rules: seq<Rule>, s: Stack, w: Word)
    requires RulesOk(rules)
    ensures AnyLang(rules, [s], w) <==> OneLang(rules, s, w)
  {
    assert [s][0] == s;
  }

  /** Reading a whole text. */
  ghost function AcceptAll(rules: seq<Rule>, rk: Ranking, stacks: seq<Stack>, text: Word): seq<Stack>
    requires RulesOk(rules) && NoLeftRecursion(rules, rk) && AllSettled(rules, stacks)
    decreases |text|
  {
    if text == [] then stacks
    else
      AcceptSettles(rules, rk, stacks, text[0]);
      AcceptAll(rules, rk, Accept(rules, rk, stacks, text[0]), text[1..])
  }

  lemma {:induction false} AcceptAllLang(rules: seq<Rule>, rk: Ranking, stacks: seq<Stack>, text: Word, w: Word)
    requires RulesOk(rules) && NoLeftRecursion(rules, rk) && AllSettled(rules, stacks)
    ensures AllSettled(rules, AcceptAll(rules, rk, stacks, text))
    ensures AnyLang(rules, AcceptAll(rules, rk, stacks, text), w) <==> AnyLang(rules, stacks, text + w)
    decreases |text|
  {
    hide RulesOk, NoLeftRecursion, AllSettled, AnyLang, Accept;
    if text == [] {
      assert text + w == w;
    } else {
      AcceptSettles(rules, rk, stacks, text[0]);
      AcceptAllLang(rules, rk, Accept(rules, rk, stacks, text[0]), text[1..], w);
      AcceptLang(rules, rk, stacks, text[0], text[1..] + w);
      assert [text[0]] + (text[1..] + w) == text + w;
    }
  }

  // ---------------------------------------------------------------------------------------------
  // The code

  method MatchChar(rules: seq<Rule>, p: Pos, chr: nat) returns (ok: bool, end: Pos)
    requires RulesOk(rules) && PosOk(rules, p) && IsChar(At(rules, p))
    ensures ok == Accepts(rules[p.rule], p.at, chr)
    ensures end == Pos(p.rule, ClassEnd(rules[p.rule], p.at)) && PosOk(rules, end)
  {
    ClassEndOk(rules, p);
    var rule := rules[p.rule];
    assert RuleOk(rule, |rules|);
    hide RulesOk;
    var found, i := false, p.at;
    while true
      invariant p.at <= i < |rule| && rule[i].kind in {CHAR, CHAR_NOT, CHAR_ALT}
      invariant found || Listed(rule, i, chr) <==> Listed(rule, p.at, chr)
      invariant ClassEnd(rule, i) == ClassEnd(rule, p.at)
      decreases |rule| - i
    {
      if rule[i + 1].kind == CHAR_RNG_UPPER {
        found := found || (rule[i].value <= chr && chr <= rule[i + 1].value);
        i := i + 2;
      } else {
        found := found || rule[i].value == chr;
        i := i + 1;
      }
      if rule[i].kind != CHAR_ALT {
        break;
      }
    }
    ok := found == (At(rules, p).kind == CHAR);
    end := Pos(p.rule, i);
  }

  /** Adds to newStacks the stacks that the stack stands for; ends by the measure. */
  method AdvanceStack(rules: seq<Rule>, stack: Stack, newStacks: seq<Stack>, ghost rk: Ranking)
    returns (out: seq<Stack>)
    requires RulesOk(rules) && NoLeftRecursion(rules, rk) && StackOk(rules, stack)
    ensures out == newStacks + Advance(rules, rk, stack)
    decreases Measure(rules, rk, stack), 1
  {
    if stack == [] {
      return newStacks + [[]];
    }
    if At(rules, stack[|stack| - 1]).kind != RULE_REF {
      return newStacks + [stack];
    }
    FirstAlt(rules, stack);
    AdvanceRef(rules, rk, stack);
    out := AdvanceAlternatives(rules, stack, newStacks, rk);
  }

  /** ... for every alternative of the rule on top. */
  method AdvanceAlternatives(rules: seq<Rule>, stack: Stack, newStacks: seq<Stack>, ghost rk: Ranking)
    returns (out: seq<Stack>)
    requires RulesOk(rules) && NoLeftRecursion(rules, rk) && StackOk(rules, stack) && RefAlt(rules, stack, 0)
    ensures out == newStacks + AdvanceFrom(rules, rk, stack, 0)
    decreases Measure(rules, rk, stack), 0
  {
    hide *;
    ghost var n, all := |TopRule(rules, stack, 0)|, newStacks + AdvanceFrom(rules, rk, stack, 0);
    var sub, more := 0, true;
    out := newStacks;
    while more
      invariant more ==> RefAlt(rules, stack, sub) && |TopRule(rules, stack, sub)| == n
      invariant more ==> out + AdvanceFrom(rules, rk, stack, sub) == all
      invariant !more ==> out == all
      decreases more, n - sub
    {
      AdvanceSafe(rules, rk, stack, sub);
      AdvanceFromStep(rules, rk, stack, sub);
      ExpandIs(rules, stack, sub);
      var pos := stack[|stack| - 1];
      var newStack := Push(rules, Push(rules, stack[..|stack| - 1], Pos(pos.rule, pos.at + 1)),
                           Pos(At(rules, pos).value, sub));
      ghost var before := out;
      out := AdvanceStack(rules, newStack, out, rk);
      var next := FindNextAlt(rules, stack, sub);
      if next != 0 {
        Reassociate(before, Advance(rules, rk, newStack), AdvanceFrom(rules, rk, stack, next));
        sub := next;
      } else {
        more := false;
      }
    }
  }

  lemma {:induction false} ExpandIs(rules: seq<Rule>, s: Stack, a: nat)
    requires RulesOk(rules) && RefAlt(rules, s, a)
    ensures s != [] && s[|s| - 1].rule < |rules| && s[|s| - 1].at + 1 < |rules[s[|s| - 1].rule]|
    ensures At(rules, s[|s| - 1]).value < |rules| && a < |rules[At(rules, s[|s| - 1]).value]|
    ensures var p := s[|s| - 1];
      Expand(rules, s, a) == Push(rules, Push(rules, s[..|s| - 1], Pos(p.rule, p.at + 1)), Pos(At(rules, p).value, a))
    ensures StackOk(rules, Expand(rules, s, a))
  {
    ExpandOk(rules, s, a);
  }

  /** Scans to the end of an alternative, and past an ALT to the next one. */
  method FindNextAlt(rules: seq<Rule>, s: Stack, a: nat) returns (next: nat)
    requires RulesOk(rules) && RefAlt(rules, s, a)
    ensures next == NextAlt(rules, s, a)
  {
    var rule := rules[At(rules, s[|s| - 1]).value];
    assert RuleOk(rule, |rules|);
    var e := ScanEnd(rule, a);
    next := if rule[e].kind == ALT then e + 1 else 0;
  }

  method ScanEnd(rule: Rule, i: nat) returns (e: nat)
    requires i < |rule| && rule[|rule| - 1].kind == END
    ensures e == SeqEnd(rule, i) && IsEnd(rule[e]) && (rule[e].kind == ALT ==> e + 1 < |rule|)
  {
    e := i;
    while !IsEnd(rule[e])
      invariant i <= e < |rule| && SeqEnd(rule, e) == SeqEnd(rule, i)
      decreases |rule| - e
    {
      e := e + 1;
    }
  }

  lemma {:induction false} Reassociate(a: seq<Stack>, b: seq<Stack>, c: seq<Stack>)
    ensures a + (b + c) == a + b + c
  {
  }

  lemma {:induction false} AdvanceRef(rules: seq<Rule>, rk: Ranking, s: Stack)
    requires RulesOk(rules) && NoLeftRecursion(rules, rk) && RefOnTop(rules, s) && RefAlt(rules, s, 0)
    ensures Advance(rules, rk, s) == AdvanceFrom(rules, rk, s, 0)
  {
  }

  lemma {:induction false} AdvanceFromStep(rules: seq<Rule>, rk: Ranking, s: Stack, a: nat)
    requires RulesOk(rules) && NoLeftRecursion(rules, rk) && RefAlt(rules, s, a) && StackOk(rules, Expand(rules, s, a))
    requires NextAlt(rules, s, a) != 0 ==> RefAlt(rules, s, NextAlt(rules, s, a))
    ensures AdvanceFrom(rules, rk, s, a) ==
      var first := Advance(rules, rk, Expand(rules, s, a));
      if NextAlt(rules, s, a) == 0 then first else first + AdvanceFrom(rules, rk, s, NextAlt(rules, s, a))
  {
    hide RulesOk, NoLeftRecursion, RefAlt, StackOk, Expand, NextAlt, Advance;
  }

  method AcceptChar(rules: seq<Rule>, stacks: seq<Stack>, chr: nat, ghost rk: Ranking) returns (newStacks: seq<Stack>)
    requires RulesOk(rules) && NoLeftRecursion(rules, rk) && AllSettled(rules, stacks)
    ensures newStacks == Accept(rules, rk, stacks, chr)
  {
    hide RulesOk, NoLeftRecursion, Accepts, Advance;
    newStacks := [];
    for i := 0 to |stacks|
      invariant newStacks == Accept(rules, rk, stacks[..i], chr)
    {
      assert stacks[..i + 1][..i] == stacks[..i];
      var stack := stacks[i];
      assert Settled(rules, stack);
      if stack == [] {
        continue;
      }
      var ok, pos := MatchChar(rules, stack[|stack| - 1], chr);
      if ok {
        var newStack := Push(rules, stack[..|stack| - 1], pos);
        AfterOk(rules, stack);
        newStacks := AdvanceStack(rules, newStack, newStacks, rk);
      }
    }
    assert stacks[..|stacks|] == stacks;
  }

  /** The stacks at the start of a rule. */
  method InitGrammar(rules: seq<Rule>, start: nat, ghost rk: Ranking) returns (stacks: seq<Stack>)
    requires RulesOk(rules) && NoLeftRecursion(rules, rk) && start < |rules|
    ensures |stacks| > 0 && AllSettled(rules, stacks)
    ensures forall w :: AnyLang(rules, stacks, w) <==> RuleLang(rules, start, w)
  {
    var rule := rules[start];
    assert RuleOk(rule, |rules|);
    var pos := 0;
    stacks := [];
    hide RulesOk, NoLeftRecursion, AltLang;
    while true
      invariant AltStart(rule, pos) && AllSettled(rules, stacks) && (pos > 0 ==> |stacks| > 0)
      invariant forall w :: AnyLang(rules, stacks, w) <==> exists a: nat :: a < pos && AltLang(rules, start, a, w)
      decreases |rule| - pos
    {
      var stack, e, added := InitAlt(rules, start, pos, rk);
      SettledConcat(rules, stacks, added);
      forall w ensures AnyLang(rules, stacks + added, w) <==> exists a: nat :: a <= e && AltLang(rules, start, a, w) {
        AnyLangConcat(rules, stacks, added, w);
        NoAltStart(rules, start, pos, e);
      }
      stacks := AdvanceStack(rules, stack, stacks, rk);
      if rule[e].kind == ALT {
        pos := e + 1;
      } else {
        LastAlt(rules, start, e);
        break;
      }
    }
  }

  method InitAlt(rules: seq<Rule>, start: nat, pos: nat, ghost rk: Ranking)
    returns (stack: Stack, e: nat, ghost added: seq<Stack>)
    requires RulesOk(rules) && NoLeftRecursion(rules, rk) && start < |rules| && AltStart(rules[start], pos)
    ensures StackOk(rules, stack) && added == Advance(rules, rk, stack) && |added| > 0 && AllSettled(rules, added)
    ensures e == SeqEnd(rules[start], pos) && IsEnd(rules[start][e])
      && (rules[start][e].kind == ALT ==> e + 1 < |rules[start]|)
    ensures forall w :: AnyLang(rules, added, w) <==> AltLang(rules, start, pos, w)
  {
    AltStartOk(rules, start, pos);
    assert RuleOk(rules[start], |rules|);
    hide RulesOk, NoLeftRecursion, Lang;
    stack := Push(rules, [], Pos(start, pos));
    e := ScanEnd(rules[start], pos);
    added := Advance(rules, rk, stack);
    PushLang(rules, [], Pos(start, pos), []);
    AdvanceSettles(rules, rk, stack);
    forall w ensures AnyLang(rules, added, w) <==> AltLang(rules, start, pos, w) {
      AdvanceLang(rules, rk, stack, w);
      OnlyFrame(rules, Pos(start, pos), w);
    }
  }

  lemma {:induction false} OnlyFrame(rules: seq<Rule>, p: Pos, w: Word)
    requires RulesOk(rules) && PosOk(rules, p) && StackOk(rules, Push(rules, [], p))
    ensures StackLang(rules, Push(rules, [], p), w) <==> Lang(rules, p, w)
  {
    PushLang(rules, [], p, w);
    WholeSplit(rules, p, w);
    hide *;
    if StackLang(rules, Push(rules, [], p), w) {
      var k: nat :| PushSplit(rules, [], p, w, k);
    }
  }

  lemma {:induction false} WholeSplit(rules: seq<Rule>, p: Pos, w: Word)
    requires RulesOk(rules) && PosOk(rules, p)
    ensures PushSplit(rules, [], p, w, |w|) <==> Lang(rules, p, w)
    ensures forall k: nat :: PushSplit(rules, [], p, w, k) ==> k == |w|
  {
    hide RulesOk, Lang, PosOk;
    assert w[..|w|] == w && w[|w|..] == [];
  }

  lemma {:induction false} NoAltStart(rules: seq<Rule>, r: nat, a: nat, e: nat)
    requires RulesOk(rules) && r < |rules| && AltStart(rules[r], a) && e == SeqEnd(rules[r], a)
    ensures forall b :: a < b <= e ==> !AltStart(rules[r], b)
  {
    forall b | a < b <= e ensures !AltStart(rules[r], b) {
      assert !IsEnd(rules[r][b - 1]);
    }
  }

  lemma {:induction false} LastAlt(rules: seq<Rule>, r: nat, e: nat)
    requires RulesOk(rules) && r < |rules| && e < |rules[r]| && rules[r][e].kind == END
    ensures forall b :: b > e ==> !AltStart(rules[r], b)
  {
    assert RuleOk(rules[r], |rules|);
  }
}
