/** Which candidate tokens the grammar rules out, in one batch. */
module GrammarFilter {
  import opened Bits
  import opened Grammar
  import opened GrammarEngine
  import opened GrammarAccept

  /** A character of which only some bytes are known: its bits so far and how many bytes are missing. */
  datatype PartialUtf8 = PartialUtf8(value: nat, nRemain: int)

  /** A token: its code points, 0 behind the last, from a cursor on. */
  datatype Candidate = Candidate(id: int, codePoints: seq<nat>, at: nat, partial: PartialUtf8)

  ghost predicate CandidateOk(c: Candidate) {
    c.at < |c.codePoints| && c.codePoints[|c.codePoints| - 1] == 0
  }

  /** The code points from the cursor to the terminating 0. */
  function Text(c: Candidate): Word
    decreases |c.codePoints| - c.at
  {
    if c.at < |c.codePoints| && c.codePoints[c.at] != 0
    then [c.codePoints[c.at]] + Text(c.(at := c.at + 1)) else []
  }

  // ---------------------------------------------------------------------------------------------
  // Characters known in part

  predicate Broken(p: PartialUtf8) {
    p.nRemain < 0 || (p.nRemain == 1 && p.value < 2)
  }

  /** The first code point p can become; shorter encodings of it are not allowed. */
  function Lowest(p: PartialUtf8): nat
    requires p.nRemain >= 0
  {
    var low := Shl(p.value, p.nRemain * 6);
    if low == 0 && p.nRemain == 2 then 2048 else if low == 0 && p.nRemain == 3 then 65536 else low
  }

  function Highest(p: PartialUtf8): nat
    requires p.nRemain >= 0
  {
    Shl(p.value, p.nRemain * 6) + (Pow2(p.nRemain * 6) - 1)
  }

  /** Some item of the class at i meets the range. */
  predicate Overlaps(rule: Rule, i: nat, low: nat, high: nat)
    requires i < |rule|
    decreases |rule| - i
  {
    var next := ItemEnd(rule, i);
    || (if next == i + 2 then rule[i].value <= high && low <= rule[i + 1].value else low <= rule[i].value <= high)
    || (next < |rule| && rule[next].kind == CHAR_ALT && Overlaps(rule, next, low, high))
  }

  predicate PartialAccepted(rule: Rule, i: nat, p: PartialUtf8)
    requires i < |rule|
  {
    !Broken(p) && Overlaps(rule, i, Lowest(p), Highest(p)) == (rule[i].kind == CHAR)
  }

  method MatchPartialChar(rules: seq<Rule>, p: Pos, partial: PartialUtf8) returns (ok: bool)
    requires RulesOk(rules) && PosOk(rules, p) && IsChar(At(rules, p))
    ensures ok == PartialAccepted(rules[p.rule], p.at, partial)
  {
    if Broken(partial) {
      return false;
    }
    var positive := At(rules, p).kind == CHAR;
    var low, high := Lowest(partial), Highest(partial);
    var rule := rules[p.rule];
    assert RuleOk(rule, |rules|);
    hide RulesOk, Lowest, Highest;
    var i := p.at;
    while true
      invariant p.at <= i < |rule| && rule[i].kind in {CHAR, CHAR_NOT, CHAR_ALT}
      invariant Overlaps(rule, i, low, high) == Overlaps(rule, p.at, low, high)
      decreases |rule| - i
    {
      if rule[i + 1].kind == CHAR_RNG_UPPER {
        if rule[i].value <= high && low <= rule[i + 1].value {
          return positive;
        }
        i := i + 2;
      } else {
        if low <= rule[i].value && rule[i].value <= high {
          return positive;
        }
        i := i + 1;
      }
      if rule[i].kind != CHAR_ALT {
        break;
      }
    }
    ok := !positive;
  }

  /** p can become c; two bytes are not for what one byte can encode. */
  ghost predicate Completes(p: PartialUtf8, c: nat) {
    p.nRemain >= 0 && Lowest(p) <= c <= Highest(p) && (p.nRemain == 1 ==> c >= 0x80)
  }

  /** No range of the class is written backwards. */
  ghost predicate Ordered(rule: Rule, i: nat) {
    forall j ::
      i <= j < ClassLimit(rule, i) && j + 1 < |rule| && rule[j + 1].kind == CHAR_RNG_UPPER ==>
        rule[j].value <= rule[j + 1].value
  }

  ghost function ClassLimit(rule: Rule, i: nat): nat {
    if i < |rule| then ClassEnd(rule, i) else i
  }

  ghost predicate ListedWithin(rule: Rule, i: nat, low: nat, high: nat, c: nat)
    requires i < |rule|
  {
    low <= c <= high && Listed(rule, i, c)
  }

  lemma {:induction false} OverlapsMeansListed(rule: Rule, i: nat, low: nat, high: nat)
    requires i < |rule| && low <= high && Ordered(rule, i)
    ensures Overlaps(rule, i, low, high) <==> exists c: nat :: ListedWithin(rule, i, low, high, c)
    decreases |rule| - i
  {
    var next := ItemEnd(rule, i);
    var more := next < |rule| && rule[next].kind == CHAR_ALT;
    if more {
      OverlapsMeansListed(rule, next, low, high);
    }
    var lo, hi := rule[i].value, if next == i + 2 then rule[i + 1].value else rule[i].value;
    if lo <= high && low <= hi {
      assert ListedWithin(rule, i, low, high, if lo < low then low else lo);
    } else if more && Overlaps(rule, next, low, high) {
      var c: nat :| ListedWithin(rule, next, low, high, c);
      assert ListedWithin(rule, i, low, high, c);
    } else {
      forall c: nat ensures !ListedWithin(rule, i, low, high, c) {
        assert more ==> !ListedWithin(rule, next, low, high, c);
      }
    }
  }

  /** Broken are those that nothing can complete. */
  lemma {:induction false} BrokenExact(p: PartialUtf8)
    requires p.nRemain <= 3
    ensures Broken(p) <==> forall c: nat :: !Completes(p, c)
    ensures !Broken(p) ==> Lowest(p) <= Highest(p)
    ensures !Broken(p) ==> forall c: nat :: Completes(p, c) <==> Lowest(p) <= c <= Highest(p)
  {
    assert Pow2(0) == 1;
    assert Pow2(6) == 64;
    assert Pow2(12) == 4096;
    assert Pow2(18) == 262144;
    if p.nRemain == 1 {
      ShlTimes(p.value, 6);
    }
    hide Shl;
    if !Broken(p) {
      assert Completes(p, if p.nRemain == 0 then p.value else Lowest(p));
    }
  }

  /** For an ordinary class the test is exact: it passes exactly if some completion is in the class. */
  lemma {:induction false} PositivePartialExact(rule: Rule, i: nat, p: PartialUtf8)
    requires i < |rule| && rule[i].kind == CHAR && Ordered(rule, i) && p.nRemain <= 3
    ensures PartialAccepted(rule, i, p) <==> exists c: nat :: Completes(p, c) && Accepts(rule, i, c)
  {
    BrokenExact(p);
    hide Lowest, Highest, Overlaps, Listed, Completes, Broken;
    if !Broken(p) {
      OverlapsMeansListed(rule, i, Lowest(p), Highest(p));
      if exists c: nat :: Completes(p, c) && Accepts(rule, i, c) {
        var c: nat :| Completes(p, c) && Accepts(rule, i, c);
        assert ListedWithin(rule, i, Lowest(p), Highest(p), c);
      }
      if PartialAccepted(rule, i, p) {
        var c: nat :| ListedWithin(rule, i, Lowest(p), Highest(p), c);
        assert Completes(p, c) && Accepts(rule, i, c);
      }
    }
  }

  /** For a negated class it passes only if there are completions and every one is accepted ... */
  lemma {:induction false} NegatedPartialAll(rule: Rule, i: nat, p: PartialUtf8)
    requires i < |rule| && rule[i].kind == CHAR_NOT && Ordered(rule, i) && p.nRemain <= 3
    ensures PartialAccepted(rule, i, p) <==>
      (exists c: nat :: Completes(p, c)) && forall c: nat :: Completes(p, c) ==> Accepts(rule, i, c)
  {
    BrokenExact(p);
    hide Lowest, Highest, Overlaps, Listed, Completes, Broken;
    if !Broken(p) {
      OverlapsMeansListed(rule, i, Lowest(p), Highest(p));
      if PartialAccepted(rule, i, p) {
        forall c: nat | Completes(p, c) ensures Accepts(rule, i, c) {
          assert !ListedWithin(rule, i, Lowest(p), Highest(p), c);
        }
      } else {
        var c: nat :| ListedWithin(rule, i, Lowest(p), Highest(p), c);
        assert Completes(p, c) && !Accepts(rule, i, c);
      }
    }
  }

  /** ... so there it answers "some completion is accepted" rightly only if all of them are, or none is. */
  lemma {:induction false} NegatedPartialExactness(rule: Rule, i: nat, p: PartialUtf8)
    requires i < |rule| && rule[i].kind == CHAR_NOT && Ordered(rule, i) && p.nRemain <= 3
    ensures (PartialAccepted(rule, i, p) <==> exists c: nat :: Completes(p, c) && Accepts(rule, i, c))
        <==> (forall c: nat,
              d: nat :: Completes(p, c) && Completes(p, d) ==> (Accepts(rule, i, c) <==> Accepts(rule, i, d)))
  {
    NegatedPartialAll(rule, i, p);
    hide Completes, Overlaps, Listed, PartialAccepted, Accepts;
    if c: nat :| Completes(p, c) {
      assert Completes(p, c);
    }
  }

  /** The class of everything but U+00E9, and a byte 0xC3: 63 of its 64 completions are accepted, the test fails. */
  lemma {:induction false} NegatedPartialRejectsViable()
    ensures var rule := [Element(CHAR_NOT, 0xE9), Element(END, 0)]; var p := PartialUtf8(3, 1);
      !PartialAccepted(rule, 0, p) && Completes(p, 0xE8) && Accepts(rule, 0, 0xE8)
  {
    assert Pow2(6) == 64;
    assert Shl(3, 6) == 192 by {
      assert Shl(3, 3) == 24;
    }
  }

  // ---------------------------------------------------------------------------------------------
  // Stepping through one candidate

  /** What is known of the next character, if anything, fits the stack. */
  ghost predicate PartialFits(rules: seq<Rule>, s: Stack, p: PartialUtf8) {
    p.nRemain == 0
    || (s != [] && s[|s| - 1].rule < |rules| && s[|s| - 1].at < |rules[s[|s| - 1].rule]|
        && PartialAccepted(rules[s[|s| - 1].rule], s[|s| - 1].at, p))
  }

  ghost predicate AnyFits(rules: seq<Rule>, stacks: seq<Stack>, p: PartialUtf8) {
    exists i :: 0 <= i < |stacks| && PartialFits(rules, stacks[i], p)
  }

  /** Reading the candidate's code points one by one leaves a stack that its last, partial one fits. */
  ghost predicate Survives(rules: seq<Rule>, rk: Ranking, stacks: seq<Stack>, c: Candidate)
    requires RulesOk(rules) && NoLeftRecursion(rules, rk) && AllSettled(rules, stacks)
  {
    AnyFits(rules, AcceptAll(rules, rk, stacks, Text(c)), c.partial)
  }

  lemma {:induction false} AnyFitsConcat(rules: seq<Rule>, a: seq<Stack>, b: seq<Stack>, p: PartialUtf8)
    ensures AnyFits(rules, a + b, p) <==> AnyFits(rules, a, p) || AnyFits(rules, b, p)
  {
    hide PartialFits;
    if AnyFits(rules, a, p) {
      var i :| 0 <= i < |a| && PartialFits(rules, a[i], p);
      assert (a + b)[i] == a[i];
    } else if AnyFits(rules, b, p) {
      var i :| 0 <= i < |b| && PartialFits(rules, b[i], p);
      assert (a + b)[|a| + i] == b[i];
    }
  }

  lemma {:induction false} AcceptConcat(rules: seq<Rule>, rk: Ranking, a: seq<Stack>, b: seq<Stack>, c: nat)
    requires RulesOk(rules) && NoLeftRecursion(rules, rk) && AllSettled(rules, a) && AllSettled(rules, b)
      && AllSettled(rules, a + b)
    ensures Accept(rules, rk, a + b, c) == Accept(rules, rk, a, c) + Accept(rules, rk, b, c)
    decreases |b|
  {
    hide RulesOk, NoLeftRecursion, Settled, AcceptOne;
    if b == [] {
      assert a + b == a;
    } else {
      var n := |b| - 1;
      assert (a + b)[..|a + b| - 1] == a + b[..n];
      AcceptConcat(rules, rk, a, b[..n], c);
      Reassociate(Accept(rules, rk, a, c), Accept(rules, rk, b[..n], c), AcceptOne(rules, rk, b[n], c));
    }
  }

  lemma {:induction false} AcceptAllConcat(rules: seq<Rule>, rk: Ranking, a: seq<Stack>, b: seq<Stack>, text: Word)
    requires RulesOk(rules) && NoLeftRecursion(rules, rk) && AllSettled(rules, a) && AllSettled(rules, b)
      && AllSettled(rules, a + b)
    ensures AcceptAll(rules, rk, a + b, text) == AcceptAll(rules, rk, a, text) + AcceptAll(rules, rk, b, text)
    decreases |text|
  {
    hide RulesOk, NoLeftRecursion, AllSettled, Accept;
    if text != [] {
      AcceptSettles(rules, rk, a, text[0]);
      AcceptSettles(rules, rk, b, text[0]);
      AcceptSettles(rules, rk, a + b, text[0]);
      AcceptConcat(rules, rk, a, b, text[0]);
      AcceptAllConcat(rules, rk, Accept(rules, rk, a, text[0]), Accept(rules, rk, b, text[0]), text[1..]);
    }
  }

  lemma {:induction false} SurvivesConcat(rules: seq<Rule>, rk: Ranking, a: seq<Stack>, b: seq<Stack>, c: Candidate)
    requires RulesOk(rules) && NoLeftRecursion(rules, rk) && AllSettled(rules, a) && AllSettled(rules, b)
    ensures AllSettled(rules, a + b)
    ensures Survives(rules, rk, a + b, c) <==> Survives(rules, rk, a, c) || Survives(rules, rk, b, c)
  {
    hide RulesOk, NoLeftRecursion, AllSettled, AcceptAll, AnyFits, Text;
    SettledConcat(rules, a, b);
    AcceptAllConcat(rules, rk, a, b, Text(c));
    AnyFitsConcat(rules, AcceptAll(rules, rk, a, Text(c)), AcceptAll(rules, rk, b, Text(c)), c.partial);
  }

  lemma {:induction false} OneSettled(rules: seq<Rule>, s: Stack)
    ensures AllSettled(rules, [s]) <==> Settled(rules, s)
  {
    assert [s][0] == s;
  }

  lemma {:induction false} NoStacks(rules: seq<Rule>, rk: Ranking, text: Word)
    requires RulesOk(rules) && NoLeftRecursion(rules, rk)
    ensures AcceptAll(rules, rk, [], text) == []
    decreases |text|
  {
    if text != [] {
      NoStacks(rules, rk, text[1..]);
    }
  }

  /** A candidate at its end survives if what is left of it fits the stack. */
  lemma {:induction false} SurvivesEnd(rules: seq<Rule>, rk: Ranking, s: Stack, c: Candidate)
    requires RulesOk(rules) && NoLeftRecursion(rules, rk) && AllSettled(rules, [s]) && Text(c) == []
    ensures Survives(rules, rk, [s], c) <==> PartialFits(rules, s, c.partial)
  {
    hide PartialFits;
    assert [s][0] == s;
  }

  /** Otherwise its first code point must match, and it must survive what comes next. */
  lemma {:induction false} SurvivesStep(rules: seq<Rule>, rk: Ranking, s: Stack, c: Candidate)
    requires RulesOk(rules) && NoLeftRecursion(rules, rk) && Settled(rules, s) && s != []
    requires c.at < |c.codePoints| && c.codePoints[c.at] != 0
    ensures StackOk(rules, After(rules, s)) && AllSettled(rules, [s])
      && AllSettled(rules, Advance(rules, rk, After(rules, s)))
    ensures Survives(rules, rk, [s], c) <==>
      && Accepts(rules[s[|s| - 1].rule], s[|s| - 1].at, c.codePoints[c.at])
      && Survives(rules, rk, Advance(rules, rk, After(rules, s)), c.(at := c.at + 1))
  {
    OneSettled(rules, s);
    AfterOk(rules, s);
    AdvanceSettles(rules, rk, After(rules, s));
    var cp, text := c.codePoints[c.at], Text(c.(at := c.at + 1));
    assert Text(c) == [cp] + text && Text(c)[1..] == text;
    hide RulesOk, NoLeftRecursion, AllSettled, Accepts, Text, Advance, After;
    AcceptSingle(rules, rk, s, cp);
    if !Accepts(rules[s[|s| - 1].rule], s[|s| - 1].at, cp) {
      NoStacks(rules, rk, text);
    }
  }

  lemma {:induction false} AcceptSingle(rules: seq<Rule>, rk: Ranking, s: Stack, c: nat)
    requires RulesOk(rules) && NoLeftRecursion(rules, rk) && Settled(rules, s) && AllSettled(rules, [s])
    ensures Accept(rules, rk, [s], c) == AcceptOne(rules, rk, s, c)
  {
    assert [s][..0] == [];
  }

  /** An empty stack only lets through candidates with nothing left. */
  lemma {:induction false} SurvivesEmpty(rules: seq<Rule>, rk: Ranking, c: Candidate)
    requires RulesOk(rules) && NoLeftRecursion(rules, rk) && c.at < |c.codePoints|
    ensures AllSettled(rules, [[]])
    ensures Survives(rules, rk, [[]], c) <==> c.codePoints[c.at] == 0 && c.partial.nRemain == 0
  {
    OneSettled(rules, []);
    if c.codePoints[c.at] == 0 {
      SurvivesEnd(rules, rk, [], c);
    } else {
      var text := Text(c.(at := c.at + 1));
      assert Text(c)[0] == c.codePoints[c.at] && Text(c)[1..] == text;
      AcceptSingle(rules, rk, [], c.codePoints[c.at]);
      NoStacks(rules, rk, text);
    }
  }

  /** A candidate that ends in a whole character and can be continued to a word of the grammar survives. */
  lemma {:induction false} ViableSurvives(rules: seq<Rule>, rk: Ranking, stacks: seq<Stack>, c: Candidate, w: Word)
    requires RulesOk(rules) && NoLeftRecursion(rules, rk) && AllSettled(rules, stacks)
    requires c.partial.nRemain == 0 && AnyLang(rules, stacks, Text(c) + w)
    ensures Survives(rules, rk, stacks, c)
  {
    hide RulesOk, NoLeftRecursion, AllSettled, AcceptAll, Text, OneLang;
    AcceptAllLang(rules, rk, stacks, Text(c), w);
    var i :|
      0 <= i < |AcceptAll(rules, rk, stacks, Text(c))| && OneLang(rules, AcceptAll(rules, rk, stacks, Text(c))[i], w);
    assert PartialFits(rules, AcceptAll(rules, rk, stacks, Text(c))[i], c.partial);
  }

  // ---------------------------------------------------------------------------------------------
  // The batch

  function Next(c: Candidate): Candidate {
    c.(at := c.at + 1)
  }

  ghost predicate CandidatesOk(cands: seq<Candidate>) {
    forall i :: 0 <= i < |cands| ==> CandidateOk(cands[i])
  }

  /** The rejects are the candidates that do not survive, each as often and with its cursor as it was. */
  ghost predicate IsRejects(rules: seq<Rule>, rk: Ranking, stacks: seq<Stack>, cands: seq<Candidate>,
                            rejects: seq<Candidate>)
    requires RulesOk(rules) && NoLeftRecursion(rules, rk) && AllSettled(rules, stacks)
  {
    forall c :: RejectCount(rules, rk, stacks, cands, rejects, c)
  }

  ghost predicate RejectCount(rules: seq<Rule>, rk: Ranking, stacks: seq<Stack>, cands: seq<Candidate>,
                              rejects: seq<Candidate>, c: Candidate)
    requires RulesOk(rules) && NoLeftRecursion(rules, rk) && AllSettled(rules, stacks)
  {
    multiset(rejects)[c] == if Survives(rules, rk, stacks, c) then 0 else multiset(cands)[c]
  }

  ghost predicate GoesOn(rules: seq<Rule>, s: Stack, c: Candidate)
    requires RulesOk(rules) && Settled(rules, s) && s != []
  {
    && c.at < |c.codePoints| && c.codePoints[c.at] != 0
    && Accepts(rules[s[|s| - 1].rule], s[|s| - 1].at, c.codePoints[c.at])
  }

  ghost predicate FailsHere(rules: seq<Rule>, s: Stack, c: Candidate)
    requires RulesOk(rules) && Settled(rules, s) && s != []
  {
    && c.at < |c.codePoints|
    && if c.codePoints[c.at] == 0 then !PartialFits(rules, s, c.partial)
       else !Accepts(rules[s[|s| - 1].rule], s[|s| - 1].at, c.codePoints[c.at])
  }

  /** The candidates so far, sorted into those that fail at this stack and those that go on past it. */
  ghost predicate Sorted(rules: seq<Rule>, s: Stack, seen: seq<Candidate>, rejects: seq<Candidate>,
                         next: seq<Candidate>)
    requires RulesOk(rules) && Settled(rules, s) && s != []
  {
    && (forall i :: 0 <= i < |next| ==> next[i].at > 0)
    && forall c :: SortedCount(rules, s, seen, rejects, next, c)
  }

  ghost predicate SortedCount(rules: seq<Rule>, s: Stack, seen: seq<Candidate>, rejects: seq<Candidate>,
                              next: seq<Candidate>, c: Candidate)
    requires RulesOk(rules) && Settled(rules, s) && s != []
  {
    && multiset(rejects)[c] == (if FailsHere(rules, s, c) then multiset(seen)[c] else 0)
    && multiset(next)[Next(c)] == (if GoesOn(rules, s, c) then multiset(seen)[c] else 0)
  }

  lemma {:induction false} SortStep(rules: seq<Rule>, s: Stack, seen: seq<Candidate>, rejects: seq<Candidate>,
                                    next: seq<Candidate>,
                                    tok: Candidate, rejects': seq<Candidate>, next': seq<Candidate>)
    requires RulesOk(rules) && Settled(rules, s) && s != [] && Sorted(rules, s, seen, rejects, next)
    requires rejects' == rejects + if FailsHere(rules, s, tok) then [tok] else []
    requires next' == next + if GoesOn(rules, s, tok) then [Next(tok)] else []
    ensures Sorted(rules, s, seen + [tok], rejects', next')
  {
    hide RulesOk, Settled, FailsHere, GoesOn;
    forall c ensures SortedCount(rules, s, seen + [tok], rejects', next', c) {
      assert SortedCount(rules, s, seen, rejects, next, c);
      assert Next(c) == Next(tok) <==> c == tok;
    }
  }

  function Back(cands: seq<Candidate>): seq<Candidate>
    requires forall i :: 0 <= i < |cands| ==> cands[i].at > 0
  {
    if cands == [] then []
    else Back(cands[..|cands| - 1]) + [cands[|cands| - 1].(at := cands[|cands| - 1].at - 1)]
  }

  lemma {:induction false} BackCount(cands: seq<Candidate>, c: Candidate)
    requires forall i :: 0 <= i < |cands| ==> cands[i].at > 0
    ensures multiset(Back(cands))[c] == multiset(cands)[Next(c)]
  {
    if cands != [] {
      var n := |cands| - 1;
      BackCount(cands[..n], c);
      assert cands == cands[..n] + [cands[n]];
      assert Next(c) == cands[n] <==> c == cands[n].(at := cands[n].at - 1);
    }
  }

  /** Rejects are among the candidates. */
  lemma {:induction false} RejectsAmong(rules: seq<Rule>, rk: Ranking, stacks: seq<Stack>, cands: seq<Candidate>,
                                        rejects: seq<Candidate>)
    requires RulesOk(rules) && NoLeftRecursion(rules, rk) && AllSettled(rules, stacks)
      && IsRejects(rules, rk, stacks, cands, rejects)
    ensures forall i :: 0 <= i < |rejects| ==> rejects[i] in cands
  {
    hide RulesOk, NoLeftRecursion, AllSettled, Survives;
    forall i | 0 <= i < |rejects| ensures rejects[i] in cands {
      assert RejectCount(rules, rk, stacks, cands, rejects, rejects[i]);
      assert rejects[i] in multiset(rejects);
      assert rejects[i] in multiset(cands);
    }
  }

  /** The rejects of one stack: those that fail at its top, and those rejected behind it. */
  lemma {:induction false} CombineRejects(rules: seq<Rule>, rk: Ranking, s: Stack, cands: seq<Candidate>,
                                          rejects: seq<Candidate>,
                                          next: seq<Candidate>, nextRejects: seq<Candidate>)
    requires RulesOk(rules) && NoLeftRecursion(rules, rk) && Settled(rules, s) && s != [] && AllSettled(rules, [s])
      && CandidatesOk(cands)
    requires Sorted(rules, s, cands, rejects, next) && StackOk(rules, After(rules, s))
    requires AllSettled(rules, Advance(rules, rk, After(rules, s)))
    requires IsRejects(rules, rk, Advance(rules, rk, After(rules, s)), next, nextRejects)
    ensures forall i :: 0 <= i < |nextRejects| ==> nextRejects[i].at > 0
    ensures IsRejects(rules, rk, [s], cands, rejects + Back(nextRejects))
  {
    var stacks := Advance(rules, rk, After(rules, s));
    RejectsAmong(rules, rk, stacks, next, nextRejects);
    hide RulesOk, NoLeftRecursion, AllSettled, Settled, Survives, StackOk, Advance, After, FailsHere, GoesOn;
    forall c ensures RejectCount(rules, rk, [s], cands, rejects + Back(nextRejects), c) {
      BackCount(nextRejects, c);
      assert RejectCount(rules, rk, stacks, next, nextRejects, Next(c));
      assert SortedCount(rules, s, cands, rejects, next, c);
      if c in cands {
        assert CandidateOk(c);
        SurvivesByCase(rules, rk, s, c);
      } else {
        assert multiset(cands)[c] == 0;
      }
    }
  }

  lemma {:induction false} SurvivesByCase(rules: seq<Rule>, rk: Ranking, s: Stack, c: Candidate)
    requires RulesOk(rules) && NoLeftRecursion(rules, rk) && Settled(rules, s) && s != [] && AllSettled(rules, [s])
    requires CandidateOk(c) && StackOk(rules, After(rules, s)) && AllSettled(rules, Advance(rules, rk, After(rules, s)))
    ensures FailsHere(rules, s, c) ==> !GoesOn(rules, s, c) && !Survives(rules, rk, [s], c)
    ensures GoesOn(rules, s, c) ==>
      (Survives(rules, rk, [s], c) <==> Survives(rules, rk, Advance(rules, rk, After(rules, s)), Next(c)))
    ensures !FailsHere(rules, s, c) && !GoesOn(rules, s, c) ==> Survives(rules, rk, [s], c)
  {
    assert c.at < |c.codePoints| && (c.codePoints[c.at] == 0 ==> Text(c) == []);
    hide RulesOk, NoLeftRecursion, Settled, AllSettled, StackOk, CandidateOk, Survives, Advance, After, Accepts,
      PartialFits, Text;
    if c.codePoints[c.at] == 0 {
      SurvivesEnd(rules, rk, s, c);
    } else {
      SurvivesStep(rules, rk, s, c);
    }
  }

  /** No candidate has more than n code points left. */
  ghost predicate TextsWithin(cands: seq<Candidate>, n: nat) {
    forall i :: 0 <= i < |cands| ==> |Text(cands[i])| <= n
  }

  method RejectForEmptyStack(rules: seq<Rule>, cands: seq<Candidate>, ghost rk: Ranking)
    returns (rejects: seq<Candidate>)
    requires RulesOk(rules) && NoLeftRecursion(rules, rk) && CandidatesOk(cands)
    ensures AllSettled(rules, [[]]) && IsRejects(rules, rk, [[]], cands, rejects)
  {
    OneSettled(rules, []);
    assert Settled(rules, []);
    hide RulesOk, NoLeftRecursion, AllSettled, Survives, Settled;
    rejects := [];
    for i := 0 to |cands|
      invariant IsRejects(rules, rk, [[]], cands[..i], rejects)
    {
      var tok := cands[i];
      assert CandidateOk(tok);
      SurvivesEmpty(rules, rk, tok);
      ghost var before := rejects;
      if tok.codePoints[tok.at] != 0 || tok.partial.nRemain != 0 {
        rejects := rejects + [tok];
      }
      EmptyStackStep(rules, rk, cands[..i], tok, before, rejects);
      assert cands[..i + 1] == cands[..i] + [tok];
    }
    assert cands[..|cands|] == cands;
  }

  lemma {:induction false} EmptyStackStep(rules: seq<Rule>, rk: Ranking, seen: seq<Candidate>, tok: Candidate,
                                          before: seq<Candidate>, rejects: seq<Candidate>)
    requires RulesOk(rules) && NoLeftRecursion(rules, rk) && AllSettled(rules, [[]])
    requires IsRejects(rules, rk, [[]], seen, before)
    requires rejects == before + if Survives(rules, rk, [[]], tok) then [] else [tok]
    ensures IsRejects(rules, rk, [[]], seen + [tok], rejects)
  {
    hide RulesOk, NoLeftRecursion, AllSettled, Survives;
    var all := seen + [tok];
    forall c ensures RejectCount(rules, rk, [[]], all, rejects, c) {
      assert RejectCount(rules, rk, [[]], seen, before, c);
    }
  }

  /** Sorts the candidates at the character class on top of the stack. */
  method SortCandidates(rules: seq<Rule>, stack: Stack, cands: seq<Candidate>, ghost n: nat)
    returns (rejects: seq<Candidate>, next: seq<Candidate>)
    requires RulesOk(rules) && Settled(rules, stack) && stack != [] && CandidatesOk(cands) && TextsWithin(cands, n)
    ensures Sorted(rules, stack, cands, rejects, next) && CandidatesOk(next) && |next| <= |cands|
    ensures next != [] ==> n > 0 && TextsWithin(next, n - 1)
  {
    hide RulesOk, Accepts, PartialAccepted, Sorted;
    var top := stack[|stack| - 1];
    rejects, next := [], [];
    assert Sorted(rules, stack, [], [], []) by { SortNone(rules, stack); }
    for i := 0 to |cands|
      invariant Sorted(rules, stack, cands[..i], rejects, next) && CandidatesOk(next) && |next| <= i
      invariant next != [] ==> n > 0 && TextsWithin(next, n - 1)
    {
      var tok := cands[i];
      assert CandidateOk(tok) && |Text(tok)| <= n;
      ghost var rejects0, next0 := rejects, next;
      if tok.codePoints[tok.at] == 0 {
        if tok.partial.nRemain != 0 {
          var fits := MatchPartialChar(rules, top, tok.partial);
          if !fits {
            rejects := rejects + [tok];
          }
        }
      } else {
        var ok, end := MatchChar(rules, top, tok.codePoints[tok.at]);
        if ok {
          NextText(tok);
          next := next + [Next(tok)];
        } else {
          rejects := rejects + [tok];
        }
      }
      SortStep(rules, stack, cands[..i], rejects0, next0, tok, rejects, next);
      assert cands[..i + 1] == cands[..i] + [tok];
    }
    assert cands[..|cands|] == cands;
  }

  lemma {:induction false} NextText(c: Candidate)
    requires CandidateOk(c) && c.codePoints[c.at] != 0
    ensures CandidateOk(Next(c)) && |Text(Next(c))| == |Text(c)| - 1
  {
  }

  lemma {:induction false} SortNone(rules: seq<Rule>, s: Stack)
    requires RulesOk(rules) && Settled(rules, s) && s != []
    ensures Sorted(rules, s, [], [], [])
  {
  }

  method RejectForStack(rules: seq<Rule>, stack: Stack, cands: seq<Candidate>, ghost rk: Ranking, ghost n: nat)
    returns (rejects: seq<Candidate>)
    requires RulesOk(rules) && NoLeftRecursion(rules, rk) && Settled(rules, stack)
    requires CandidatesOk(cands) && TextsWithin(cands, n)
    ensures AllSettled(rules, [stack]) && IsRejects(rules, rk, [stack], cands, rejects)
    decreases if cands == [] then 0 else n + 1, 2
  {
    OneSettled(rules, stack);
    if stack == [] {
      rejects := RejectForEmptyStack(rules, cands, rk);
      return;
    }
    AfterOk(rules, stack);
    AdvanceSettles(rules, rk, After(rules, stack));
    var next, end, ok, nextStacks, nextRejects;
    rejects, next := SortCandidates(rules, stack, cands, n);
    ok, end := MatchChar(rules, stack[|stack| - 1], 0);
    var after := Push(rules, stack[..|stack| - 1], end);
    assert after == After(rules, stack);
    hide RulesOk, NoLeftRecursion, Settled, AllSettled, StackOk, Sorted, IsRejects, CandidatesOk, Advance, After, Push;
    nextStacks := AdvanceStack(rules, after, [], rk);
    assert nextStacks == Advance(rules, rk, after);
    nextRejects := RejectCandidates(rules, nextStacks, next, rk, if next == [] then 0 else n - 1);
    CombineRejects(rules, rk, stack, cands, rejects, next, nextRejects);
    rejects := Restore(rejects, nextRejects);
  }

  /** Appends the rejects found behind, their cursors moved back. */
  method Restore(rejects: seq<Candidate>, behind: seq<Candidate>) returns (all: seq<Candidate>)
    requires forall i :: 0 <= i < |behind| ==> behind[i].at > 0
    ensures all == rejects + Back(behind)
  {
    all := rejects;
    for i := 0 to |behind|
      invariant all == rejects + Back(behind[..i])
    {
      assert behind[..i + 1][..i] == behind[..i];
      all := all + [behind[i].(at := behind[i].at - 1)];
    }
    assert behind[..|behind|] == behind;
  }

  /** A candidate is rejected exactly if it survives none of the stacks; without stacks nothing is. */
  method RejectCandidates(rules: seq<Rule>, stacks: seq<Stack>, cands: seq<Candidate>, ghost rk: Ranking, ghost n: nat)
    returns (rejects: seq<Candidate>)
    requires RulesOk(rules) && NoLeftRecursion(rules, rk) && AllSettled(rules, stacks)
    requires CandidatesOk(cands) && TextsWithin(cands, n)
    ensures stacks != [] ==> IsRejects(rules, rk, stacks, cands, rejects)
    ensures stacks == [] ==> rejects == []
    decreases if cands == [] then 0 else n + 1, if cands == [] then 1 else 3
  {
    if cands == [] || stacks == [] {
      return [];
    }
    assert Settled(rules, stacks[0]);
    rejects := RejectForStack(rules, stacks[0], cands, rk, n);
    assert stacks[..1] == [stacks[0]];
    var i := 1;
    hide RulesOk, NoLeftRecursion, IsRejects, Settled, Text, CandidateOk, Survives;
    while i < |stacks|
      invariant
        1 <= i <= |stacks| && AllSettled(rules, stacks[..i]) && IsRejects(rules, rk, stacks[..i], cands, rejects)
    {
      RejectsAmong(rules, rk, stacks[..i], cands, rejects);
      ghost var before := rejects;
      assert stacks[..i + 1] == stacks[..i] + [stacks[i]];
      rejects := RejectForStack(rules, stacks[i], rejects, rk, n);
      ChainRejects(rules, rk, stacks[..i], [stacks[i]], cands, before, rejects);
      i := i + 1;
    }
    assert stacks[..|stacks|] == stacks;
  }

  lemma {:induction false} ChainRejects(rules: seq<Rule>, rk: Ranking, a: seq<Stack>, b: seq<Stack>,
                                        cands: seq<Candidate>, first: seq<Candidate>, second: seq<Candidate>)
    requires RulesOk(rules) && NoLeftRecursion(rules, rk) && AllSettled(rules, a) && AllSettled(rules, b)
    requires IsRejects(rules, rk, a, cands, first) && IsRejects(rules, rk, b, first, second)
    ensures AllSettled(rules, a + b) && IsRejects(rules, rk, a + b, cands, second)
  {
    SettledConcat(rules, a, b);
    hide RulesOk, NoLeftRecursion, AllSettled, Survives;
    forall c ensures RejectCount(rules, rk, a + b, cands, second, c) {
      SurvivesConcat(rules, rk, a, b, c);
      assert RejectCount(rules, rk, a, cands, first, c) && RejectCount(rules, rk, b, first, second, c);
    }
  }

  /** Without stacks nothing can survive, so rejecting nothing is right only if there are no candidates. */
  lemma {:induction false} NoStacksRejectsNothing(rules: seq<Rule>, rk: Ranking, cands: seq<Candidate>)
    requires RulesOk(rules) && NoLeftRecursion(rules, rk)
    ensures IsRejects(rules, rk, [], cands, []) <==> cands == []
  {
    hide RulesOk, NoLeftRecursion, Text;
    if cands != [] {
      NoStacks(rules, rk, Text(cands[0]));
      assert cands[0] in multiset(cands);
      assert !RejectCount(rules, rk, [], cands, [], cands[0]);
    }
  }
}
