/** Flat grammar rules, and the language they describe. */
module Grammar {
  datatype Kind = END | ALT | RULE_REF | CHAR | CHAR_NOT | CHAR_RNG_UPPER | CHAR_ALT

  datatype Element = Element(kind: Kind, value: nat)

  type Rule = seq<Element>
  type Word = seq<nat>    // code points

  /** A pointer into the rules. */
  datatype Pos = Pos(rule: nat, at: nat)

  type Stack = seq<Pos>   // the top is last

  predicate IsEnd(e: Element) {
    e.kind == END || e.kind == ALT
  }

  predicate IsChar(e: Element) {
    e.kind == CHAR || e.kind == CHAR_NOT
  }

  /** A rule ends with its only END; a range's upper bound follows its lower bound, and further
      members of a character class follow the class. */
  ghost predicate RuleOk(rule: Rule, n: nat) {
    && |rule| > 0 && rule[|rule| - 1].kind == END && (forall i :: 0 <= i < |rule| - 1 ==> rule[i].kind != END)
    && (forall i :: 0 <= i < |rule| && rule[i].kind == RULE_REF ==> rule[i].value < n)
    && (forall i :: 0 <= i < |rule| && rule[i].kind == CHAR_RNG_UPPER ==>
         i > 0 && rule[i - 1].kind in {CHAR, CHAR_NOT, CHAR_ALT})
    && (forall i :: 0 <= i < |rule| && rule[i].kind == CHAR_ALT ==>
         i > 0 && rule[i - 1].kind in {CHAR, CHAR_NOT, CHAR_ALT, CHAR_RNG_UPPER})
  }

  ghost predicate RulesOk(rules: seq<Rule>) {
    forall r :: 0 <= r < |rules| ==> RuleOk(rules[r], |rules|)
  }

  ghost predicate PosOk(rules: seq<Rule>, p: Pos) {
    && p.rule < |rules| && p.at < |rules[p.rule]|
    && rules[p.rule][p.at].kind in {END, ALT, RULE_REF, CHAR, CHAR_NOT}
  }

  function At(rules: seq<Rule>, p: Pos): Element
    requires p.rule < |rules| && p.at < |rules[p.rule]|
  {
    rules[p.rule][p.at]
  }

  /** A frame of a stack: a reference or a character still to be matched. */
  ghost predicate FrameOk(rules: seq<Rule>, p: Pos) {
    PosOk(rules, p) && !IsEnd(At(rules, p))
  }

  ghost predicate StackOk(rules: seq<Rule>, s: Stack) {
    forall i :: 0 <= i < |s| ==> FrameOk(rules, s[i])
  }

  /** The start of one of the rule's alternatives. */
  predicate AltStart(rule: Rule, a: nat) {
    a < |rule| && (a == 0 || rule[a - 1].kind == ALT)
  }

  lemma {:induction false} AltStartOk(rules: seq<Rule>, r: nat, a: nat)
    requires RulesOk(rules) && r < |rules| && AltStart(rules[r], a)
    ensures PosOk(rules, Pos(r, a))
  {
    assert RuleOk(rules[r], |rules|);
  }

  // ---------------------------------------------------------------------------------------------
  // Character classes

  function ItemEnd(rule: Rule, i: nat): nat {
    if i + 1 < |rule| && rule[i + 1].kind == CHAR_RNG_UPPER then i + 2 else i + 1
  }

  /** The first element behind the character class that starts, or goes on, at i. */
  function ClassEnd(rule: Rule, i: nat): (e: nat)
    requires i < |rule|
    ensures e > i
    decreases |rule| - i
  {
    var next := ItemEnd(rule, i);
    if next < |rule| && rule[next].kind == CHAR_ALT then ClassEnd(rule, next) else next
  }

  /** c is one of the characters listed from i on. */
  predicate Listed(rule: Rule, i: nat, c: nat)
    requires i < |rule|
    decreases |rule| - i
  {
    var next := ItemEnd(rule, i);
    || (if next == i + 2 then rule[i].value <= c <= rule[i + 1].value else rule[i].value == c)
    || (next < |rule| && rule[next].kind == CHAR_ALT && Listed(rule, next, c))
  }

  /** The character class at i accepts c. */
  predicate Accepts(rule: Rule, i: nat, c: nat)
    requires i < |rule|
  {
    Listed(rule, i, c) == (rule[i].kind == CHAR)
  }

  lemma {:induction false} ClassEndOk(rules: seq<Rule>, p: Pos)
    requires RulesOk(rules) && p.rule < |rules| && p.at < |rules[p.rule]|
    requires At(rules, p).kind in {CHAR, CHAR_NOT, CHAR_ALT}
    ensures PosOk(rules, Pos(p.rule, ClassEnd(rules[p.rule], p.at)))
    decreases |rules[p.rule]| - p.at
  {
    var rule := rules[p.rule];
    assert RuleOk(rule, |rules|);
    var next := ItemEnd(rule, p.at);
    if next < |rule| && rule[next].kind == CHAR_ALT {
      ClassEndOk(rules, Pos(p.rule, next));
    }
  }

  lemma {:induction false} NextOk(rules: seq<Rule>, p: Pos)
    requires RulesOk(rules) && PosOk(rules, p) && At(rules, p).kind == RULE_REF
    ensures PosOk(rules, Pos(p.rule, p.at + 1)) && At(rules, p).value < |rules|
  {
    assert RuleOk(rules[p.rule], |rules|);
  }

  // ---------------------------------------------------------------------------------------------
  // The language: what a sequence, from a position to its end, derives with nesting up to n

  ghost predicate Derives(rules: seq<Rule>, p: Pos, w: Word, n: nat)
    requires RulesOk(rules) && PosOk(rules, p)
    decreases n, |rules[p.rule]| - p.at
  {
    var e := At(rules, p);
    if IsEnd(e) then w == []
    else if IsChar(e) then
      ClassEndOk(rules, p);
      w != [] && Accepts(rules[p.rule], p.at, w[0])
        && Derives(rules, Pos(p.rule, ClassEnd(rules[p.rule], p.at)), w[1..], n)
    else
      NextOk(rules, p);
      n > 0 && exists k: nat, a: nat ::
        k <= |w| && AltStart(rules[e.value], a) && DerivesAlt(rules, e.value, a, w[..k], n - 1)
        && Derives(rules, Pos(p.rule, p.at + 1), w[k..], n)
  }

  ghost predicate DerivesAlt(rules: seq<Rule>, r: nat, a: nat, w: Word, n: nat)
    requires RulesOk(rules) && r < |rules| && AltStart(rules[r], a)
    decreases n, |rules[r]| + 1
  {
    AltStartOk(rules, r, a);
    Derives(rules, Pos(r, a), w, n)
  }

  lemma {:induction false} RefDerives(rules: seq<Rule>, p: Pos, w: Word, n: nat) returns (k: nat, a: nat)
    requires RulesOk(rules) && PosOk(rules, p) && At(rules, p).kind == RULE_REF && Derives(rules, p, w, n)
    ensures PosOk(rules, Pos(p.rule, p.at + 1)) && PosOk(rules, Pos(At(rules, p).value, a)) && n > 0 && k <= |w|
    ensures AltStart(rules[At(rules, p).value], a) && Derives(rules, Pos(At(rules, p).value, a), w[..k], n - 1)
    ensures Derives(rules, Pos(p.rule, p.at + 1), w[k..], n)
  {
    NextOk(rules, p);
    var r := At(rules, p).value;
    k, a :| k <= |w| && AltStart(rules[r], a) && DerivesAlt(rules, r, a, w[..k], n - 1)
            && Derives(rules, Pos(p.rule, p.at + 1), w[k..], n);
    AltStartOk(rules, r, a);
  }

  lemma {:induction false} DerivesByRef(rules: seq<Rule>, p: Pos, w: Word, n: nat, k: nat, a: nat)
    requires RulesOk(rules) && PosOk(rules, p) && At(rules, p).kind == RULE_REF
    requires
      PosOk(rules, Pos(p.rule, p.at + 1)) && At(rules, p).value < |rules| && AltStart(rules[At(rules, p).value], a)
    requires PosOk(rules, Pos(At(rules, p).value, a)) && n > 0 && k <= |w|
    requires
      Derives(rules, Pos(At(rules, p).value, a), w[..k], n - 1) && Derives(rules, Pos(p.rule, p.at + 1), w[k..], n)
    ensures Derives(rules, p, w, n)
  {
    assert DerivesAlt(rules, At(rules, p).value, a, w[..k], n - 1);
  }

  lemma {:induction false} DerivesMore(rules: seq<Rule>, p: Pos, w: Word, m: nat, n: nat)
    requires RulesOk(rules) && PosOk(rules, p) && m <= n && Derives(rules, p, w, m)
    ensures Derives(rules, p, w, n)
    decreases m, |rules[p.rule]| - p.at
  {
    var e := At(rules, p);
    if IsChar(e) {
      ClassEndOk(rules, p);
      DerivesMore(rules, Pos(p.rule, ClassEnd(rules[p.rule], p.at)), w[1..], m, n);
    } else if e.kind == RULE_REF {
      var k, a := RefDerives(rules, p, w, m);
      DerivesMore(rules, Pos(e.value, a), w[..k], m - 1, n - 1);
      DerivesMore(rules, Pos(p.rule, p.at + 1), w[k..], m, n);
      DerivesByRef(rules, p, w, n, k, a);
    }
  }

  /** The words a sequence derives. */
  ghost predicate Lang(rules: seq<Rule>, p: Pos, w: Word)
    requires RulesOk(rules) && PosOk(rules, p)
  {
    exists n: nat :: Derives(rules, p, w, n)
  }

  /** The words a rule derives. */
  ghost predicate RuleLang(rules: seq<Rule>, r: nat, w: Word)
    requires RulesOk(rules) && r < |rules|
  {
    exists a: nat :: AltLang(rules, r, a, w)
  }

  ghost predicate AltLang(rules: seq<Rule>, r: nat, a: nat, w: Word)
    requires RulesOk(rules) && r < |rules|
  {
    AltStart(rules[r], a) && (AltStartOk(rules, r, a); Lang(rules, Pos(r, a), w))
  }

  lemma {:induction false} LangEnd(rules: seq<Rule>, p: Pos, w: Word)
    requires RulesOk(rules) && PosOk(rules, p) && IsEnd(At(rules, p))
    ensures Lang(rules, p, w) <==> w == []
  {
    if w == [] {
      assert Derives(rules, p, w, 0);
    }
  }

  lemma {:induction false} LangChar(rules: seq<Rule>, p: Pos, w: Word)
    requires RulesOk(rules) && PosOk(rules, p) && IsChar(At(rules, p))
    ensures PosOk(rules, Pos(p.rule, ClassEnd(rules[p.rule], p.at)))
    ensures Lang(rules, p, w) <==>
      w != [] && Accepts(rules[p.rule], p.at, w[0]) && Lang(rules, Pos(p.rule, ClassEnd(rules[p.rule], p.at)), w[1..])
  {
    ClassEndOk(rules, p);
    var next := Pos(p.rule, ClassEnd(rules[p.rule], p.at));
    if Lang(rules, p, w) {
      var n: nat :| Derives(rules, p, w, n);
      assert Derives(rules, next, w[1..], n);
    }
    if w != [] && Accepts(rules[p.rule], p.at, w[0]) && Lang(rules, next, w[1..]) {
      var n: nat :| Derives(rules, next, w[1..], n);
      assert Derives(rules, p, w, n);
    }
  }

  /** w splits at k into a word of the referenced rule and one of what follows the reference. */
  ghost predicate RefSplit(rules: seq<Rule>, p: Pos, w: Word, k: nat)
    requires RulesOk(rules) && PosOk(rules, p) && At(rules, p).kind == RULE_REF
  {
    NextOk(rules, p);
    k <= |w| && RuleLang(rules, At(rules, p).value, w[..k]) && Lang(rules, Pos(p.rule, p.at + 1), w[k..])
  }

  lemma {:induction false} RefSplits(rules: seq<Rule>, p: Pos, w: Word) returns (k: nat)
    requires RulesOk(rules) && PosOk(rules, p) && At(rules, p).kind == RULE_REF && Lang(rules, p, w)
    ensures RefSplit(rules, p, w, k)
  {
    NextOk(rules, p);
    var n: nat :| Derives(rules, p, w, n);
    var a;
    k, a := RefDerives(rules, p, w, n);
    assert AltLang(rules, At(rules, p).value, a, w[..k]);
  }

  lemma {:induction false} RefJoins(rules: seq<Rule>, p: Pos, w: Word, k: nat)
    requires RulesOk(rules) && PosOk(rules, p) && At(rules, p).kind == RULE_REF && RefSplit(rules, p, w, k)
    ensures Lang(rules, p, w)
  {
    NextOk(rules, p);
    var r, next := At(rules, p).value, Pos(p.rule, p.at + 1);
    var a: nat :| AltLang(rules, r, a, w[..k]);
    AltStartOk(rules, r, a);
    var m: nat :| Derives(rules, Pos(r, a), w[..k], m);
    var n: nat :| Derives(rules, next, w[k..], n);
    var top := if m + 1 < n then n else m + 1;
    DerivesMore(rules, Pos(r, a), w[..k], m, top - 1);
    DerivesMore(rules, next, w[k..], n, top);
    DerivesByRef(rules, p, w, top, k, a);
  }

  // ---------------------------------------------------------------------------------------------
  // Stacks

  /** What the frames derive, top first. */
  ghost predicate StackLang(rules: seq<Rule>, s: Stack, w: Word)
    requires RulesOk(rules) && StackOk(rules, s)
    decreases |s|
  {
    if s == [] then w == []
    else exists k: nat :: TopSplit(rules, s, w, k)
  }

  ghost predicate TopSplit(rules: seq<Rule>, s: Stack, w: Word, k: nat)
    requires RulesOk(rules) && StackOk(rules, s) && s != []
    decreases |s|, 0
  {
    && k <= |w| && Lang(rules, s[|s| - 1], w[..k])
    && StackLang(rules, s[..|s| - 1], w[k..])
  }

  /** A position is pushed only if something is left to match there. */
  function Push(rules: seq<Rule>, s: Stack, p: Pos): Stack
    requires p.rule < |rules| && p.at < |rules[p.rule]|
  {
    if IsEnd(At(rules, p)) then s else s + [p]
  }

  ghost predicate PushSplit(rules: seq<Rule>, s: Stack, p: Pos, w: Word, k: nat)
    requires RulesOk(rules) && StackOk(rules, s) && PosOk(rules, p)
  {
    k <= |w| && Lang(rules, p, w[..k]) && StackLang(rules, s, w[k..])
  }

  lemma {:induction false} PushLang(rules: seq<Rule>, s: Stack, p: Pos, w: Word)
    requires RulesOk(rules) && StackOk(rules, s) && PosOk(rules, p)
    ensures StackOk(rules, Push(rules, s, p))
    ensures StackLang(rules, Push(rules, s, p), w) <==> exists k: nat :: PushSplit(rules, s, p, w, k)
  {
    if IsEnd(At(rules, p)) {
      assert w[0..] == w && w[..0] == [];
      LangEnd(rules, p, w[..0]);
      if StackLang(rules, s, w) {
        assert PushSplit(rules, s, p, w, 0);
      }
      forall k: nat | PushSplit(rules, s, p, w, k) ensures StackLang(rules, s, w) {
        LangEnd(rules, p, w[..k]);
      }
    } else {
      var t := s + [p];
      assert t[..|t| - 1] == s;
      forall k: nat ensures k <= |w| ==> (TopSplit(rules, t, w, k) <==> PushSplit(rules, s, p, w, k)) {
      }
    }
  }
}
