/** Compiled grammars mean what was written. */
module GrammarMeaning {
  import opened Grammar
  import opened GrammarSegments
  import opened GrammarSyntax

  datatype Compiled = Compiled(rules: seq<Rule>, ids: map<string, nat>, g: Definitions)

  /** Every group and repetition has its rule, and every name its number. */
  ghost predicate Wired(c: Compiled, e: Expr)
    decreases e, 0
  {
    match e
    case Literal(_) => true
    case Class(_, ranges) => ranges != []
    case Ref(name, id) => name in c.g && name in c.ids && c.ids[name] == id
    case Group(alts, id) => id < |c.rules| && c.rules[id] == RuleOf(Runs(alts)) && WiredAlts(c, alts)
    case Repeat(item, op, id) =>
      id < |c.rules| && c.rules[id] == RuleOf(RepeatRuns(Elems(item), op, id)) && Wired(c, item)
  }

  ghost predicate WiredItems(c: Compiled, s: Items)
    decreases s, 1
  {
    s.Then? ==> WiredItems(c, s.before) && Wired(c, s.last)
  }

  ghost predicate WiredAlts(c: Compiled, a: Alts)
    decreases a, 1
  {
    WiredItems(c, a.items) && (a.Or? ==> WiredAlts(c, a.first))
  }

  ghost predicate Defined(c: Compiled, name: string)
    requires name in c.g
  {
    && name in c.ids && c.ids[name] < |c.rules|
    && c.rules[c.ids[name]] == RuleOf(Runs(c.g[name])) && WiredAlts(c, c.g[name])
  }

  ghost predicate CompiledOk(c: Compiled)
    ensures CompiledOk(c) ==> RulesOk(c.rules)
  {
    RulesOk(c.rules) && forall name :: name in c.g ==> Defined(c, name)
  }

  function Max(a: nat, b: nat): nat {
    if a < b then b else a
  }

  lemma {:induction false} IsDefined(c: Compiled, name: string)
    requires CompiledOk(c) && name in c.g
    ensures Defined(c, name)
  {
  }

  // ---------------------------------------------------------------------------------------------
  // What is meant is derived

  lemma {:induction false} MeansSeg(c: Compiled, e: Expr, w: Word, n: nat) returns (m: nat)
    requires CompiledOk(c) && Wired(c, e) && Means(c.g, n, e, w)
    ensures Seg(c.rules, Elems(e), w, m)
    decreases n, e, 0, 0
  {
    hide CompiledOk, Seg, AltsDerive, Runs, RuleOf, RulesOk, RepeatRuns;
    match e
    case Literal(chars) =>
      m := 0;
      LiteralMeans(c.rules, chars, w, 0);
    case Class(_, _) =>
      m := n;
      ClassMeans(c.rules, c.g, e, w, n);
    case Ref(name, id) =>
      IsDefined(c, name);
      var l := MeansAltsSeg(c, c.g[name], w, n - 1);
      m := RuleSeg(c, id, c.g[name], w, l);
    case Group(alts, id) =>
      var l := MeansAltsSeg(c, alts, w, n);
      m := RuleSeg(c, id, alts, w, l);
    case Repeat(item, op, id) =>
      m := MeansRepeatSeg(c, e, w, n);
  }

  lemma {:induction false} MeansRepeatSeg(c: Compiled, e: Expr, w: Word, n: nat) returns (m: nat)
    requires CompiledOk(c) && Wired(c, e) && e.Repeat? && Means(c.g, n, e, w)
    ensures Seg(c.rules, [Element(RULE_REF, e.id)], w, m)
    decreases n, e.item, 3, 0
  {
    hide CompiledOk, Seg, RuleOf, RulesOk, RepeatRuns;
    if e.op == Query {
      m := QuerySeg(c, e, w, n);
    } else {
      var k: nat :| (e.op == Plus ==> k > 0) && Times(c.g, n, e.item, k, w);
      var l := TimesSeg(c, e, k, w, n);
      m := l + 1;
      SegRef(c.rules, e.id, w, m);
    }
  }

  /** A reference to a rule with these alternatives. */
  lemma {:induction false} RuleSeg(c: Compiled, id: nat, a: Alts, w: Word, l: nat) returns (m: nat)
    requires RulesOk(c.rules) && id < |c.rules| && c.rules[id] == RuleOf(Runs(a)) && AltsDerive(c.rules, Runs(a), w, l)
    ensures Seg(c.rules, [Element(RULE_REF, id)], w, m)
  {
    RunsPlain(a);
    RuleOfRuns(c.rules, id, Runs(a), w, l);
    m := l + 1;
    SegRef(c.rules, id, w, m);
  }

  lemma {:induction false} MeansItemsSeg(c: Compiled, s: Items, w: Word, n: nat) returns (m: nat)
    requires CompiledOk(c) && WiredItems(c, s) && MeansItems(c.g, n, s, w)
    ensures Seg(c.rules, ItemElems(s), w, m)
    decreases n, s, 1, 0
  {
    if s.Nothing? {
      m := 0;
      SegNone(c.rules, w, 0);
    } else {
      var i: nat :| ItemsSplit(c.g, n, s.before, s.last, w, i);
      var m1 := MeansItemsSeg(c, s.before, w[..i], n);
      var m2 := MeansSeg(c, s.last, w[i..], n);
      m := Max(m1, m2);
      ElemsPlain(s.last);
      JoinSegs(c.rules, ItemElems(s.before), Elems(s.last), w, m1, m2, i);
    }
  }

  lemma {:induction false} JoinSegs(rules: seq<Rule>, a: seq<Element>, b: seq<Element>, w: Word, m1: nat, m2: nat,
                                    i: nat)
    requires RulesOk(rules) && i <= |w| && Seg(rules, a, w[..i], m1) && Seg(rules, b, w[i..], m2) && Plain(b)
    ensures Seg(rules, a + b, w, Max(m1, m2))
  {
    SegMore(rules, a, w[..i], m1, Max(m1, m2));
    SegMore(rules, b, w[i..], m2, Max(m1, m2));
    assert Closed(b, 0);
    hide Seg;
    SegJoin(rules, a, b, w, Max(m1, m2), i);
  }

  lemma {:induction false} MeansAltsSeg(c: Compiled, a: Alts, w: Word, n: nat) returns (m: nat)
    requires CompiledOk(c) && WiredAlts(c, a) && MeansAlts(c.g, n, a, w)
    ensures AltsDerive(c.rules, Runs(a), w, m)
    decreases n, a, 1, 0
  {
    hide CompiledOk, Seg, WiredItems, RulesOk;
    var runs := Runs(a);
    if a.Or? && MeansAlts(c.g, n, a.first, w) {
      m := MeansAltsSeg(c, a.first, w, n);
      var i :| 0 <= i < |Runs(a.first)| && Seg(c.rules, Runs(a.first)[i], w, m);
      assert runs[i] == Runs(a.first)[i];
    } else {
      m := MeansItemsSeg(c, a.items, w, n);
      assert runs[|runs| - 1] == ItemElems(a.items);
    }
  }

  lemma {:induction false} QuerySeg(c: Compiled, e: Expr, w: Word, n: nat) returns (m: nat)
    requires CompiledOk(c) && Wired(c, e) && e.Repeat? && e.op == Query && Means(c.g, n, e, w)
    ensures Seg(c.rules, [Element(RULE_REF, e.id)], w, m)
    decreases n, e.item, 2, 0
  {
    var es := Elems(e.item);
    if w == [] {
      SegNone(c.rules, w, 0);
      m := RepeatSeg(c, e, w, 1, 0);
    } else {
      var l := MeansSeg(c, e.item, w, n);
      assert es + [] == es;
      m := RepeatSeg(c, e, w, 0, l);
    }
  }

  /** A reference to a repetition's rule, by one of its two alternatives. */
  lemma {:induction false} RepeatSeg(c: Compiled, e: Expr, w: Word, i: nat, l: nat) returns (m: nat)
    requires RulesOk(c.rules) && Wired(c, e) && e.Repeat? && i < 2
      && Seg(c.rules, RepeatRuns(Elems(e.item), e.op, e.id)[i], w, l)
    ensures RuleDerives(c.rules, e.id, w, l) && Seg(c.rules, [Element(RULE_REF, e.id)], w, m) && m == l + 1
  {
    var runs := RepeatRuns(Elems(e.item), e.op, e.id);
    ElemsPlain(e.item);
    RepeatPlain(Elems(e.item), e.op, e.id);
    assert AltsDerive(c.rules, runs, w, l);
    RuleOfRuns(c.rules, e.id, runs, w, l);
    m := l + 1;
    SegRef(c.rules, e.id, w, m);
  }

  lemma {:induction false} TimesSeg(c: Compiled, e: Expr, k: nat, w: Word, n: nat) returns (m: nat)
    requires CompiledOk(c) && Wired(c, e) && e.Repeat? && e.op != Query && (e.op == Plus ==> k > 0)
      && Times(c.g, n, e.item, k, w)
    ensures RuleDerives(c.rules, e.id, w, m)
    decreases n, e.item, 2, k
  {
    var es, ref := Elems(e.item), [Element(RULE_REF, e.id)];
    if k == 0 {
      SegNone(c.rules, w, 0);
      var l := RepeatSeg(c, e, w, 1, 0);
      m := 0;
    } else {
      var i: nat :| TimesSplit(c.g, n, e.item, k, w, i);
      var m1 := MeansSeg(c, e.item, w[..i], n);
      if k == 1 && e.op == Plus {
        assert Times(c.g, n, e.item, 0, w[i..]);
        assert w[i..] == [] && w[..i] == w;
        var l := RepeatSeg(c, e, w, 1, m1);
        m := m1;
      } else {
        var m2 := TimesSeg(c, e, k - 1, w[i..], n);
        SegRef(c.rules, e.id, w[i..], m2 + 1);
        JoinSegs(c.rules, es, ref, w, m1, m2 + 1, i);
        m := Max(m1, m2 + 1);
        var l := RepeatSeg(c, e, w, 0, m);
      }
    }
  }

  // ---------------------------------------------------------------------------------------------
  // What is derived is meant

  lemma {:induction false} SegMeans(c: Compiled, e: Expr, w: Word, m: nat) returns (n: nat)
    requires CompiledOk(c) && Wired(c, e) && Seg(c.rules, Elems(e), w, m)
    ensures Means(c.g, n, e, w)
    decreases m, e, 0
  {
    hide CompiledOk, Seg, AltsDerive, Runs, RuleOf, RulesOk, RepeatRuns, RuleDerives;
    match e
    case Literal(chars) =>
      n := 0;
      LiteralMeans(c.rules, chars, w, m);
    case Class(_, _) =>
      n := m;
      ClassMeans(c.rules, c.g, e, w, m);
    case Ref(name, id) =>
      IsDefined(c, name);
      SegRef(c.rules, id, w, m);
      var l := RuleMeans(c, id, c.g[name], w, m - 1);
      n := l + 1;
    case Group(alts, id) =>
      SegRef(c.rules, id, w, m);
      n := RuleMeans(c, id, alts, w, m - 1);
    case Repeat(item, op, id) =>
      SegRef(c.rules, id, w, m);
      if op == Query {
        n := QueryMeans(c, e, w, m - 1);
      } else {
        var k;
        n, k := RepeatMeans(c, e, w, m - 1);
      }
  }

  lemma {:induction false} RuleMeans(c: Compiled, id: nat, a: Alts, w: Word, m: nat) returns (n: nat)
    requires CompiledOk(c) && WiredAlts(c, a) && id < |c.rules| && c.rules[id] == RuleOf(Runs(a))
    requires RuleDerives(c.rules, id, w, m)
    ensures MeansAlts(c.g, n, a, w)
    decreases m, a, 2
  {
    hide CompiledOk, Seg, AltsDerive, Runs, RulesOk, RuleDerives;
    RunsPlain(a);
    RuleOfRuns(c.rules, id, Runs(a), w, m);
    n := AltsMeans(c, a, w, m);
  }

  lemma {:induction false} QueryMeans(c: Compiled, e: Expr, w: Word, m: nat) returns (n: nat)
    requires CompiledOk(c) && Wired(c, e) && e.Repeat? && e.op == Query && RuleDerives(c.rules, e.id, w, m)
    ensures Means(c.g, n, e, w)
    decreases m, e.item, 1
  {
    hide CompiledOk, Seg, RulesOk;
    var i := RepeatChoice(c, e, w, m);
    if i == 1 {
      n := 0;
      SegNone(c.rules, w, m);
    } else {
      assert Elems(e.item) + [] == Elems(e.item);
      n := SegMeans(c, e.item, w, m);
    }
  }

  lemma {:induction false} RepeatChoice(c: Compiled, e: Expr, w: Word, m: nat) returns (i: nat)
    requires RulesOk(c.rules) && Wired(c, e) && e.Repeat? && RuleDerives(c.rules, e.id, w, m)
    ensures i < 2 && Seg(c.rules, RepeatRuns(Elems(e.item), e.op, e.id)[i], w, m)
  {
    var runs := RepeatRuns(Elems(e.item), e.op, e.id);
    ElemsPlain(e.item);
    RepeatPlain(Elems(e.item), e.op, e.id);
    RuleOfRuns(c.rules, e.id, runs, w, m);
    var j :| 0 <= j < |runs| && Seg(c.rules, runs[j], w, m);
    i := j;
  }

  lemma {:induction false} ItemsMeans(c: Compiled, s: Items, w: Word, m: nat) returns (n: nat)
    requires CompiledOk(c) && WiredItems(c, s) && Seg(c.rules, ItemElems(s), w, m)
    ensures MeansItems(c.g, n, s, w)
    decreases m, s, 1
  {
    if s.Nothing? {
      n := 0;
      SegNone(c.rules, w, m);
    } else {
      ElemsPlain(s.last);
      assert Closed(Elems(s.last), 0);
      var i := SegCut(c.rules, ItemElems(s.before), Elems(s.last), w, m);
      var n1 := ItemsMeans(c, s.before, w[..i], m);
      var n2 := SegMeans(c, s.last, w[i..], m);
      n := Max(n1, n2);
      ItemsMore(c.g, n1, n, s.before, w[..i]);
      MeansMore(c.g, n2, n, s.last, w[i..]);
      assert ItemsSplit(c.g, n, s.before, s.last, w, i);
    }
  }

  lemma {:induction false} AltsMeans(c: Compiled, a: Alts, w: Word, m: nat) returns (n: nat)
    requires CompiledOk(c) && WiredAlts(c, a) && AltsDerive(c.rules, Runs(a), w, m)
    ensures MeansAlts(c.g, n, a, w)
    decreases m, a, 1
  {
    var runs := Runs(a);
    var i :| 0 <= i < |runs| && Seg(c.rules, runs[i], w, m);
    hide CompiledOk, Seg, WiredItems, RulesOk;
    if i == |runs| - 1 {
      n := ItemsMeans(c, a.items, w, m);
    } else {
      assert Runs(a.first)[i] == runs[i];
      n := AltsMeans(c, a.first, w, m);
    }
  }

  lemma {:induction false} RepeatMeans(c: Compiled, e: Expr, w: Word, m: nat) returns (n: nat, k: nat)
    requires CompiledOk(c) && Wired(c, e) && e.Repeat? && e.op != Query && RuleDerives(c.rules, e.id, w, m)
    ensures Times(c.g, n, e.item, k, w) && (e.op == Plus ==> k > 0)
    decreases m, e.item, 1
  {
    var es, ref := Elems(e.item), [Element(RULE_REF, e.id)];
    var i := RepeatChoice(c, e, w, m);
    assert RepeatRuns(es, e.op, e.id)[i] == if i == 0 then es + ref else if e.op == Plus then es else [];
    assert Closed(ref, 0);
    hide CompiledOk, RulesOk, Seg, RepeatRuns, RuleDerives, Elems, RuleOf, Means;
    if i == 0 {
      var j := SegCut(c.rules, es, ref, w, m);
      SegRef(c.rules, e.id, w[j..], m);
      var n1 := SegMeans(c, e.item, w[..j], m);
      var n2, l := RepeatMeans(c, e, w[j..], m - 1);
      n, k := Max(n1, n2), l + 1;
      MeansMore(c.g, n1, n, e.item, w[..j]);
      TimesMore(c.g, n2, n, e.item, l, w[j..]);
      assert TimesSplit(c.g, n, e.item, k, w, j);
    } else if e.op == Star {
      SegNone(c.rules, w, m);
      n, k := 0, 0;
    } else {
      n := SegMeans(c, e.item, w, m);
      k := 1;
      OneTime(c.g, n, e.item, w);
    }
  }

  lemma {:induction false} OneTime(g: Definitions, n: nat, e: Expr, w: Word)
    requires Means(g, n, e, w)
    ensures Times(g, n, e, 1, w)
  {
    assert w[..|w|] == w && w[|w|..] == [];
    assert Times(g, n, e, 0, w[|w|..]);
    assert TimesSplit(g, n, e, 1, w, |w|);
  }

  // ---------------------------------------------------------------------------------------------

  /** A class is compiled to what it means exactly if it lists something: an empty one is compiled to
      nothing at all, and so matches the empty word. */
  lemma {:induction false} ClassExact(rules: seq<Rule>, g: Definitions, e: Expr, n: nat)
    requires RulesOk(rules) && e.Class?
    ensures (forall w: Word :: Seg(rules, Elems(e), w, n) <==> Means(g, n, e, w)) <==> e.ranges != []
  {
    if e.ranges != [] {
      forall w: Word ensures Seg(rules, Elems(e), w, n) <==> Means(g, n, e, w) {
        ClassMeans(rules, g, e, w, n);
      }
    } else {
      SegNone(rules, [], n);
      assert Seg(rules, Elems(e), [], n) && !Means(g, n, e, []);
    }
  }

  /** For every defined name, the rule it is compiled to derives exactly the words its definition means. */
  lemma {:induction false} MeaningPreserved(c: Compiled, name: string, w: Word)
    requires CompiledOk(c) && name in c.g
    ensures Defined(c, name)
    ensures RuleLang(c.rules, c.ids[name], w) <==> exists n: nat :: MeansAlts(c.g, n, c.g[name], w)
  {
    IsDefined(c, name);
    hide CompiledOk, RulesOk, Runs, MeansAlts, AltsDerive, WiredAlts;
    var r, a := c.ids[name], c.g[name];
    RunsPlain(a);
    if RuleLang(c.rules, r, w) {
      var m := LangDerives(c.rules, r, w);
      RuleOfRuns(c.rules, r, Runs(a), w, m);
      var n := AltsMeans(c, a, w, m);
    }
    if exists n: nat :: MeansAlts(c.g, n, a, w) {
      var n: nat :| MeansAlts(c.g, n, a, w);
      var m := MeansAltsSeg(c, a, w, n);
      RuleOfRuns(c.rules, r, Runs(a), w, m);
      DerivesLang(c.rules, r, w, m);
    }
  }

  lemma {:induction false} LangDerives(rules: seq<Rule>, r: nat, w: Word) returns (m: nat)
    requires RulesOk(rules) && r < |rules| && RuleLang(rules, r, w)
    ensures RuleDerives(rules, r, w, m)
  {
    var s: nat :| AltLang(rules, r, s, w);
    AltStartOk(rules, r, s);
    m :| Derives(rules, Pos(r, s), w, m);
    assert DerivesAlt(rules, r, s, w, m);
  }

  lemma {:induction false} DerivesLang(rules: seq<Rule>, r: nat, w: Word, m: nat)
    requires RulesOk(rules) && r < |rules| && RuleDerives(rules, r, w, m)
    ensures RuleLang(rules, r, w)
  {
    var s: nat :| AltStart(rules[r], s) && DerivesAlt(rules, r, s, w, m);
    AltStartOk(rules, r, s);
    assert Derives(rules, Pos(r, s), w, m);
    assert Lang(rules, Pos(r, s), w);
    assert AltLang(rules, r, s, w);
  }
}
