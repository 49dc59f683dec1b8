/** A whole grammar, compiled definition by definition. */
module GrammarCompiler {
  import opened Grammar
  import opened GrammarSegments
  import opened GrammarSyntax
  import opened GrammarMeaning
  import opened GrammarTokens
  import opened SymbolNames
  import opened GrammarParser

  /** Between definitions: each name defined so far has its latest definition as its rule, no other written
      name has a rule, and all made-up symbols have theirs. */
  ghost predicate Linked(st: Symbols, defs: seq<Definition>) {
    && SymbolsOk(st)
    && (forall a :: a in Latest(defs) ==> HasDefinition(st, a, Latest(defs)[a]))
    && (forall a :: a in st.ids && IsWord(a) && RuleAt(st.rules, st.ids[a]) != [] ==> a in Latest(defs))
    && (forall i: nat :: i < |st.ids| && !WordNamed(st.ids, i) ==> RuleAt(st.rules, i) != [])
  }

  ghost predicate HasDefinition(st: Symbols, name: string, alts: Alts) {
    && name in st.ids && IsWord(name) && RuleAt(st.rules, st.ids[name]) == RuleOf(Runs(alts))
    && BuiltAlts(st, alts)
  }

  lemma {:induction false} StaysDefined(before: Symbols, st: Symbols, id: int, name: string, alts: Alts)
    requires
      HasDefinition(before, name, alts) && Numbered(before.ids) && ExtendsBut(before, st, id) && before.ids[name] != id
    ensures HasDefinition(st, name, alts)
  {
    assert Extends(before, st);
    StaysBuiltAlts(before, st, alts);
    assert before.ids[name] < |before.ids|;
    hide Runs, RuleOf, BuiltAlts;
  }

  lemma {:induction false} NameKept(before: Symbols, st: Symbols, id: int, a: string)
    requires ExtendsBut(before, st, id) && Numbered(before.ids) && Numbered(st.ids) && a in st.ids && IsWord(a)
      && st.ids[a] < |before.ids|
    ensures a in before.ids && before.ids[a] == st.ids[a]
  {
    var i := st.ids[a];
    assert WordNamed(st.ids, i);
    assert WordNamed(before.ids, i);
    var b :| b in before.ids && before.ids[b] == i && IsWord(b);
    assert st.ids[b] == i;
  }

  lemma {:induction false} LinkMore(before: Symbols, st: Symbols, defs: seq<Definition>, id: nat, d: Definition)
    requires Linked(before, defs) && SymbolsOk(st) && ExtendsBut(before, st, id)
    requires d.name in before.ids && before.ids[d.name] == id && HasDefinition(st, d.name, d.alts)
    ensures Linked(st, defs + [d])
  {
    LatestOf(defs, d);
    var g := Latest(defs + [d]);
    hide Latest, RuleOf, Runs, BuiltAlts, RuleOk, RuleAt;
    forall a | a in g ensures HasDefinition(st, a, g[a]) {
      if a != d.name {
        assert HasDefinition(before, a, Latest(defs)[a]);
        StaysDefined(before, st, id, a, g[a]);
      }
    }
    forall a | a in st.ids && IsWord(a) && RuleAt(st.rules, st.ids[a]) != [] ensures a in g {
      assert WordNamed(st.ids, st.ids[a]);
      if st.ids[a] < |before.ids| {
        NameKept(before, st, id, a);
      }
    }
    forall i: nat | i < |st.ids| && !WordNamed(st.ids, i) ensures RuleAt(st.rules, i) != [] {
      if i < |before.ids| {
        assert WordNamed(st.ids, i) == WordNamed(before.ids, i);
        assert i != id by {
          assert id == before.ids[d.name] && IsWord(d.name);
          assert WordNamed(before.ids, id);
        }
      }
    }
  }

  method ParseRule(st: ParseState, toks: seq<Token>, pos: nat, ghost defs: seq<Definition>)
    returns (ok: bool, next: nat, ghost d: Definition)
    requires Linked(st.Now(), defs) && TokensOk(toks) && pos < |toks|
    modifies st
    ensures pos <= next <= |toks| && (ok ==> pos < next) && ScanRules(toks, pos) == (ok && ScanRules(toks, next))
    ensures ok ==> Linked(st.Now(), defs + [d]) && toks[pos..next] == ShowAll([d]) && (!d.newLine ==> next == |toks|)
  {
    hide Linked, SymbolsOk, AltsRead, ExtendsBut, HasDefinition, RuleOk, ShowAll;
    LinkedOk(st.Now(), defs);
    ok, next, d := false, pos, Definition("", One(Nothing), false);
    if !toks[pos].TName? {
      return;
    }
    var name := toks[pos].name;
    var id := st.GetSymbolId(name);
    ghost var named := st.Now();
    if pos + 1 >= |toks| || toks[pos + 1] != TDefine {
      return;
    }
    ghost var alts;
    var parsed;
    parsed, next, alts := st.ParseAlternates(toks, pos + 2, name, id);
    if !parsed {
      return;
    }
    d := Definition(name, alts, next < |toks|);
    ghost var end := next;
    if next < |toks| {
      if toks[next] != TNewLine {
        return;
      }
      next := next + 1;
    }
    ok := true;
    RuleLinked(old(st.Now()), named, st.Now(), toks, pos, end, next, defs, d, id);
  }

  lemma {:induction false} LinkedOk(st: Symbols, defs: seq<Definition>)
    requires Linked(st, defs)
    ensures SymbolsOk(st)
  {
  }

  lemma {:induction false} NameLinked(before: Symbols, named: Symbols, defs: seq<Definition>, name: string)
    requires
      Linked(before, defs) && SymbolsOk(named) && ExtendsBut(before, named, -1) && name in named.ids && IsWord(name)
    ensures Linked(named, defs) && WordNamed(named.ids, named.ids[name])
  {
    hide Latest, RuleOf, Runs, BuiltAlts, RuleOk, RuleAt;
    var g := Latest(defs);
    forall a | a in g ensures HasDefinition(named, a, g[a]) {
      assert HasDefinition(before, a, g[a]);
      StaysDefined(before, named, -1, a, g[a]);
    }
    forall a | a in named.ids && IsWord(a) && RuleAt(named.rules, named.ids[a]) != [] ensures a in g {
      assert WordNamed(named.ids, named.ids[a]);
      if named.ids[a] < |before.ids| {
        NameKept(before, named, -1, a);
      }
    }
    forall i: nat | i < |named.ids| && !WordNamed(named.ids, i) ensures RuleAt(named.rules, i) != [] {
      if i < |before.ids| {
        assert WordNamed(named.ids, i) == WordNamed(before.ids, i);
      }
    }
  }

  lemma {:induction false} RuleLinked(before: Symbols, named: Symbols, st: Symbols, toks: seq<Token>, pos: nat,
                                      end: nat, next: nat,
                                      defs: seq<Definition>, d: Definition, id: nat)
    requires Linked(before, defs) && SymbolsOk(named) && SymbolsOk(st) && ExtendsBut(before, named, -1)
    requires d.name in named.ids && named.ids[d.name] == id && IsWord(d.name)
    requires pos + 2 <= end <= next <= |toks| && toks[pos] == TName(d.name) && toks[pos + 1] == TDefine
    requires AltsRead(named, st, toks, pos + 2, end, id, d.alts)
    requires if d.newLine then end < |toks| && toks[end] == TNewLine && next == end + 1 else next == end == |toks|
    ensures Linked(st, defs + [d]) && toks[pos..next] == ShowAll([d])
  {
    hide *;
    NameLinked(before, named, defs, d.name);
    IsDefinition(named, st, toks, pos + 2, end, id, d.name, d.alts);
    LinkMore(named, st, defs, id, d);
    ShowRule(toks, pos, end, next, d);
  }

  lemma {:induction false} IsDefinition(named: Symbols, st: Symbols, toks: seq<Token>, pos: nat, end: nat, id: nat,
                                        name: string, alts: Alts)
    requires name in named.ids && named.ids[name] == id && IsWord(name) && AltsRead(named, st, toks, pos, end, id, alts)
    ensures HasDefinition(st, name, alts) && ExtendsBut(named, st, id) && toks[pos..end] == ShowAlts(alts)
  {
    AltsAre(named, st, toks, pos, end, id, alts);
    hide RuleOf, Runs, BuiltAlts, ShowAlts, AltsRead, IsWord;
    assert Extends(named, st);
  }

  lemma {:induction false} ShowRule(toks: seq<Token>, pos: nat, end: nat, next: nat, d: Definition)
    requires pos + 2 <= end <= next <= |toks| && toks[pos] == TName(d.name) && toks[pos + 1] == TDefine
      && toks[pos + 2..end] == ShowAlts(d.alts)
    requires if d.newLine then end < |toks| && toks[end] == TNewLine && next == end + 1 else next == end
    ensures toks[pos..next] == ShowAll([d])
  {
    ShowOne(d);
    hide ShowAlts, ShowAll;
    var head := toks[pos..pos + 2];
    assert head == [TName(d.name), TDefine];
    assert toks[pos..end] == head + toks[pos + 2..end];
    assert toks[pos..next] == toks[pos..end] + toks[end..next];
    assert toks[end..next] == if d.newLine then [TNewLine] else [];
  }

  /** Compiles a whole text: exactly the grammars are accepted, and the result is linked to the definitions that
      the text is; otherwise the result is empty. */
  method Parse(toks: seq<Token>) returns (st: ParseState, ok: bool, ghost defs: seq<Definition>)
    requires TokensOk(toks)
    ensures fresh(st) && Linked(st.Now(), defs)
    ensures ok <==> IsGrammar(toks)
    ensures ok ==> Shown(toks, Start(toks), |toks|, defs) && AllSound(defs)
    ensures !ok ==> defs == [] && st.symbolIds == map[] && st.rules == []
  {
    hide Linked, Shown, ScanRules, AllSound;
    st := new ParseState();
    ok, defs := true, [];
    NothingLinked(st.Now());
    var pos := if |toks| > 0 && toks[0] == TNewLine then 1 else 0;
    NothingShown(toks, pos);
    while pos < |toks|
      invariant ok && pos <= |toks| && fresh(st) && Linked(st.Now(), defs) && Shown(toks, Start(toks), pos, defs)
      invariant ScanRules(toks, Start(toks)) == ScanRules(toks, pos)
    {
      ghost var d;
      var next;
      ok, next, d := ParseRule(st, toks, pos, defs);
      if !ok {
        st := new ParseState();
        defs := [];
        NothingLinked(st.Now());
        forall ds | Shown(toks, Start(toks), |toks|, ds) ensures !AllSound(ds) {
          ScansGrammar(toks, ds);
        }
        return;
      }
      ShowMore(toks, Start(toks), pos, next, defs, d);
      defs := defs + [d];
      pos := next;
    }
    ScanEnds(toks);
    ScansGrammar(toks, defs);
  }

  lemma {:induction false} ScanEnds(toks: seq<Token>)
    ensures ScanRules(toks, |toks|)
  {
  }

  lemma {:induction false} NothingShown(toks: seq<Token>, start: nat)
    requires start <= |toks|
    ensures Shown(toks, start, start, [])
  {
  }

  lemma {:induction false} NothingLinked(st: Symbols)
    requires st == Symbols(map[], [])
    ensures Linked(st, []) && ShowAll([]) == []
  {
  }

  lemma {:induction false} ShowMore(toks: seq<Token>, start: nat, pos: nat, next: nat, defs: seq<Definition>,
                                    d: Definition)
    requires Shown(toks, start, pos, defs) && pos < next <= |toks| && toks[pos..next] == ShowAll([d])
      && (!d.newLine ==> next == |toks|)
    ensures Shown(toks, start, next, defs + [d])
  {
    LatestOf(defs, d);
    ShowOne(d);
    hide ShowAll, ShowAlts;
    assert toks[start..next] == toks[start..pos] + toks[pos..next];
  }

  // ---------------------------------------------------------------------------------------------
  // What has been compiled means what was written

  /** Every class lists something. */
  ghost predicate Proper(e: Expr)
    decreases e, 0
  {
    match e
    case Literal(_) => true
    case Class(_, ranges) => ranges != []
    case Ref(_, _) => true
    case Group(alts, _) => ProperAlts(alts)
    case Repeat(item, _, _) => Proper(item)
  }

  ghost predicate ProperItems(s: Items)
    decreases s, 1
  {
    s.Then? ==> ProperItems(s.before) && Proper(s.last)
  }

  ghost predicate ProperAlts(a: Alts)
    decreases a, 1
  {
    ProperItems(a.items) && (a.Or? ==> ProperAlts(a.first))
  }

  /** No symbol is without its rule: what a caller can see of the result. */
  predicate Complete(st: Symbols) {
    |st.rules| == |st.ids| && forall i :: 0 <= i < |st.rules| ==> st.rules[i] != []
  }

  /** The result is complete, and its rules are then well formed, exactly if every name used is defined. */
  lemma {:induction false} CompleteIfDefined(st: Symbols, defs: seq<Definition>)
    requires Linked(st, defs)
    ensures Complete(st) <==> forall a :: a in st.ids && IsWord(a) ==> a in Latest(defs)
    ensures Complete(st) ==> RulesOk(st.rules)
  {
    hide RuleOk, Latest, IsWord, HasDefinition, RuleOf, Runs;
    if forall a :: a in st.ids && IsWord(a) ==> a in Latest(defs) {
      forall i: nat | i < |st.ids| ensures RuleAt(st.rules, i) != [] {
        assert HasNumber(st.ids, i);
        if WordNamed(st.ids, i) {
          var a :| a in st.ids && st.ids[a] == i && IsWord(a);
          NonemptyDefinition(st, a, Latest(defs)[a]);
        }
      }
      assert RuleAt(st.rules, |st.rules|) == [];
      forall i | 0 <= i < |st.rules| ensures st.rules[i] != [] {
        assert RuleAt(st.rules, i) != [];
      }
    }
    if Complete(st) {
      forall a | a in st.ids && IsWord(a) ensures a in Latest(defs) {
        assert RuleAt(st.rules, st.ids[a]) != [];
      }
    }
  }

  lemma {:induction false} NonemptyDefinition(st: Symbols, a: string, alts: Alts)
    requires HasDefinition(st, a, alts)
    ensures RuleAt(st.rules, st.ids[a]) != []
  {
  }

  lemma {:induction false} BuiltWired(st: Symbols, g: Definitions, e: Expr)
    requires Built(st, e) && Proper(e) && (forall a :: a in st.ids && IsWord(a) ==> a in g)
    ensures Wired(Compiled(st.rules, st.ids, g), e)
    decreases e, 0
  {
    match e
    case Literal(_) =>
    case Class(_, _) =>
    case Ref(_, _) =>
    case Group(alts, id) =>
      RuleNonempty(Runs(alts));
      AltsWired(st, g, alts);
    case Repeat(item, op, id) =>
      RuleNonempty(RepeatRuns(Elems(item), op, id));
      BuiltWired(st, g, item);
  }

  lemma {:induction false} ItemsWired(st: Symbols, g: Definitions, s: Items)
    requires BuiltItems(st, s) && ProperItems(s) && (forall a :: a in st.ids && IsWord(a) ==> a in g)
    ensures WiredItems(Compiled(st.rules, st.ids, g), s)
    decreases s, 1
  {
    if s.Then? {
      ItemsWired(st, g, s.before);
      BuiltWired(st, g, s.last);
    }
  }

  lemma {:induction false} AltsWired(st: Symbols, g: Definitions, a: Alts)
    requires BuiltAlts(st, a) && ProperAlts(a) && (forall a :: a in st.ids && IsWord(a) ==> a in g)
    ensures WiredAlts(Compiled(st.rules, st.ids, g), a)
    decreases a, 1
  {
    ItemsWired(st, g, a.items);
    if a.Or? {
      AltsWired(st, g, a.first);
    }
  }

  /** The flat rules of a complete grammar derive, for every name, exactly the words its definition means. */
  lemma {:induction false} CompilerCorrect(st: Symbols, defs: seq<Definition>, name: string, w: Word)
    requires Linked(st, defs) && Complete(st) && name in Latest(defs)
    requires forall a :: a in Latest(defs) ==> ProperAlts(Latest(defs)[a])
    ensures RulesOk(st.rules) && name in st.ids && st.ids[name] < |st.rules|
    ensures RuleLang(st.rules, st.ids[name], w) <==> exists n: nat :: MeansAlts(Latest(defs), n, Latest(defs)[name], w)
  {
    CompleteIfDefined(st, defs);
    var g := Latest(defs);
    var c := Compiled(st.rules, st.ids, g);
    forall a | a in g ensures Defined(c, a) {
      assert HasDefinition(st, a, g[a]);
      NonemptyDefinition(st, a, g[a]);
      hide Latest, Runs, RuleOf;
      AltsWired(st, g, g[a]);
    }
    hide Linked, Complete, Defined, Latest, MeansAlts;
    MeaningPreserved(c, name, w);
    assert CompiledOk(c);
    IsDefined(c, name);
    DefinedIs(c, name);
  }

  lemma {:induction false} DefinedIs(c: Compiled, name: string)
    requires name in c.g && Defined(c, name)
    ensures name in c.ids && c.ids[name] < |c.rules|
  {
  }
}
