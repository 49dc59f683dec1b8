/** The compiler from written grammars to flat rules. */
module GrammarParser {
  import opened Grammar
  import opened GrammarSegments
  import opened GrammarSyntax
  import opened GrammarTokens
  import opened SymbolNames

  // ---------------------------------------------------------------------------------------------
  // The state of the compiler

  datatype Symbols = Symbols(ids: Ids, rules: seq<Rule>)

  function RuleAt(rules: seq<Rule>, i: nat): Rule {
    if i < |rules| then rules[i] else []
  }

  ghost predicate RefsBelow(es: seq<Element>, n: nat) {
    forall i :: 0 <= i < |es| && es[i].kind == RULE_REF ==> es[i].value < n
  }

  ghost predicate SymbolsOk(st: Symbols) {
    && Numbered(st.ids) && |st.rules| <= |st.ids|
    && forall i :: 0 <= i < |st.rules| ==> st.rules[i] == [] || RuleOk(st.rules[i], |st.ids|)
  }

  /** Names keep their numbers, and finished rules their contents, except those of written names. */
  ghost predicate Extends(before: Symbols, st: Symbols) {
    && |before.ids| <= |st.ids|
    && (forall a :: a in before.ids ==> a in st.ids && st.ids[a] == before.ids[a])
    && (forall i: nat :: i < |before.ids| ==> WordNamed(st.ids, i) == WordNamed(before.ids, i))
    && (forall i: nat :: i < |before.ids| && RuleAt(before.rules, i) != [] && !WordNamed(before.ids, i)
         ==> RuleAt(st.rules, i) == RuleAt(before.rules, i))
  }

  /** Besides, no earlier rule changes but one, and of the new symbols those made up have their rules, the
      written ones not yet. */
  ghost predicate ExtendsBut(before: Symbols, st: Symbols, but: int) {
    && Extends(before, st)
    && (forall i: nat :: i < |before.ids| && i != but ==> RuleAt(st.rules, i) == RuleAt(before.rules, i))
    && (forall i: nat :: |before.ids| <= i < |st.ids| ==> (WordNamed(st.ids, i) <==> RuleAt(st.rules, i) == []))
  }

  /** The made-up symbols of an expression have their rules. */
  ghost predicate Built(st: Symbols, e: Expr)
    decreases e, 0
  {
    match e
    case Literal(_) => true
    case Class(_, _) => true
    case Ref(name, id) => name in st.ids && st.ids[name] == id < |st.ids| && IsWord(name)
    case Group(alts, id) => HasRule(st, id, Runs(alts)) && BuiltAlts(st, alts)
    case Repeat(item, op, id) => HasRule(st, id, RepeatRuns(Elems(item), op, id)) && Built(st, item)
  }

  ghost predicate HasRule(st: Symbols, id: nat, runs: seq<seq<Element>>) {
    id < |st.ids| && !WordNamed(st.ids, id) && RuleAt(st.rules, id) == RuleOf(runs)
  }

  ghost predicate BuiltItems(st: Symbols, s: Items)
    decreases s, 1
  {
    s.Then? ==> BuiltItems(st, s.before) && Built(st, s.last)
  }

  ghost predicate BuiltAlts(st: Symbols, a: Alts)
    decreases a, 1
  {
    BuiltItems(st, a.items) && (a.Or? ==> BuiltAlts(st, a.first))
  }

  lemma {:induction false} StaysBuilt(before: Symbols, st: Symbols, e: Expr)
    requires Extends(before, st) && Built(before, e)
    ensures Built(st, e)
    decreases e, 0
  {
    match e
    case Literal(_) =>
    case Class(_, _) =>
    case Ref(_, _) =>
    case Group(alts, id) => StaysBuiltAlts(before, st, alts);
    case Repeat(item, op, id) => StaysBuilt(before, st, item);
  }

  lemma {:induction false} StaysBuiltItems(before: Symbols, st: Symbols, s: Items)
    requires Extends(before, st) && BuiltItems(before, s)
    ensures BuiltItems(st, s)
    decreases s, 1
  {
    hide Extends;
    if s.Then? {
      StaysBuiltItems(before, st, s.before);
      StaysBuilt(before, st, s.last);
    }
  }

  lemma {:induction false} StaysBuiltAlts(before: Symbols, st: Symbols, a: Alts)
    requires Extends(before, st) && BuiltAlts(before, a)
    ensures BuiltAlts(st, a)
    decreases a, 1
  {
    hide Extends;
    StaysBuiltItems(before, st, a.items);
    if a.Or? {
      StaysBuiltAlts(before, st, a.first);
    }
  }

  lemma {:induction false} ExtendsTrans(a: Symbols, b: Symbols, c: Symbols, but: int)
    requires ExtendsBut(a, b, but) && ExtendsBut(b, c, but) && but < |a.ids|
    ensures ExtendsBut(a, c, but)
  {
    hide WordNamed, RuleAt;
    forall i: nat | |a.ids| <= i < |c.ids| ensures WordNamed(c.ids, i) <==> RuleAt(c.rules, i) == [] {
      if i < |b.ids| {
        assert WordNamed(c.ids, i) == WordNamed(b.ids, i);
        assert RuleAt(c.rules, i) == RuleAt(b.rules, i);
      }
    }
  }

  // ---------------------------------------------------------------------------------------------
  // What a rule made of plain runs looks like

  /** Without an END, with bounds and further members only where they belong. */
  ghost predicate Shaped(es: seq<Element>, n: nat) {
    && (forall i :: 0 <= i < |es| ==> es[i].kind != END) && RefsBelow(es, n)
    && (forall i ::
          0 <= i < |es| && es[i].kind == CHAR_RNG_UPPER ==> i > 0 && es[i - 1].kind in {CHAR, CHAR_NOT, CHAR_ALT})
    && (forall i ::
          0 <= i < |es| && es[i].kind == CHAR_ALT ==>
            i > 0 && es[i - 1].kind in {CHAR, CHAR_NOT, CHAR_ALT, CHAR_RNG_UPPER})
  }

  lemma {:induction false} ShapedMore(a: seq<Element>, b: seq<Element>, n: nat)
    requires Shaped(a, n) && Shaped(b, n)
    ensures Shaped(a + b, n)
  {
    var c := a + b;
    assert forall i :: |a| <= i < |c| ==> c[i] == b[i - |a|];
  }

  lemma {:induction false} JoinedShape(runs: seq<seq<Element>>, n: nat)
    requires AltsPlain(runs) && forall i :: 0 <= i < |runs| ==> RefsBelow(runs[i], n)
    ensures Shaped(Joined(runs), n)
    decreases |runs|
  {
    if |runs| > 0 {
      var last := runs[|runs| - 1];
      assert Plain(last) && RefsBelow(last, n);
      assert Shaped(last, n);
      if |runs| > 1 {
        JoinedShape(runs[..|runs| - 1], n);
        assert Shaped([Element(ALT, 0)], n);
        hide Shaped, Plain, RefsBelow;
        ShapedMore(Joined(runs[..|runs| - 1]), [Element(ALT, 0)], n);
        ShapedMore(Joined(runs[..|runs| - 1]) + [Element(ALT, 0)], last, n);
      }
    }
  }

  lemma {:induction false} RuleOfOk(runs: seq<seq<Element>>, n: nat)
    requires AltsPlain(runs) && forall i :: 0 <= i < |runs| ==> RefsBelow(runs[i], n)
    ensures RuleOk(RuleOf(runs), n)
  {
    JoinedShape(runs, n);
    hide Joined, Plain;
  }

  lemma {:induction false} MoreSymbolsOk(rule: Rule, m: nat, n: nat)
    requires RuleOk(rule, m) && m <= n
    ensures RuleOk(rule, n)
  {
  }

  // ---------------------------------------------------------------------------------------------

  class ParseState {
    var symbolIds: Ids
    var rules: seq<Rule>

    ghost function Now(): Symbols
      reads this
    {
      Symbols(symbolIds, rules)
    }

    ghost predicate Valid()
      reads this
    {
      SymbolsOk(Now())
    }

    constructor ()
      ensures Valid() && symbolIds == map[] && rules == []
    {
      symbolIds, rules := map[], [];
    }

    /** The number of a written name, the next one if it is new. */
    method GetSymbolId(name: string) returns (id: nat)
      requires Valid() && IsWord(name)
      modifies this`symbolIds
      ensures Valid() && name in symbolIds && symbolIds[name] == id < |symbolIds|
      ensures symbolIds == if name in old(symbolIds) then old(symbolIds) else old(symbolIds)[name := |old(symbolIds)|]
      ensures ExtendsBut(old(Now()), Now(), -1)
    {
      var nextId := |symbolIds|;
      if name !in symbolIds {
        AddName(symbolIds, name);
        hide Numbered, WordNamed, RuleOk;
        MoreRulesOk(rules, |symbolIds|, |symbolIds| + 1);
        symbolIds := symbolIds[name := nextId];
      }
      id := symbolIds[name];
      assert id < |symbolIds| by {
        IdBelow(symbolIds, name);
      }
    }

    /** A new number, for a name made up from the rule's, which cannot clash with any other. */
    method GenerateSymbolId(base: string) returns (id: nat)
      requires Valid() && IsWord(base)
      modifies this`symbolIds
      ensures Valid() && |rules| <= id == |old(symbolIds)| && |symbolIds| == id + 1 && !WordNamed(symbolIds, id)
        && RuleAt(rules, id) == []
      ensures Generated(base, id) !in old(symbolIds) && symbolIds == old(symbolIds)[Generated(base, id) := id]
      ensures Extends(old(Now()), Now())
    {
      id := |symbolIds|;
      NewGenerated(symbolIds, base);
      AddName(symbolIds, Generated(base, id));
      hide Numbered, WordNamed, RuleOk;
      MoreRulesOk(rules, |symbolIds|, |symbolIds| + 1);
      symbolIds := symbolIds[Generated(base, id) := id];
    }

    /** Sets a rule, with room made for those before it that have none yet. */
    method AddRule(id: nat, rule: Rule)
      requires Valid() && id < |symbolIds| && RuleOk(rule, |symbolIds|)
      modifies this`rules
      ensures Valid() && forall i: nat :: RuleAt(rules, i) == if i == id then rule else RuleAt(old(rules), i)
    {
      hide RuleOk;
      if |rules| <= id {
        rules := rules + seq(id + 1 - |rules|, _ => []);
      }
      rules := rules[id := rule];
    }

    /** Reads items as long as there are any; a repetition sign turns the latest one into a rule of its own. */
    method ParseSequence(toks: seq<Token>, pos: nat, base: string, out: seq<Element>)
      returns (ok: bool, next: nat, es: seq<Element>, ghost items: Items)
      requires Valid() && TokensOk(toks) && IsWord(base) && pos <= |toks|
      modifies this
      ensures Valid() && pos <= next <= |toks|
      ensures ScanSequence(toks, pos, true) == if ok then At(next) else Fail
      ensures ok ==> SequenceRead(old(Now()), Now(), toks, pos, next, out, es, items)
      decreases |toks| - pos, 0
    {
      hide ScanSequence, ScanAlternates, SymbolsOk, SequenceRead, ExtendsBut, Extends, BuiltItems, Built, HasRule,
        AltsRead, ItemElems, Elems, WordNamed, RuleOf, RepeatRuns, Generated, RuleOk;
      ok, next, es, items := true, pos, out, Nothing;
      var lastSym := |out|;
      NothingRead(Now(), toks, pos, out);
      while next < |toks| && IsItem(toks[next])
        invariant Valid() && pos <= next <= |toks| && SequenceRead(old(Now()), Now(), toks, pos, next, out, es, items)
        invariant ok && ScanSequence(toks, pos, true) == ScanSequence(toks, next, lastSym == |es|)
        invariant lastSym == |out| + if items.Nothing? then 0 else |ItemElems(items.before)|
      {
        ghost var mid := Now();
        SequenceIs(old(Now()), mid, toks, pos, next, out, es, items);
        ScanStep(toks, next, lastSym == |es|);
        match toks[next] {
          case TLiteral(chars) =>
            lastSym := |es|;
            ghost var was := es;
            es := PushLiteral(es, chars);
            ReadSimple(old(Now()), mid, toks, pos, next, out, was, es, items, Literal(chars));
            items := Then(items, Literal(chars));
            next := next + 1;
          case TClass(negated, ranges) =>
            lastSym := |es|;
            ghost var was := es;
            es := PushClass(es, negated, ranges);
            ClassEmpty(Class(negated, ranges));
            ReadSimple(old(Now()), mid, toks, pos, next, out, was, es, items, Class(negated, ranges));
            items := Then(items, Class(negated, ranges));
            next := next + 1;
          case TName(name) =>
            var id := GetSymbolId(name);
            lastSym := |es|;
            ReadName(old(Now()), mid, Now(), toks, pos, next, out, es, items, id);
            es := es + [Element(RULE_REF, id)];
            items := Then(items, Ref(name, id));
            next := next + 1;
          case TOpen =>
            var sub := GenerateSymbolId(base);
            ghost var named := Now();
            ghost var alts;
            var closed;
            ok, closed, alts := ParseAlternates(toks, next + 1, base, sub);
            if !ok {
              return;
            }
            if closed >= |toks| || toks[closed] != TClose {
              ok := false;
              return;
            }
            lastSym := |es|;
            ReadGroup(old(Now()), mid, named, Now(), toks, pos, next, closed, out, es, items, alts, sub);
            es := es + [Element(RULE_REF, sub)];
            items := Then(items, Group(alts, sub));
            next := closed + 1;
          case TOp(op) =>
            if lastSym == |es| {
              ok := false;
              return;
            }
            LastBuilt(mid, items);
            assert es[lastSym..] == Elems(items.last);
            var sub := MakeRepeat(op, base, es[lastSym..], items.last);
            RepeatRead(old(Now()), mid, Now(), toks, pos, next, out, es, items, op, sub);
            assert es[..lastSym] == out + ItemElems(items.before);
            es := es[..lastSym] + [Element(RULE_REF, sub)];
            items := Then(items.before, Repeat(items.last, op, sub));
            next := next + 1;
        }
      }
      ScanStep(toks, next, lastSym == |es|);
    }

    /** Makes the rule for a repetition of an item with these elements. */
    method MakeRepeat(op: Op, base: string, symbol: seq<Element>, ghost item: Expr) returns (sub: nat)
      requires Valid() && IsWord(base) && Built(Now(), item) && symbol == Elems(item)
      modifies this
      ensures Valid() && ExtendsBut(old(Now()), Now(), -1) && HasRule(Now(), sub, RepeatRuns(symbol, op, sub))
    {
      hide SymbolsOk, ExtendsBut, Extends, Built, RuleOk, Elems, Generated, WordNamed, RuleOf, RepeatRuns;
      ghost var mid := Now();
      sub := GenerateSymbolId(base);
      ghost var named := Now();
      var subRule := symbol;
      if op == Star || op == Plus {
        subRule := subRule + [Element(RULE_REF, sub)];
      }
      subRule := subRule + [Element(ALT, 0)];
      if op == Plus {
        subRule := subRule + symbol;
      }
      subRule := subRule + [Element(END, 0)];
      RepeatRule(mid, named, item, op, sub, symbol, subRule);
      AddRule(sub, subRule);
      RuleSet(named, Now(), sub, subRule);
      SymbolMade(mid, named, Now(), sub);
      SameNames(named, Now(), sub);
    }

    method ParseAlternates(toks: seq<Token>, pos: nat, base: string, ruleId: nat)
      returns (ok: bool, next: nat, ghost alts: Alts)
      requires Valid() && TokensOk(toks) && IsWord(base) && pos <= |toks| && ruleId < |symbolIds|
      requires RuleAt(rules, ruleId) == [] || WordNamed(symbolIds, ruleId)
      modifies this
      ensures Valid() && pos <= next <= |toks|
      ensures ScanAlternates(toks, pos) == if ok then At(next) else Fail
      ensures ok ==> AltsRead(old(Now()), Now(), toks, pos, next, ruleId, alts)
      decreases |toks| - pos, 1
    {
      hide SymbolsOk, SequenceRead, Extends, ExtendsBut, Built, HasRule, AltsRead, SomeAltsRead, ScanSequence,
        ScanAlternates, RuleOf, Runs, RuleOk, Joined;
      ScanAlternative(toks, pos);
      var rule;
      ghost var items;
      ok, next, rule, items := ParseSequence(toks, pos, base, []);
      alts := One(items);
      if !ok {
        return;
      }
      FirstAltRead(old(Now()), Now(), toks, pos, next, rule, items);
      while next < |toks| && toks[next] == TBar
        invariant Valid() && pos <= next <= |toks| && SomeAltsRead(old(Now()), Now(), toks, pos, next, rule, alts)
        invariant ok && ScanAlternates(toks, pos) == ScanBar(toks, next)
      {
        ghost var mid, bar := Now(), next;
        rule := rule + [Element(ALT, 0)];
        ghost var before := rule;
        ScanAlternative(toks, next + 1);
        ok, next, rule, items := ParseSequence(toks, next + 1, base, rule);
        if !ok {
          return;
        }
        NextAltRead(old(Now()), mid, Now(), toks, pos, bar, next, before, rule, alts, items);
        alts := Or(alts, items);
      }
      ghost var mid, joined := Now(), rule;
      rule := rule + [Element(END, 0)];
      AltsEnd(old(Now()), mid, toks, pos, next, rule, alts);
      AddRule(ruleId, rule);
      AllAltsRead(old(Now()), mid, Now(), toks, pos, next, ruleId, joined, alts);
    }
  }

  method PushLiteral(out: seq<Element>, chars: seq<nat>) returns (es: seq<Element>)
    ensures es == out + Elems(Literal(chars)) && |es| == |out| + |chars|
  {
    es := out;
    for i := 0 to |chars|
      invariant es == out + LiteralElems(chars[..i])
    {
      assert LiteralElems(chars[..i + 1]) == LiteralElems(chars[..i]) + [Element(CHAR, chars[i])];
      es := es + [Element(CHAR, chars[i])];
    }
    assert chars[..|chars|] == chars;
  }

  method PushClass(out: seq<Element>, negated: bool, ranges: seq<Range>) returns (es: seq<Element>)
    ensures es == out + Elems(Class(negated, ranges))
  {
    var startType := if negated then CHAR_NOT else CHAR;
    es := out;
    for i := 0 to |ranges|
      invariant es == out + ClassElems(startType, ranges[..i]) && (|out| < |es| <==> i > 0)
    {
      var kind := if |out| < |es| then CHAR_ALT else startType;
      ClassElemsMore(startType, ranges[..i], ranges[i]);
      assert ranges[..i + 1] == ranges[..i] + [ranges[i]];
      es := es + [Element(kind, ranges[i].lo)];
      if ranges[i].wide {
        es := es + [Element(CHAR_RNG_UPPER, ranges[i].hi)];
      }
    }
    assert ranges[..|ranges|] == ranges;
  }

  lemma {:induction false} ClassElemsMore(kind: Kind, ranges: seq<Range>, r: Range)
    ensures ClassElems(kind, ranges + [r])
      == ClassElems(kind, ranges) + RangeElems(if ranges == [] then kind else CHAR_ALT, r)
    decreases |ranges|
  {
    var all := ranges + [r];
    if ranges == [] {
      assert all[1..] == [];
    } else {
      ClassElemsMore(CHAR_ALT, ranges[1..], r);
      assert all[1..] == ranges[1..] + [r];
    }
  }

  // ---------------------------------------------------------------------------------------------
  // What has been read of a sequence, and what one more token does

  ghost predicate SequenceRead(before: Symbols, st: Symbols, toks: seq<Token>, pos: nat, next: nat, out: seq<Element>,
                               es: seq<Element>, items: Items) {
    && pos <= next <= |toks| && toks[pos..next] == ShowItems(items)
    && ExtendsBut(before, st, -1) && es == out + ItemElems(items) && BuiltItems(st, items)
  }

  lemma {:induction false} NothingRead(st: Symbols, toks: seq<Token>, pos: nat, out: seq<Element>)
    requires pos <= |toks|
    ensures SequenceRead(st, st, toks, pos, pos, out, out, Nothing)
  {
  }

  lemma {:induction false} SequenceIs(before: Symbols, st: Symbols, toks: seq<Token>, pos: nat, next: nat,
                                      out: seq<Element>, es: seq<Element>, items: Items)
    requires SequenceRead(before, st, toks, pos, next, out, es, items)
    ensures es == out + ItemElems(items) && BuiltItems(st, items)
    ensures items.Then? ==> ItemElems(items) == ItemElems(items.before) + Elems(items.last)
  {
    hide ExtendsBut, BuiltItems;
  }

  lemma {:induction false} ReadMore(before: Symbols, mid: Symbols, st: Symbols, toks: seq<Token>, pos: nat, next: nat,
                                    to: nat, out: seq<Element>,
                                    es: seq<Element>, longer: seq<Element>, items: Items, e: Expr)
    requires SequenceRead(before, mid, toks, pos, next, out, es, items) && ExtendsBut(mid, st, -1) && Built(st, e)
    requires next <= to <= |toks| && toks[next..to] == Show(e) && longer == es + Elems(e)
    ensures SequenceRead(before, st, toks, pos, to, out, longer, Then(items, e))
  {
    hide ExtendsBut, Built, Show, Elems, ShowItems, ItemElems, BuiltItems;
    ExtendsTrans(before, mid, st, -1);
    ThenItems(st, items, e);
    assert BuiltItems(st, items) by {
      ExtendsIs(mid, st);
      StaysBuiltItems(mid, st, items);
    }
    assert toks[pos..to] == toks[pos..next] + toks[next..to];
    assert longer == out + (ItemElems(items) + Elems(e));
  }

  lemma {:induction false} ExtendsIs(before: Symbols, st: Symbols)
    requires ExtendsBut(before, st, -1)
    ensures Extends(before, st)
  {
  }

  lemma {:induction false} ThenItems(st: Symbols, items: Items, e: Expr)
    ensures ShowItems(Then(items, e)) == ShowItems(items) + Show(e)
      && ItemElems(Then(items, e)) == ItemElems(items) + Elems(e)
    ensures BuiltItems(st, items) && Built(st, e) ==> BuiltItems(st, Then(items, e))
  {
  }

  lemma {:induction false} ExtendsSelf(st: Symbols)
    ensures ExtendsBut(st, st, -1)
  {
  }

  lemma {:induction false} ReadSimple(before: Symbols, st: Symbols, toks: seq<Token>, pos: nat, next: nat,
                                      out: seq<Element>,
                                      was: seq<Element>, es: seq<Element>, items: Items, e: Expr)
    requires SequenceRead(before, st, toks, pos, next, out, was, items) && next < |toks| && (e.Literal? || e.Class?)
    requires Show(e) == [toks[next]] && es == was + Elems(e)
    ensures SequenceRead(before, st, toks, pos, next + 1, out, es, Then(items, e))
  {
    ExtendsSelf(st);
    assert Built(st, e);
    hide SequenceRead, ExtendsBut;
    ReadMore(before, st, st, toks, pos, next, next + 1, out, was, es, items, e);
  }

  lemma {:induction false} ReadName(before: Symbols, mid: Symbols, st: Symbols, toks: seq<Token>, pos: nat, next: nat,
                                    out: seq<Element>,
                                    es: seq<Element>, items: Items, id: nat)
    requires SequenceRead(before, mid, toks, pos, next, out, es, items) && next < |toks| && toks[next].TName?
      && ExtendsBut(mid, st, -1)
    requires IsWord(toks[next].name) && toks[next].name in st.ids && st.ids[toks[next].name] == id < |st.ids|
    ensures SequenceRead(before, st, toks, pos, next + 1, out, es + [Element(RULE_REF, id)],
                   Then(items, Ref(toks[next].name, id)))
  {
    hide *;
    var e := Ref(toks[next].name, id);
    NameBuilt(st, toks[next].name, id);
    assert toks[next..next + 1] == [toks[next]];
    ReadMore(before, mid, st, toks, pos, next, next + 1, out, es, es + [Element(RULE_REF, id)], items, e);
  }

  lemma {:induction false} NameBuilt(st: Symbols, name: string, id: nat)
    requires IsWord(name) && name in st.ids && st.ids[name] == id < |st.ids|
    ensures var e := Ref(name, id); Built(st, e) && Show(e) == [TName(name)] && Elems(e) == [Element(RULE_REF, id)]
  {
    hide IsWord;
  }

  /** A made-up symbol is given its rule. */
  lemma {:induction false} SymbolMade(mid: Symbols, named: Symbols, st: Symbols, sub: nat)
    requires Extends(mid, named) && |mid.ids| == sub && |named.ids| == sub + 1 && named.rules == mid.rules
      && |mid.rules| <= sub
    requires ExtendsBut(named, st, sub) && RuleAt(st.rules, sub) != [] && !WordNamed(named.ids, sub)
    ensures ExtendsBut(mid, st, -1)
  {
    assert !WordNamed(st.ids, sub);
    forall i: nat | i < |mid.ids|
      ensures WordNamed(st.ids, i) == WordNamed(mid.ids, i) && RuleAt(st.rules, i) == RuleAt(mid.rules, i)
    {
      assert WordNamed(named.ids, i) == WordNamed(mid.ids, i);
    }
    hide WordNamed;
  }

  lemma {:induction false} ReadGroup(before: Symbols, mid: Symbols, named: Symbols, st: Symbols, toks: seq<Token>,
                                     pos: nat, next: nat, closed: nat,
                                     out: seq<Element>, es: seq<Element>, items: Items, alts: Alts, sub: nat)
    requires SequenceRead(before, mid, toks, pos, next, out, es, items) && next < closed < |toks| && toks[next] == TOpen
      && toks[closed] == TClose
    requires Extends(mid, named) && |mid.ids| == sub && |named.ids| == sub + 1 && named.rules == mid.rules
      && |mid.rules| <= sub
    requires !WordNamed(named.ids, sub) && AltsRead(named, st, toks, next + 1, closed, sub, alts)
    ensures
      SequenceRead(before, st, toks, pos, closed + 1, out, es + [Element(RULE_REF, sub)], Then(items, Group(alts, sub)))
  {
    hide SequenceRead, Extends;
    GroupMade(mid, named, st, toks, next, closed, alts, sub);
    hide *;
    ReadMore(before, mid, st, toks, pos, next, closed + 1, out, es, es + [Element(RULE_REF, sub)], items,
             Group(alts, sub));
  }

  lemma {:induction false} GroupMade(mid: Symbols, named: Symbols, st: Symbols, toks: seq<Token>, next: nat,
                                     closed: nat, alts: Alts, sub: nat)
    requires next < closed < |toks| && toks[next] == TOpen && toks[closed] == TClose
    requires Extends(mid, named) && |mid.ids| == sub && |named.ids| == sub + 1 && named.rules == mid.rules
      && |mid.rules| <= sub
    requires !WordNamed(named.ids, sub) && AltsRead(named, st, toks, next + 1, closed, sub, alts)
    ensures ExtendsBut(mid, st, -1) && Built(st, Group(alts, sub)) && toks[next..closed + 1] == Show(Group(alts, sub))
    ensures Elems(Group(alts, sub)) == [Element(RULE_REF, sub)]
  {
    AltsAre(named, st, toks, next + 1, closed, sub, alts);
    RuleNonempty(Runs(alts));
    hide RuleOf, Runs, AltsRead, Extends, ExtendsBut, Built, Show;
    SymbolMade(mid, named, st, sub);
    ShowGroup(toks, next, closed, alts, sub);
    GroupBuilt(named, st, alts, sub);
  }

  lemma {:induction false} ShowGroup(toks: seq<Token>, next: nat, closed: nat, alts: Alts, sub: nat)
    requires next < closed < |toks| && toks[next] == TOpen && toks[closed] == TClose
      && toks[next + 1..closed] == ShowAlts(alts)
    ensures toks[next..closed + 1] == Show(Group(alts, sub))
  {
    hide ShowAlts;
    assert toks[next..closed + 1] == [toks[next]] + toks[next + 1..closed] + [toks[closed]];
  }

  lemma {:induction false} GroupBuilt(named: Symbols, st: Symbols, alts: Alts, sub: nat)
    requires ExtendsBut(named, st, sub) && sub < |named.ids| && !WordNamed(named.ids, sub)
    requires BuiltAlts(st, alts) && RuleAt(st.rules, sub) == RuleOf(Runs(alts))
    ensures Built(st, Group(alts, sub))
  {
    hide BuiltAlts, RuleOf, Runs, WordNamed, RuleAt;
  }

  lemma {:induction false} AltsAre(before: Symbols, st: Symbols, toks: seq<Token>, pos: nat, next: nat, ruleId: nat,
                                   alts: Alts)
    requires AltsRead(before, st, toks, pos, next, ruleId, alts)
    ensures pos <= next <= |toks| && toks[pos..next] == ShowAlts(alts) && ExtendsBut(before, st, ruleId)
      && BuiltAlts(st, alts)
    ensures RuleAt(st.rules, ruleId) == RuleOf(Runs(alts))
    ensures
      |before.ids| <= |st.ids| && forall i: nat :: i < |before.ids| ==> WordNamed(st.ids, i) == WordNamed(before.ids, i)
  {
    hide ShowAlts, BuiltAlts, RuleOf, Runs, WordNamed;
  }

  lemma {:induction false} RuleNonempty(runs: seq<seq<Element>>)
    ensures RuleOf(runs) != []
  {
  }

  /** The rule made for a repetition is well formed. */
  lemma {:induction false} RepeatRule(mid: Symbols, named: Symbols, item: Expr, op: Op, sub: nat, symbol: seq<Element>,
                                      subRule: Rule)
    requires Built(mid, item) && symbol == Elems(item) && |mid.ids| <= sub < |named.ids|
    requires subRule == symbol + (if op == Query then [] else [Element(RULE_REF, sub)]) + [Element(ALT, 0)]
      + (if op == Plus then symbol else []) + [Element(END, 0)]
    ensures subRule == RuleOf(RepeatRuns(symbol, op, sub)) && RuleOk(subRule, |named.ids|) && subRule != []
  {
    var runs := RepeatRuns(symbol, op, sub);
    assert Joined(runs) == runs[0] + [Element(ALT, 0)] + runs[1] by {
      assert runs[..1] == [runs[0]];
      assert Joined([runs[0]]) == runs[0];
    }
    assert subRule == RuleOf(runs);
    ElemsPlain(item);
    RepeatPlain(symbol, op, sub);
    BuiltRefs(mid, item);
    hide Elems, Built, Joined, Plain, RuleOk;
    RuleOfOk(runs, |named.ids|);
  }

  lemma {:induction false} BuiltRefs(st: Symbols, e: Expr)
    requires Built(st, e)
    ensures RefsBelow(Elems(e), |st.ids|)
  {
    if e.Class? && e.ranges != [] {
      ClassPlain(if e.negated then CHAR_NOT else CHAR, e.ranges, 0);
    }
  }

  lemma {:induction false} BuiltItemRefs(st: Symbols, s: Items)
    requires BuiltItems(st, s)
    ensures RefsBelow(ItemElems(s), |st.ids|)
  {
    if s.Then? {
      BuiltItemRefs(st, s.before);
      BuiltRefs(st, s.last);
      hide Built, BuiltItems, Elems;
    }
  }

  lemma {:induction false} RuleSet(named: Symbols, st: Symbols, id: nat, rule: Rule)
    requires st.ids == named.ids && id < |st.ids| && (RuleAt(named.rules, id) == [] || WordNamed(named.ids, id))
    requires forall i: nat :: RuleAt(st.rules, i) == if i == id then rule else RuleAt(named.rules, i)
    ensures ExtendsBut(named, st, id)
  {
    hide WordNamed;
  }

  lemma {:induction false} SameNames(named: Symbols, st: Symbols, id: nat)
    requires ExtendsBut(named, st, id) && id < |named.ids|
    ensures id < |st.ids| && WordNamed(st.ids, id) == WordNamed(named.ids, id)
  {
    hide WordNamed;
  }

  lemma {:induction false} RepeatRead(before: Symbols, mid: Symbols, st: Symbols, toks: seq<Token>, pos: nat, next: nat,
                                      out: seq<Element>, es: seq<Element>, items: Items, op: Op, sub: nat)
    requires SequenceRead(before, mid, toks, pos, next, out, es, items) && next < |toks| && toks[next] == TOp(op)
      && items.Then?
    requires ExtendsBut(mid, st, -1) && HasRule(st, sub, RepeatRuns(Elems(items.last), op, sub))
    ensures SequenceRead(before, st, toks, pos, next + 1, out, out + ItemElems(items.before) + [Element(RULE_REF, sub)],
                         Then(items.before, Repeat(items.last, op, sub)))
  {
    hide ExtendsBut, HasRule, Extends, Show, Elems, Built, RepeatRuns, BuiltItems, ShowItems, ItemElems;
    ExtendsTrans(before, mid, st, -1);
    ExtendsIs(mid, st);
    StaysBuiltItems(mid, st, items);
    LastBuilt(st, items);
    RepeatBuilt(st, items.last, op, sub);
    ThenItems(st, items.before, items.last);
    ThenItems(st, items.before, Repeat(items.last, op, sub));
    assert toks[pos..next + 1] == toks[pos..next] + [toks[next]];
    assert items == Then(items.before, items.last);
    assert ShowItems(items.before) + Show(items.last) + [TOp(op)]
        == ShowItems(items.before) + (Show(items.last) + [TOp(op)]);
  }

  lemma {:induction false} LastBuilt(st: Symbols, items: Items)
    requires items.Then? && BuiltItems(st, items)
    ensures BuiltItems(st, items.before) && Built(st, items.last)
  {
  }

  lemma {:induction false} RepeatBuilt(st: Symbols, e: Expr, op: Op, sub: nat)
    ensures var r := Repeat(e, op, sub);
      && Show(r) == Show(e) + [TOp(op)] && Elems(r) == [Element(RULE_REF, sub)]
      && (Built(st, e) && HasRule(st, sub, RepeatRuns(Elems(e), op, sub)) ==> Built(st, r))
  {
  }

  // ---------------------------------------------------------------------------------------------
  // What has been read of alternatives

  ghost predicate AltsRead(before: Symbols, st: Symbols, toks: seq<Token>, pos: nat, next: nat, ruleId: nat,
                           alts: Alts)
  {
    && pos <= next <= |toks| && toks[pos..next] == ShowAlts(alts) && ruleId < |before.ids|
    && ExtendsBut(before, st, ruleId) && BuiltAlts(st, alts) && RuleAt(st.rules, ruleId) == RuleOf(Runs(alts))
  }

  ghost predicate SomeAltsRead(before: Symbols, st: Symbols, toks: seq<Token>, pos: nat, next: nat, rule: seq<Element>,
                               alts: Alts) {
    && pos <= next <= |toks| && toks[pos..next] == ShowAlts(alts)
    && ExtendsBut(before, st, -1) && BuiltAlts(st, alts) && rule == Joined(Runs(alts))
  }

  lemma {:induction false} FirstAltRead(before: Symbols, st: Symbols, toks: seq<Token>, pos: nat, next: nat,
                                        rule: seq<Element>, items: Items)
    requires SequenceRead(before, st, toks, pos, next, [], rule, items)
    ensures SomeAltsRead(before, st, toks, pos, next, rule, One(items))
  {
    hide ExtendsBut;
    assert [] + ItemElems(items) == ItemElems(items);
  }

  lemma {:induction false} NextAltRead(before: Symbols, mid: Symbols, st: Symbols, toks: seq<Token>, pos: nat, bar: nat,
                                       next: nat,
                                       was: seq<Element>, rule: seq<Element>, alts: Alts, items: Items)
    requires bar < |toks| && toks[bar] == TBar && was != [] && was[|was| - 1] == Element(ALT, 0)
    requires SomeAltsRead(before, mid, toks, pos, bar, was[..|was| - 1], alts)
      && SequenceRead(mid, st, toks, bar + 1, next, was, rule, items)
    ensures SomeAltsRead(before, st, toks, pos, next, rule, Or(alts, items))
  {
    ExtendsTrans(before, mid, st, -1);
    StaysBuiltAlts(mid, st, alts);
    hide ExtendsBut, Extends, ItemElems, ShowItems, BuiltItems;
    assert toks[pos..next] == toks[pos..bar] + [toks[bar]] + toks[bar + 1..next];
    var runs := Runs(Or(alts, items));
    assert runs[..|runs| - 1] == Runs(alts);
    assert was == was[..|was| - 1] + [Element(ALT, 0)];
  }

  lemma {:induction false} AltsEnd(before: Symbols, st: Symbols, toks: seq<Token>, pos: nat, next: nat, rule: Rule,
                                   alts: Alts)
    requires rule != [] && rule[|rule| - 1] == Element(END, 0)
      && SomeAltsRead(before, st, toks, pos, next, rule[..|rule| - 1], alts)
    ensures rule == RuleOf(Runs(alts)) && RuleOk(rule, |st.ids|) && |before.ids| <= |st.ids|
  {
    assert rule == rule[..|rule| - 1] + [Element(END, 0)];
    RunsPlain(alts);
    AltsRefs(st, alts);
    hide Runs, ExtendsBut, RuleOk;
    RuleOfOk(Runs(alts), |st.ids|);
  }

  lemma {:induction false} AltsRefs(st: Symbols, a: Alts)
    requires BuiltAlts(st, a)
    ensures forall i :: 0 <= i < |Runs(a)| ==> RefsBelow(Runs(a)[i], |st.ids|)
  {
    BuiltItemRefs(st, a.items);
    if a.Or? {
      AltsRefs(st, a.first);
    }
    hide RefsBelow, ItemElems;
  }

  lemma {:induction false} AllAltsRead(before: Symbols, mid: Symbols, st: Symbols, toks: seq<Token>, pos: nat,
                                       next: nat, ruleId: nat,
                                       joined: seq<Element>, alts: Alts)
    requires ruleId < |before.ids| && (RuleAt(before.rules, ruleId) == [] || WordNamed(before.ids, ruleId))
    requires SomeAltsRead(before, mid, toks, pos, next, joined, alts) && st.ids == mid.ids
    requires forall i: nat :: RuleAt(st.rules, i) == if i == ruleId then RuleOf(Runs(alts)) else RuleAt(mid.rules, i)
    ensures AltsRead(before, st, toks, pos, next, ruleId, alts)
  {
    RuleSet(mid, st, ruleId, RuleOf(Runs(alts)));
    Weaken(before, mid, ruleId);
    ExtendsTrans(before, mid, st, ruleId);
    StaysBuiltAlts(mid, st, alts);
    hide Extends, Runs;
  }

  lemma {:induction false} Weaken(before: Symbols, st: Symbols, but: nat)
    requires ExtendsBut(before, st, -1)
    ensures ExtendsBut(before, st, but)
  {
  }

  lemma {:induction false} IdBelow(ids: Ids, name: string)
    requires Numbered(ids) && name in ids
    ensures ids[name] < |ids|
  {
  }

  lemma {:induction false} MoreRulesOk(rules: seq<Rule>, m: nat, n: nat)
    requires (forall i :: 0 <= i < |rules| ==> rules[i] == [] || RuleOk(rules[i], m)) && m <= n
    ensures forall i :: 0 <= i < |rules| ==> rules[i] == [] || RuleOk(rules[i], n)
  {
    hide RuleOk;
    forall i | 0 <= i < |rules| && rules[i] != [] ensures RuleOk(rules[i], n) {
      MoreSymbolsOk(rules[i], m, n);
    }
  }
}
