/** Grammars as they are written, and what they mean. */
module GrammarSyntax {
  import opened Grammar
  import opened GrammarSegments

  datatype Op = Star | Plus | Query

  datatype Range = Range(lo: nat, hi: nat, wide: bool)    // one character unless wide

  /** The ids are those of the rules that the compiler makes for a reference, a group or a repetition. */
  datatype Expr =
    | Literal(chars: seq<nat>)
    | Class(negated: bool, ranges: seq<Range>)
    | Ref(name: string, id: nat)
    | Group(alts: Alts, id: nat)
    | Repeat(item: Expr, op: Op, id: nat)

  datatype Items = Nothing | Then(before: Items, last: Expr)

  datatype Alts = One(items: Items) | Or(first: Alts, items: Items)

  /** What the names stand for. */
  type Definitions = map<string, Alts>

  predicate InClass(ranges: seq<Range>, c: nat) {
    exists i :: 0 <= i < |ranges| && InRange(ranges[i], c)
  }

  predicate InRange(r: Range, c: nat) {
    if r.wide then r.lo <= c <= r.hi else c == r.lo
  }

  // ---------------------------------------------------------------------------------------------
  // Meaning: names may be looked up n deep

  ghost predicate Means(g: Definitions, n: nat, e: Expr, w: Word)
    decreases n, e, 0
  {
    match e
    case Literal(chars) => w == chars
    case Class(negated, ranges) => |w| == 1 && InClass(ranges, w[0]) != negated
    case Ref(name, _) => n > 0 && name in g && MeansAlts(g, n - 1, g[name], w)
    case Group(alts, _) => MeansAlts(g, n, alts, w)
    case Repeat(item, op, _) =>
      if op == Query then w == [] || Means(g, n, item, w)
      else exists k: nat :: (op == Plus ==> k > 0) && Times(g, n, item, k, w)
  }

  /** k words of e in a row. */
  ghost predicate Times(g: Definitions, n: nat, e: Expr, k: nat, w: Word)
    decreases n, e, 2 * k
  {
    if k == 0 then w == []
    else exists i: nat :: TimesSplit(g, n, e, k, w, i)
  }

  ghost predicate TimesSplit(g: Definitions, n: nat, e: Expr, k: nat, w: Word, i: nat)
    requires k > 0
    decreases n, e, 2 * k - 1
  {
    i <= |w| && Means(g, n, e, w[..i]) && Times(g, n, e, k - 1, w[i..])
  }

  ghost predicate MeansItems(g: Definitions, n: nat, s: Items, w: Word)
    decreases n, s, 1
  {
    match s
    case Nothing => w == []
    case Then(before, last) => exists i: nat :: ItemsSplit(g, n, before, last, w, i)
  }

  ghost predicate ItemsSplit(g: Definitions, n: nat, before: Items, last: Expr, w: Word, i: nat)
    decreases n, Then(before, last), 0
  {
    i <= |w| && MeansItems(g, n, before, w[..i]) && Means(g, n, last, w[i..])
  }

  ghost predicate MeansAlts(g: Definitions, n: nat, a: Alts, w: Word)
    decreases n, a, 1
  {
    match a
    case One(s) => MeansItems(g, n, s, w)
    case Or(first, s) => MeansAlts(g, n, first, w) || MeansItems(g, n, s, w)
  }

  // Looking deeper loses nothing

  lemma {:induction false} MeansMore(g: Definitions, m: nat, n: nat, e: Expr, w: Word)
    requires m <= n && Means(g, m, e, w)
    ensures Means(g, n, e, w)
    decreases m, e, 0
  {
    match e
    case Literal(_) =>
    case Class(_, _) =>
    case Ref(name, _) => AltsMore(g, m - 1, n - 1, g[name], w);
    case Group(alts, _) => AltsMore(g, m, n, alts, w);
    case Repeat(item, op, _) =>
      if op == Query {
        if w != [] {
          MeansMore(g, m, n, item, w);
        }
      } else {
        var k: nat :| (op == Plus ==> k > 0) && Times(g, m, item, k, w);
        TimesMore(g, m, n, item, k, w);
      }
  }

  lemma {:induction false} TimesMore(g: Definitions, m: nat, n: nat, e: Expr, k: nat, w: Word)
    requires m <= n && Times(g, m, e, k, w)
    ensures Times(g, n, e, k, w)
    decreases m, e, k + 1
  {
    if k > 0 {
      var i: nat :| TimesSplit(g, m, e, k, w, i);
      MeansMore(g, m, n, e, w[..i]);
      TimesMore(g, m, n, e, k - 1, w[i..]);
      assert TimesSplit(g, n, e, k, w, i);
    }
  }

  lemma {:induction false} ItemsMore(g: Definitions, m: nat, n: nat, s: Items, w: Word)
    requires m <= n && MeansItems(g, m, s, w)
    ensures MeansItems(g, n, s, w)
    decreases m, s, 1
  {
    if s.Then? {
      var i: nat :| ItemsSplit(g, m, s.before, s.last, w, i);
      ItemsMore(g, m, n, s.before, w[..i]);
      MeansMore(g, m, n, s.last, w[i..]);
      assert ItemsSplit(g, n, s.before, s.last, w, i);
    }
  }

  lemma {:induction false} AltsMore(g: Definitions, m: nat, n: nat, a: Alts, w: Word)
    requires m <= n && MeansAlts(g, m, a, w)
    ensures MeansAlts(g, n, a, w)
    decreases m, a, 1
  {
    match a
    case One(s) => ItemsMore(g, m, n, s, w);
    case Or(first, s) =>
      if MeansAlts(g, m, first, w) {
        AltsMore(g, m, n, first, w);
      } else {
        ItemsMore(g, m, n, s, w);
      }
  }

  // ---------------------------------------------------------------------------------------------
  // The elements that stand for an expression

  function LiteralElems(chars: seq<nat>): (es: seq<Element>)
    ensures |es| == |chars|
  {
    seq(|chars|, i requires 0 <= i < |chars| => Element(CHAR, chars[i]))
  }

  function RangeElems(kind: Kind, r: Range): seq<Element> {
    if r.wide then [Element(kind, r.lo), Element(CHAR_RNG_UPPER, r.hi)] else [Element(kind, r.lo)]
  }

  function ClassElems(kind: Kind, ranges: seq<Range>): seq<Element>
    decreases |ranges|
  {
    if ranges == [] then [] else RangeElems(kind, ranges[0]) + ClassElems(CHAR_ALT, ranges[1..])
  }

  function Elems(e: Expr): seq<Element> {
    match e
    case Literal(chars) => LiteralElems(chars)
    case Class(negated, ranges) => ClassElems(if negated then CHAR_NOT else CHAR, ranges)
    case Ref(_, id) => [Element(RULE_REF, id)]
    case Group(_, id) => [Element(RULE_REF, id)]
    case Repeat(_, _, id) => [Element(RULE_REF, id)]
  }

  function ItemElems(s: Items): seq<Element> {
    if s.Nothing? then [] else ItemElems(s.before) + Elems(s.last)
  }

  function Runs(a: Alts): (runs: seq<seq<Element>>)
    ensures |runs| > 0
  {
    match a
    case One(s) => [ItemElems(s)]
    case Or(first, s) => Runs(first) + [ItemElems(s)]
  }

  /** S* is S' ::= S S' | nothing, S+ is S' ::= S S' | S, and S? is S' ::= S | nothing. */
  function RepeatRuns(es: seq<Element>, op: Op, id: nat): (runs: seq<seq<Element>>)
    ensures |runs| == 2
  {
    [es + if op == Query then [] else [Element(RULE_REF, id)], if op == Plus then es else []]
  }

  function RuleOf(runs: seq<seq<Element>>): Rule {
    Joined(runs) + [Element(END, 0)]
  }

  lemma {:induction false} ClassPlain(kind: Kind, ranges: seq<Range>, c: nat)
    requires kind in {CHAR, CHAR_NOT, CHAR_ALT} && ranges != []
    ensures var es := ClassElems(kind, ranges);
      && es != [] && es[0] == Element(kind, ranges[0].lo) && es[|es| - 1].kind in {kind, CHAR_ALT, CHAR_RNG_UPPER}
           && ClassEnd(es, 0) == |es|
      && Listed(es, 0, c) == InClass(ranges, c)
      && (forall i :: 0 <= i < |es| ==> es[i].kind in {CHAR, CHAR_NOT, CHAR_ALT, CHAR_RNG_UPPER})
      && (forall i :: 0 < i < |es| && es[i].kind == CHAR_RNG_UPPER ==> es[i - 1].kind in {CHAR, CHAR_NOT, CHAR_ALT})
      && (forall i :: 0 < i < |es| && es[i].kind in {CHAR, CHAR_NOT} ==> false)
    decreases |ranges|
  {
    var es, head, rest := ClassElems(kind, ranges), RangeElems(kind, ranges[0]), ranges[1..];
    var tail := ClassElems(CHAR_ALT, rest);
    assert es == head + tail;
    if rest == [] {
      assert tail == [];
      assert InClass(ranges, c) == InRange(ranges[0], c);
    } else {
      ClassPlain(CHAR_ALT, rest, c);
      ClassMoves(es, |head|, tail, 0, c);
      ClassSplit(ranges, c);
      hide InClass, ClassElems;
    }
  }

  lemma {:induction false} ClassSplit(ranges: seq<Range>, c: nat)
    requires ranges != []
    ensures InClass(ranges, c) == (InRange(ranges[0], c) || InClass(ranges[1..], c))
  {
    var rest := ranges[1..];
    if InClass(rest, c) {
      var i :| 0 <= i < |rest| && InRange(rest[i], c);
      assert ranges[i + 1] == rest[i];
    }
    if InClass(ranges, c) {
      var i :| 0 <= i < |ranges| && InRange(ranges[i], c);
      assert i > 0 ==> rest[i - 1] == ranges[i];
    }
  }

  lemma {:induction false} ElemsPlain(e: Expr)
    ensures Plain(Elems(e))
  {
    match e
    case Literal(_) =>
    case Class(negated, ranges) =>
      if ranges != [] {
        ClassPlain(if negated then CHAR_NOT else CHAR, ranges, 0);
      }
    case Ref(_, _) =>
    case Group(_, _) =>
    case Repeat(_, _, _) =>
  }

  lemma {:induction false} ItemsPlain(s: Items)
    ensures Plain(ItemElems(s))
  {
    if s.Then? {
      ItemsPlain(s.before);
      ElemsPlain(s.last);
      PlainJoin(ItemElems(s.before), Elems(s.last));
    }
  }

  lemma {:induction false} RunsPlain(a: Alts)
    ensures AltsPlain(Runs(a))
  {
    hide Plain;
    ItemsPlain(a.items);
    if a.Or? {
      RunsPlain(a.first);
    }
  }

  lemma {:induction false} RepeatPlain(es: seq<Element>, op: Op, id: nat)
    requires Plain(es)
    ensures AltsPlain(RepeatRuns(es, op, id))
  {
    PlainJoin(es, [Element(RULE_REF, id)]);
    assert es + [] == es;
  }

  /** A single character matches a class as it is written. */
  lemma {:induction false} ClassMeans(rules: seq<Rule>, g: Definitions, e: Expr, w: Word, n: nat)
    requires RulesOk(rules) && e.Class? && e.ranges != []
    ensures Seg(rules, Elems(e), w, n) <==> Means(g, n, e, w)
  {
    var es := Elems(e);
    ClassPlain(if e.negated then CHAR_NOT else CHAR, e.ranges, if w == [] then 0 else w[0]);
    SegChar(rules, es, w, n);
    hide Seg;
    assert es[|es|..] == [];
    if w != [] {
      SegNone(rules, w[1..], n);
    }
  }

  lemma {:induction false} LiteralMeans(rules: seq<Rule>, chars: seq<nat>, w: Word, n: nat)
    requires RulesOk(rules)
    ensures Seg(rules, LiteralElems(chars), w, n) <==> w == chars
    decreases |chars|
  {
    hide Seg;
    var es := LiteralElems(chars);
    if chars == [] {
      SegNone(rules, w, n);
    } else {
      SegChar(rules, es, w, n);
      assert ClassEnd(es, 0) == 1;
      assert es[1..] == LiteralElems(chars[1..]);
      if w != [] {
        LiteralMeans(rules, chars[1..], w[1..], n);
        assert Accepts(es, 0, w[0]) == (w[0] == chars[0]);
        assert w == [w[0]] + w[1..] && chars == [chars[0]] + chars[1..];
      }
    }
  }
}
