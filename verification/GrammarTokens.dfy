/** Which token sequences are grammars. */
module GrammarTokens {
  import opened GrammarSyntax
  import opened SymbolNames

  datatype Token =
    | TLiteral(chars: seq<nat>)
    | TClass(negated: bool, ranges: seq<Range>)
    | TName(name: string)
    | TOpen | TClose | TBar | TDefine | TNewLine
    | TOp(op: Op)

  // ---------------------------------------------------------------------------------------------
  // How expressions are written

  function Show(e: Expr): seq<Token>
    decreases e, 0
  {
    match e
    case Literal(chars) => [TLiteral(chars)]
    case Class(negated, ranges) => [TClass(negated, ranges)]
    case Ref(name, _) => [TName(name)]
    case Group(alts, _) => [TOpen] + ShowAlts(alts) + [TClose]
    case Repeat(item, op, _) => Show(item) + [TOp(op)]
  }

  function ShowItems(s: Items): seq<Token>
    decreases s, 1
  {
    if s.Nothing? then [] else ShowItems(s.before) + Show(s.last)
  }

  function ShowAlts(a: Alts): seq<Token>
    decreases a, 1
  {
    if a.One? then ShowItems(a.items) else ShowAlts(a.first) + [TBar] + ShowItems(a.items)
  }

  /** A definition, and whether a new line ends it. */
  datatype Definition = Definition(name: string, alts: Alts, newLine: bool)

  function ShowAll(defs: seq<Definition>): seq<Token> {
    if defs == [] then []
    else
      var d := defs[|defs| - 1];
      ShowAll(defs[..|defs| - 1]) + [TName(d.name), TDefine] + ShowAlts(d.alts) + if d.newLine then [TNewLine] else []
  }

  /** Of several definitions of a name the last one counts. */
  function Latest(defs: seq<Definition>): Definitions {
    if defs == [] then map[] else Latest(defs[..|defs| - 1])[defs[|defs| - 1].name := defs[|defs| - 1].alts]
  }

  predicate TokensOk(toks: seq<Token>) {
    forall i :: 0 <= i < |toks| && toks[i].TName? ==> IsWord(toks[i].name)
  }

  // ---------------------------------------------------------------------------------------------
  // Scanning ahead: where a sequence or a list of alternatives ends, if it is well formed

  predicate IsItem(t: Token) {
    t.TLiteral? || t.TClass? || t.TName? || t.TOpen? || t.TOp?
  }

  datatype Outcome = Fail | At(next: nat)

  /** nothing says that there is nothing a repetition sign could apply to. */
  function ScanSequence(toks: seq<Token>, pos: nat, nothing: bool): (o: Outcome)
    requires pos <= |toks|
    ensures o.At? ==> pos <= o.next <= |toks|
    decreases |toks| - pos, 0
  {
    if pos >= |toks| || !IsItem(toks[pos]) then At(pos)
    else match toks[pos]
      case TLiteral(chars) => ScanSequence(toks, pos + 1, chars == [])
      case TClass(_, ranges) => ScanSequence(toks, pos + 1, ranges == [])
      case TName(_) => ScanSequence(toks, pos + 1, false)
      case TOpen =>
        var o := ScanAlternates(toks, pos + 1);
        if o.At? && o.next < |toks| && toks[o.next] == TClose then ScanSequence(toks, o.next + 1, false) else Fail
      case TOp(_) => if nothing then Fail else ScanSequence(toks, pos + 1, false)
  }

  /** What the next token does to the scan. */
  lemma {:induction false} ScanStep(toks: seq<Token>, pos: nat, nothing: bool)
    requires pos <= |toks|
    ensures pos == |toks| || !IsItem(toks[pos]) ==> ScanSequence(toks, pos, nothing) == At(pos)
    ensures pos < |toks| && toks[pos].TLiteral? ==>
      ScanSequence(toks, pos, nothing) == ScanSequence(toks, pos + 1, toks[pos].chars == [])
    ensures pos < |toks| && toks[pos].TClass? ==>
      ScanSequence(toks, pos, nothing) == ScanSequence(toks, pos + 1, toks[pos].ranges == [])
    ensures pos < |toks| && toks[pos].TName? ==> ScanSequence(toks, pos, nothing) == ScanSequence(toks, pos + 1, false)
    ensures pos < |toks| && toks[pos].TOp? ==>
      ScanSequence(toks, pos, nothing) == if nothing then Fail else ScanSequence(toks, pos + 1, false)
    ensures pos < |toks| && toks[pos].TOpen? ==>
      var o := ScanAlternates(toks, pos + 1);
      ScanSequence(toks, pos, nothing)
      == if o.At? && o.next < |toks| && toks[o.next] == TClose then ScanSequence(toks, o.next + 1, false) else Fail
  {
    hide ScanAlternates;
  }

  function ScanAlternates(toks: seq<Token>, pos: nat): (o: Outcome)
    requires pos <= |toks|
    ensures o.At? ==> pos <= o.next <= |toks|
    decreases |toks| - pos, 1
  {
    var o := ScanSequence(toks, pos, true);
    if o.At? && o.next < |toks| && toks[o.next] == TBar then ScanAlternates(toks, o.next + 1) else o
  }

  /** What comes after the end of an alternative. */
  function ScanBar(toks: seq<Token>, pos: nat): Outcome
    requires pos <= |toks|
  {
    if pos < |toks| && toks[pos] == TBar then ScanAlternates(toks, pos + 1) else At(pos)
  }

  lemma {:induction false} ScanAlternative(toks: seq<Token>, pos: nat)
    requires pos <= |toks|
    ensures
      ScanAlternates(toks, pos) == var o := ScanSequence(toks, pos, true); if o.At? then ScanBar(toks, o.next) else Fail
  {
    hide ScanSequence;
  }

  predicate ScanRules(toks: seq<Token>, pos: nat)
    requires pos <= |toks|
    decreases |toks| - pos
  {
    pos == |toks|
    || (pos + 1 < |toks| && toks[pos].TName? && toks[pos + 1] == TDefine &&
        var o := ScanAlternates(toks, pos + 2);
        o.At? && (o.next == |toks| || (toks[o.next] == TNewLine && ScanRules(toks, o.next + 1))))
  }

  // ---------------------------------------------------------------------------------------------
  // What is written is scanned to its end, unless a repetition sign has nothing to apply to

  ghost predicate Sound(e: Expr)
    decreases e, 0
  {
    match e
    case Literal(_) => true
    case Class(_, _) => true
    case Ref(_, _) => true
    case Group(alts, _) => SoundAlts(alts)
    case Repeat(item, _, _) => Sound(item) && Elems(item) != []
  }

  ghost predicate SoundItems(s: Items)
    decreases s, 1
  {
    s.Then? ==> SoundItems(s.before) && Sound(s.last)
  }

  ghost predicate SoundAlts(a: Alts)
    decreases a, 1
  {
    SoundItems(a.items) && (a.Or? ==> SoundAlts(a.first))
  }

  lemma {:induction false} ScanShown(toks: seq<Token>, pos: nat, to: nat, e: Expr, nothing: bool)
    requires pos <= to <= |toks| && toks[pos..to] == Show(e)
    ensures ScanSequence(toks, pos, nothing) == if Sound(e) then ScanSequence(toks, to, Elems(e) == []) else Fail
    decreases e, 0
  {
    match e
    case Literal(_) =>
      ScanShownToken(toks, pos, to, e, nothing);
    case Class(_, _) =>
      ScanShownToken(toks, pos, to, e, nothing);
    case Ref(_, _) =>
      ScanShownToken(toks, pos, to, e, nothing);
    case Group(alts, _) =>
      GroupShown(toks, pos, to, e);
      ScanShownAlts(toks, pos + 1, to - 1, alts);
      hide ShowAlts, ScanAlternates, Show;
    case Repeat(item, op, _) =>
      RepeatShown(toks, pos, to, e);
      ScanShown(toks, pos, to - 1, item, nothing);
      hide Show, Elems, ScanAlternates;
      ScanOp(toks, to - 1, Elems(item) == []);
  }

  lemma {:induction false} ScanOp(toks: seq<Token>, pos: nat, nothing: bool)
    requires pos < |toks| && toks[pos].TOp?
    ensures ScanSequence(toks, pos, nothing) == if nothing then Fail else ScanSequence(toks, pos + 1, false)
  {
  }

  lemma {:induction false} ScanShownToken(toks: seq<Token>, pos: nat, to: nat, e: Expr, nothing: bool)
    requires pos <= to <= |toks| && toks[pos..to] == Show(e) && (e.Literal? || e.Class? || e.Ref?)
    ensures ScanSequence(toks, pos, nothing) == ScanSequence(toks, to, Elems(e) == [])
  {
    assert toks[pos] == toks[pos..to][0];
    if e.Class? {
      ClassEmpty(e);
    }
  }

  lemma {:induction false} GroupShown(toks: seq<Token>, pos: nat, to: nat, e: Expr)
    requires pos <= to <= |toks| && toks[pos..to] == Show(e) && e.Group?
    ensures
      pos + 1 <= to - 1 && toks[pos] == TOpen && toks[to - 1] == TClose && toks[pos + 1..to - 1] == ShowAlts(e.alts)
  {
    hide ShowAlts;
    assert toks[pos] == toks[pos..to][0] && toks[to - 1] == toks[pos..to][|Show(e)| - 1];
    Inside(toks, pos, to, ShowAlts(e.alts));
  }

  lemma {:induction false} RepeatShown(toks: seq<Token>, pos: nat, to: nat, e: Expr)
    requires pos <= to <= |toks| && toks[pos..to] == Show(e) && e.Repeat?
    ensures pos <= to - 1 && toks[to - 1] == TOp(e.op) && toks[pos..to - 1] == Show(e.item)
  {
    SliceSplit(toks, pos, to, Show(e.item), [TOp(e.op)]);
    assert toks[to - 1] == toks[to - 1..to][0];
  }

  lemma {:induction false} SliceSplit(toks: seq<Token>, pos: nat, to: nat, a: seq<Token>, b: seq<Token>)
    requires pos <= to <= |toks| && toks[pos..to] == a + b
    ensures to == pos + |a| + |b| && toks[pos..pos + |a|] == a && toks[pos + |a|..to] == b
  {
    var all := toks[pos..to];
    assert |all| == to - pos == |a| + |b|;
    forall i | 0 <= i < |a| ensures toks[pos + i] == a[i] {
      assert all[i] == toks[pos + i];
    }
    forall i | 0 <= i < |b| ensures toks[pos + |a| + i] == b[i] {
      assert all[|a| + i] == toks[pos + |a| + i];
    }
  }

  lemma {:induction false} Inside(toks: seq<Token>, pos: nat, to: nat, inner: seq<Token>)
    requires pos <= to <= |toks| && toks[pos..to] == [TOpen] + inner + [TClose]
    ensures pos + 1 <= to - 1 && toks[pos + 1..to - 1] == inner
  {
    var all := toks[pos..to];
    assert |all| == to - pos == |inner| + 2;
    forall i | 0 <= i < |inner| ensures toks[pos + 1 + i] == inner[i] {
      assert all[1 + i] == toks[pos + 1 + i];
    }
  }

  lemma {:induction false} ClassEmpty(e: Expr)
    requires e.Class?
    ensures Elems(e) == [] <==> e.ranges == []
  {
  }

  lemma {:induction false} ScanShownItems(toks: seq<Token>, pos: nat, to: nat, s: Items)
    requires pos <= to <= |toks| && toks[pos..to] == ShowItems(s)
    ensures ScanSequence(toks, pos, true)
         == if SoundItems(s) then ScanSequence(toks, to, s.Nothing? || Elems(s.last) == []) else Fail
    decreases s, 1
  {
    if s.Then? {
      SliceSplit(toks, pos, to, ShowItems(s.before), Show(s.last));
      var mid := pos + |ShowItems(s.before)|;
      ScanShownItems(toks, pos, mid, s.before);
      ScanShown(toks, mid, to, s.last, s.before.Nothing? || Elems(s.before.last) == []);
    }
  }

  lemma {:induction false} ScanShownAlts(toks: seq<Token>, pos: nat, to: nat, a: Alts)
    requires pos <= to <= |toks| && toks[pos..to] == ShowAlts(a) && (to < |toks| ==> !IsItem(toks[to]))
    ensures ScanAlternates(toks, pos) == if SoundAlts(a) then ScanBar(toks, to) else Fail
    decreases a, 1
  {
    if a.One? {
      ScanShownItems(toks, pos, to, a.items);
      ScanOne(toks, pos, to, if SoundItems(a.items) then At(to) else Fail,
              a.items.Nothing? || Elems(a.items.last) == []);
      hide ScanAlternates, ScanBar, ShowItems;
    } else {
      var bar := AltsShown(toks, pos, to, a);
      hide ShowAlts, ShowItems, Elems, ScanAlternates;
      ScanShownAlts(toks, pos, bar, a.first);
      ScanShownItems(toks, bar + 1, to, a.items);
      ScanOne(toks, bar + 1, to, if SoundItems(a.items) then At(to) else Fail,
              a.items.Nothing? || Elems(a.items.last) == []);
    }
  }

  lemma {:induction false} ScanOne(toks: seq<Token>, pos: nat, to: nat, o: Outcome, nothing: bool)
    requires pos <= to <= |toks| && (to < |toks| ==> !IsItem(toks[to])) && (o == Fail || o == At(to))
    requires ScanSequence(toks, pos, true) == if o.Fail? then Fail else ScanSequence(toks, to, nothing)
    ensures ScanAlternates(toks, pos) == if o.Fail? then Fail else ScanBar(toks, to)
  {
  }

  lemma {:induction false} AltsShown(toks: seq<Token>, pos: nat, to: nat, a: Alts) returns (bar: nat)
    requires pos <= to <= |toks| && toks[pos..to] == ShowAlts(a) && a.Or?
    ensures pos <= bar < to && toks[bar] == TBar && toks[pos..bar] == ShowAlts(a.first)
      && toks[bar + 1..to] == ShowItems(a.items)
  {
    hide ShowItems;
    SliceSplit(toks, pos, to, ShowAlts(a.first) + [TBar], ShowItems(a.items));
    bar := pos + |ShowAlts(a.first)|;
    SliceSplit(toks, pos, bar + 1, ShowAlts(a.first), [TBar]);
    assert toks[bar] == toks[bar..bar + 1][0];
  }

  // ---------------------------------------------------------------------------------------------
  // Definitions

  lemma {:induction false} LatestOf(defs: seq<Definition>, d: Definition)
    ensures Latest(defs + [d]) == Latest(defs)[d.name := d.alts]
    ensures ShowAll(defs + [d])
      == ShowAll(defs) + [TName(d.name), TDefine] + ShowAlts(d.alts) + (if d.newLine then [TNewLine] else [])
  {
    assert (defs + [d])[..|defs|] == defs;
  }

  lemma {:induction false} ShowOne(d: Definition)
    ensures ShowAll([d]) == ([TName(d.name), TDefine] + ShowAlts(d.alts)) + if d.newLine then [TNewLine] else []
  {
    hide ShowAlts;
    assert [d][..0] == [];
    assert ShowAll([]) == [];
    assert [] + [TName(d.name), TDefine] == [TName(d.name), TDefine];
  }

  lemma {:induction false} ShowLast(defs: seq<Definition>)
    requires defs != []
    ensures ShowAll(defs) == ShowAll(defs[..|defs| - 1]) + ShowAll([defs[|defs| - 1]])
  {
    ShowOne(defs[|defs| - 1]);
    hide ShowAlts;
  }

  /** The tokens from start to pos are these definitions, every one but perhaps the last ended by a new line. */
  ghost predicate Shown(toks: seq<Token>, start: nat, pos: nat, defs: seq<Definition>) {
    && start <= pos <= |toks| && toks[start..pos] == ShowAll(defs)
    && forall k :: 0 <= k < |defs| && (k < |defs| - 1 || pos < |toks|) ==> defs[k].newLine
  }

  ghost predicate AllSound(defs: seq<Definition>) {
    forall k :: 0 <= k < |defs| ==> SoundAlts(defs[k].alts)
  }

  lemma {:induction false} ScanDefinition(toks: seq<Token>, pos: nat, to: nat, d: Definition)
    requires pos <= to <= |toks| && toks[pos..to] == ShowAll([d]) && (!d.newLine ==> to == |toks|)
    ensures pos < to && ScanRules(toks, pos) == (SoundAlts(d.alts) && ScanRules(toks, to))
  {
    ShowOne(d);
    hide ShowAlts, ShowAll, ScanAlternates;
    var tail := if d.newLine then [TNewLine] else [];
    SliceSplit(toks, pos, to, [TName(d.name), TDefine] + ShowAlts(d.alts), tail);
    var end := to - |tail|;
    SliceSplit(toks, pos, end, [TName(d.name), TDefine], ShowAlts(d.alts));
    assert toks[pos] == toks[pos..pos + 2][0] && toks[pos + 1] == toks[pos..pos + 2][1];
    assert d.newLine ==> toks[end] == toks[end..to][0];
    ScanShownAlts(toks, pos + 2, end, d.alts);
  }

  lemma {:induction false} ScanShownRules(toks: seq<Token>, start: nat, pos: nat, defs: seq<Definition>)
    requires Shown(toks, start, pos, defs)
    ensures ScanRules(toks, start) == (AllSound(defs) && ScanRules(toks, pos))
    decreases |defs|
  {
    if defs != [] {
      var front, d := defs[..|defs| - 1], defs[|defs| - 1];
      ShowLast(defs);
      SliceSplit(toks, start, pos, ShowAll(front), ShowAll([d]));
      var mid := start + |ShowAll(front)|;
      hide ShowAll, ScanRules, SoundAlts;
      ScanDefinition(toks, mid, pos, d);
      ScanShownRules(toks, start, mid, front);
      assert AllSound(defs) <==> AllSound(front) && SoundAlts(d.alts);
    }
  }

  lemma {:induction false} ShowStarts(defs: seq<Definition>)
    ensures ShowAll(defs) != [] ==> ShowAll(defs)[0].TName?
    decreases |defs|
  {
    if defs != [] {
      ShowStarts(defs[..|defs| - 1]);
      ShowLast(defs);
      ShowOne(defs[|defs| - 1]);
    }
  }

  /** A grammar is a list of definitions, all but perhaps the last ended by a new line, with every repetition
      sign after something; a new line may come first. */
  ghost predicate IsGrammar(toks: seq<Token>) {
    exists defs :: Shown(toks, Start(toks), |toks|, defs) && AllSound(defs)
  }

  function Start(toks: seq<Token>): (start: nat)
    ensures start <= |toks|
  {
    if |toks| > 0 && toks[0] == TNewLine then 1 else 0
  }

  /** Scanning ahead tells whether it is one. */
  lemma {:induction false} ScansGrammar(toks: seq<Token>, defs: seq<Definition>)
    requires Shown(toks, Start(toks), |toks|, defs)
    ensures ScanRules(toks, Start(toks)) == AllSound(defs)
  {
    ScanShownRules(toks, Start(toks), |toks|, defs);
  }
}
