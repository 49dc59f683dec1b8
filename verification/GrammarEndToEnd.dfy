/** A written grammar, compiled and followed while text is sampled. */
module GrammarEndToEnd {
  import opened Grammar
  import opened GrammarSyntax
  import opened GrammarEngine
  import opened GrammarAccept
  import opened GrammarParser
  import opened GrammarTokens
  import opened GrammarCompiler

  /** If the compiled rules have a ranking, the stacks after any text derive exactly what completes it to a word
      that the definition of the start symbol means. */
  lemma {:induction false} SampledAsWritten(st: Symbols, defs: seq<Definition>, name: string, rk: Ranking,
                                            stacks: seq<Stack>,
                                            text: Word, w: Word)
    requires Linked(st, defs) && Complete(st) && name in Latest(defs) && RulesOk(st.rules)
    requires forall a :: a in Latest(defs) ==> ProperAlts(Latest(defs)[a])
    requires
      NoLeftRecursion(st.rules, rk) && AllSettled(st.rules, stacks) && name in st.ids && st.ids[name] < |st.rules|
    requires forall v :: AnyLang(st.rules, stacks, v) <==> RuleLang(st.rules, st.ids[name], v)
    ensures AnyLang(st.rules, AcceptAll(st.rules, rk, stacks, text), w)
       <==> exists n: nat :: MeansAlts(Latest(defs), n, Latest(defs)[name], text + w)
  {
    hide Linked, Complete, Latest, MeansAlts, RulesOk, NoLeftRecursion, AllSettled, AnyLang, RuleLang, ProperAlts;
    AcceptAllLang(st.rules, rk, stacks, text, w);
    CompilerCorrect(st, defs, name, text + w);
  }
}
