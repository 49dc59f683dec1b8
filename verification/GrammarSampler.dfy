/** The grammar a decoder carries along while it samples tokens. */
module GrammarSampler {
  import opened Grammar
  import opened GrammarEngine
  import opened GrammarAccept
  import opened GrammarFilter
  import opened Utf8

  const NO_PARTIAL := PartialUtf8(0, 0)

  /** The text starts with "[_". */
  predicate IsSpecial(token: Bytes) {
    |token| >= 2 && token[0] == 0x5B && token[1] == 0x5F
  }

  lemma {:induction false} AcceptAllAppend(rules: seq<Rule>, rk: Ranking, stacks: seq<Stack>, u: Word, v: Word)
    requires RulesOk(rules) && NoLeftRecursion(rules, rk) && AllSettled(rules, stacks)
    ensures AllSettled(rules, AcceptAll(rules, rk, stacks, u))
    ensures AcceptAll(rules, rk, AcceptAll(rules, rk, stacks, u), v) == AcceptAll(rules, rk, stacks, u + v)
    decreases |u|
  {
    hide RulesOk, NoLeftRecursion, AllSettled, Accept;
    if u == [] {
      assert u + v == v;
    } else {
      AcceptSettles(rules, rk, stacks, u[0]);
      AcceptAllAppend(rules, rk, Accept(rules, rk, stacks, u[0]), u[1..], v);
      assert (u + v)[1..] == u[1..] + v;
    }
  }

  /** Accepts all code points but the terminating 0. */
  method AcceptText(rules: seq<Rule>, stacks: seq<Stack>, codePoints: seq<nat>, ghost rk: Ranking)
    returns (s: seq<Stack>)
    requires RulesOk(rules) && NoLeftRecursion(rules, rk) && AllSettled(rules, stacks) && codePoints != []
    ensures s == AcceptAll(rules, rk, stacks, codePoints[..|codePoints| - 1])
  {
    hide RulesOk, NoLeftRecursion, AllSettled;
    s := stacks;
    ghost var text := codePoints[..|codePoints| - 1];
    for i := 0 to |codePoints| - 1
      invariant AllSettled(rules, s)
      invariant AcceptAll(rules, rk, s, text[i..]) == AcceptAll(rules, rk, stacks, text)
    {
      AcceptSettles(rules, rk, s, codePoints[i]);
      assert text[i..][1..] == text[i + 1..];
      s := AcceptChar(rules, s, codePoints[i], rk);
    }
  }

  /** The stacks derive the words of the start rule. */
  ghost predicate Grounded(rules: seq<Rule>, rk: Ranking, start: nat, first: seq<Stack>) {
    && RulesOk(rules) && NoLeftRecursion(rules, rk) && start < |rules| && AllSettled(rules, first)
    && forall w :: AnyLang(rules, first, w) <==> RuleLang(rules, start, w)
  }

  class SamplerGrammar {
    var rules: seq<Rule>
    var stacks: seq<Stack>
    var partialUtf8: PartialUtf8
    ghost var rk: Ranking
    ghost var start: nat
    ghost var first: seq<Stack>      // the stacks before any text
    ghost var pieces: seq<Bytes>     // the texts of the tokens accepted so far

    /** The code points of the tokens so far, and what they leave of a character. */
    ghost function Fed(): Utf8.Fed
      reads this
    {
      DecodePieces(pieces, NO_PARTIAL)
    }

    /** The stacks are those after all code points so far; until they run out, so is the partial character. */
    ghost predicate Valid()
      reads this
    {
      && Grounded(rules, rk, start, first) && rules != [] && RulesOk(rules) && NoLeftRecursion(rules, rk)
           && AllSettled(rules, first)
      && stacks == AcceptAll(rules, rk, first, Fed().codePoints)
      && (stacks != [] ==> partialUtf8 == Fed().state)
    }

    constructor (rules: seq<Rule>, start: nat, ghost rk: Ranking)
      requires RulesOk(rules) && NoLeftRecursion(rules, rk) && start < |rules|
      ensures Valid() && pieces == [] && this.rules == rules && this.start == start
    {
      var stacks := InitGrammar(rules, start, rk);
      this.rules, this.stacks, this.partialUtf8 := rules, stacks, NO_PARTIAL;
      this.rk, this.start, this.first, this.pieces := rk, start, stacks, [];
      new;
      hide RulesOk, NoLeftRecursion, AllSettled, AnyLang, RuleLang;
    }

    /** Accepts a token's text, whatever its bytes; special tokens are skipped. */
    method AcceptToken(token: Bytes)
      requires Valid()
      modifies this
      ensures Valid()
      ensures pieces == if [0x5B, 0x5F] <= token then old(pieces) else old(pieces) + [token]
      ensures rules == old(rules) && start == old(start)
    {
      hide Grounded, RulesOk, NoLeftRecursion, AllSettled, AnyLang, RuleLang, AcceptAll, DecodePieces, Decoded;
      if IsSpecial(token) {
        return;
      }
      PieceMore(rules, rk, first, pieces, token);
      ghost var more := Decoded(token, Fed().state);
      if rules == [] || stacks == [] {
        NoStacks(rules, rk, more.codePoints);
        pieces := pieces + [token];
        return;
      }
      var codePoints, partial := DecodeUtf8(token, partialUtf8);
      var s := AcceptText(rules, stacks, codePoints, rk);
      assert codePoints[..|codePoints| - 1] == more.codePoints;
      stacks, partialUtf8, pieces := s, partial, pieces + [token];
    }

    /** What can still be sampled is exactly what completes the text so far to a word of the grammar. */
    lemma {:induction false} Remaining(w: Word)
      requires Valid()
      ensures AnyLang(rules, stacks, w) <==> RuleLang(rules, start, Fed().codePoints + w)
    {
      hide RulesOk, NoLeftRecursion, AllSettled, AnyLang, RuleLang, DecodePieces;
      AcceptAllLang(rules, rk, first, Fed().codePoints, w);
    }

    /** If the tokens are the bytes of encoded text, cut anywhere, that is the text. */
    lemma {:induction false} RemainingOf(text: seq<nat>, w: Word)
      requires Valid() && (forall i :: 0 <= i < |text| ==> 0 < text[i] < 0x11_0000) && Joined(pieces) == EncodeAll(text)
      ensures AnyLang(rules, stacks, w) <==> RuleLang(rules, start, text + w)
    {
      hide RulesOk, NoLeftRecursion, AllSettled, AnyLang, RuleLang, DecodePieces;
      EncodedPieces(text, pieces, NO_PARTIAL);
      Remaining(w);
    }
  }

  /** The stacks after the tokens so far and one more. */
  lemma {:induction false} PieceMore(rules: seq<Rule>, rk: Ranking, first: seq<Stack>, pieces: seq<Bytes>, token: Bytes)
    requires RulesOk(rules) && NoLeftRecursion(rules, rk) && AllSettled(rules, first)
    ensures var before := DecodePieces(pieces, NO_PARTIAL);
      var more := Decoded(token, before.state);
      && AllSettled(rules, AcceptAll(rules, rk, first, before.codePoints))
      && DecodePieces(pieces + [token], NO_PARTIAL) == Fed(before.codePoints + more.codePoints, more.state)
      && AcceptAll(rules, rk, first, before.codePoints + more.codePoints)
         == AcceptAll(rules, rk, AcceptAll(rules, rk, first, before.codePoints), more.codePoints)
  {
    hide RulesOk, NoLeftRecursion, AllSettled, Decoded, AcceptAll;
    assert (pieces + [token])[..|pieces|] == pieces;
    var before := DecodePieces(pieces, NO_PARTIAL);
    AcceptAllAppend(rules, rk, first, before.codePoints, Decoded(token, before.state).codePoints);
  }
}
