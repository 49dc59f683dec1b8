/** The timestamp discipline: which tokens the masks leave. */
module Timestamps {
  const CHUNK: int := 3000    // a window, in hundredths of a second

  /** The tokens below eot are text; those from beg on are timestamps, two hundredths apart. */
  datatype Vocab = Vocab(size: nat, eot: nat, beg: nat, space: nat, specials: seq<nat>, solm: nat)

  ghost predicate VocabOk(v: Vocab) {
    && v.eot < v.beg < v.size && 2 * (v.size - 1 - v.beg) <= CHUNK && v.space < v.eot && v.eot < v.solm < v.beg
    && forall k :: 0 <= k < |v.specials| ==> v.eot < v.specials[k] < v.beg
  }

  // the largest first timestamp, or negative
  datatype Params = Params(noTimestamps: bool, suppressBlank: bool, tinydiarize: bool, maxInitial: int,
                           singleSegment: bool, maxTokens: int, loaded: bool)

  /** Timestamps never go back, never come three in a row or twice at the start, and after text
      a timestamp is not followed by more text. */
  ghost predicate WellTimed(v: Vocab, tokens: seq<int>) {
    && (forall a, b :: 0 <= a < b < |tokens| && v.beg <= tokens[a] && v.beg <= tokens[b] ==> tokens[a] <= tokens[b])
    && (forall k :: 0 < k < |tokens| ==> StepOk(v, tokens, k))
  }

  ghost predicate StepOk(v: Vocab, tokens: seq<int>, k: int)
    requires 0 < k < |tokens|
  {
    FollowsWell(v, if k > 1 then tokens[k - 2] else v.beg, tokens[k - 1], tokens[k])
  }

  /** What may come after two tokens; a missing one counts as a timestamp. */
  predicate FollowsWell(v: Vocab, before: int, last: int, next: int) {
    last >= v.beg ==> if before >= v.beg then next < v.beg else next >= v.eot
  }

  /** A third timestamp in a row at k, or a second one at the start. */
  predicate OneTooMany(v: Vocab, tokens: seq<int>, k: int)
    requires 0 < k < |tokens|
  {
    tokens[k] >= v.beg && tokens[k - 1] >= v.beg && (k == 1 || tokens[k - 2] >= v.beg)
  }

  /** Text at k behind a timestamp that itself comes behind text. */
  predicate TextAfterLone(v: Vocab, tokens: seq<int>, k: int)
    requires 0 < k < |tokens|
  {
    tokens[k] < v.eot && tokens[k - 1] >= v.beg && k > 1 && tokens[k - 2] < v.beg
  }

  /** The discipline, spelt out. */
  lemma {:induction false} DisciplineExact(v: Vocab, tokens: seq<int>)
    ensures WellTimed(v, tokens) <==>
      && (forall a, b :: 0 <= a < b < |tokens| && v.beg <= tokens[a] && v.beg <= tokens[b] ==> tokens[a] <= tokens[b])
      && (forall k :: 0 < k < |tokens| ==> !OneTooMany(v, tokens, k) && !TextAfterLone(v, tokens, k))
  {
    forall k | 0 < k < |tokens|
      ensures StepOk(v, tokens, k) <==> !OneTooMany(v, tokens, k) && !TextAfterLone(v, tokens, k)
    {
    }
  }

  /** The last timestamp above the first one, if any. */
  function Stamp(v: Vocab, tokens: seq<int>): (t: int)
    ensures t >= v.beg
  {
    if tokens == [] then v.beg
    else if tokens[|tokens| - 1] > v.beg then tokens[|tokens| - 1]
    else Stamp(v, tokens[..|tokens| - 1])
  }

  lemma {:induction false} StampIsLargest(v: Vocab, tokens: seq<int>)
    requires WellTimed(v, tokens)
    ensures forall a :: 0 <= a < |tokens| && tokens[a] >= v.beg ==> tokens[a] <= Stamp(v, tokens)
    ensures Stamp(v, tokens) > v.beg ==> Stamp(v, tokens) in tokens
    decreases |tokens|
  {
    hide StepOk;
    if tokens != [] {
      var front := tokens[..|tokens| - 1];
      WellTimedPrefix(v, tokens, |tokens| - 1);
      StampIsLargest(v, front);
      assert tokens == front + [tokens[|tokens| - 1]];
    }
  }

  lemma {:induction false} WellTimedPrefix(v: Vocab, tokens: seq<int>, n: nat)
    requires WellTimed(v, tokens) && n <= |tokens|
    ensures WellTimed(v, tokens[..n])
  {
    var front := tokens[..n];
    forall k | 0 < k < n ensures StepOk(v, front, k) {
      assert StepOk(v, tokens, k);
    }
  }

  // ---------------------------------------------------------------------------------------------
  // The masks

  /** What the timestamp rules forbid. */
  predicate Forbidden(v: Vocab, tokens: seq<int>, hasTs: bool, seekDelta: int, maxInitial: int, id: int) {
    || (tokens != [] && !FollowsWell(v, if |tokens| > 1 then tokens[|tokens| - 2] else v.beg, tokens[|tokens| - 1], id))
    || (tokens == [] && maxInitial >= 0 && id > v.beg + maxInitial)
    || (hasTs && v.beg <= id < v.beg + seekDelta / 2)
  }

  /** The rules forbid exactly what would break the discipline, or go beyond the limit on the first timestamp. */
  lemma {:induction false} MaskExact(v: Vocab, tokens: seq<int>, maxInitial: int, id: int)
    requires WellTimed(v, tokens)
    ensures var s := Stamp(v, tokens);
      !Forbidden(v, tokens, s > v.beg, 2 * (s - v.beg), maxInitial, id) <==>
        WellTimed(v, tokens + [id]) && (tokens == [] && maxInitial >= 0 ==> id <= v.beg + maxInitial)
  {
    var s, longer := Stamp(v, tokens), tokens + [id];
    StampIsLargest(v, tokens);
    assert forall a :: 0 <= a < |tokens| ==> longer[a] == tokens[a];
    if WellTimed(v, longer) {
      if tokens != [] {
        assert StepOk(v, longer, |tokens|);
      }
      if s > v.beg && v.beg <= id {
        var a :| 0 <= a < |tokens| && tokens[a] == s;
        assert longer[a] <= longer[|tokens|];
      }
    }
    if !Forbidden(v, tokens, s > v.beg, 2 * (s - v.beg), maxInitial, id) {
      forall a, b | 0 <= a < b < |longer| && v.beg <= longer[a] && v.beg <= longer[b] ensures longer[a] <= longer[b] {
        assert a < |tokens| && tokens[a] <= s;
      }
      forall k | 0 < k < |longer| ensures StepOk(v, longer, k) {
        if k < |tokens| {
          assert StepOk(v, tokens, k);
        }
      }
    }
  }

  datatype Logit = Masked | Open(value: real)

  method MaskRange(logits: array<Logit>, from: int, to: int)
    requires 0 <= from && to <= logits.Length
    modifies logits
    ensures forall i :: 0 <= i < logits.Length ==> logits[i] == if from <= i < to then Masked else old(logits[i])
  {
    var i := from;
    while i < to
      invariant from <= i && (i == from || i <= to)
      invariant forall k :: 0 <= k < logits.Length ==> logits[k] == if from <= k < i then Masked else old(logits[k])
    {
      logits[i] := Masked;
      i := i + 1;
    }
  }

  /** Masks single tokens that are never to be sampled, or not as the first. */
  method MaskSpecials(logits: array<Logit>, v: Vocab, p: Params, initial: bool)
    requires VocabOk(v) && logits.Length == v.size
    modifies logits
    ensures forall i :: 0 <= i < v.size ==> logits[i] == if Suppressed(v, p, initial, i) then Masked else old(logits[i])
  {
    if p.suppressBlank && initial {
      logits[v.eot] := Masked;
      logits[v.space] := Masked;
    }
    if p.noTimestamps {
      MaskRange(logits, v.beg, v.size);
    }
    if !p.tinydiarize {
      logits[v.solm] := Masked;
    }
    for k := 0 to |v.specials|
      invariant forall i ::
        0 <= i < v.size ==>
          logits[i] == if Early(v, p, initial, i) || i in v.specials[..k] then Masked else old(logits[i])
    {
      logits[v.specials[k]] := Masked;
    }
    assert v.specials[..|v.specials|] == v.specials;
  }

  predicate Early(v: Vocab, p: Params, initial: bool, i: nat) {
    || (p.suppressBlank && initial && (i == v.eot || i == v.space))
    || (p.noTimestamps && i >= v.beg)
    || (!p.tinydiarize && i == v.solm)
  }

  predicate Suppressed(v: Vocab, p: Params, initial: bool, i: nat) {
    Early(v, p, initial, i) || i in v.specials
  }

  /** The timestamp rules, which come after whatever a callback makes of the logits. */
  method MaskTimestamps(logits: array<Logit>, v: Vocab, p: Params, tokens: seq<int>, hasTs: bool, seekDelta: nat)
    requires VocabOk(v) && logits.Length == v.size
    requires hasTs ==> v.beg + seekDelta / 2 <= v.size
    modifies logits
    ensures forall i ::
      0 <= i < v.size ==>
        logits[i] == if Forbidden(v, tokens, hasTs, seekDelta, p.maxInitial, i) then Masked else old(logits[i])
  {
    var lastWas := |tokens| > 0 && tokens[|tokens| - 1] >= v.beg;
    var penultimateWas := |tokens| < 2 || tokens[|tokens| - 2] >= v.beg;
    if lastWas {
      if penultimateWas {
        MaskRange(logits, v.beg, v.size);
      } else {
        MaskRange(logits, 0, v.eot);
      }
    }
    if |tokens| == 0 && p.maxInitial >= 0 {
      MaskRange(logits, v.beg + p.maxInitial + 1, v.size);
    }
    if hasTs {
      MaskRange(logits, v.beg, v.beg + seekDelta / 2);
    }
  }

  /** All the masks in their order: single tokens, whatever the callback and the other filters make of
      the result, the timestamp rules, and everything but timestamps if those are likelier. */
  method ProcessLogits(raw: seq<Logit>, v: Vocab, p: Params, t: Track, filter: seq<Logit> -> seq<Logit>,
                       preferTimestamps: bool)
    returns (logits: array<Logit>)
    requires VocabOk(v) && |raw| == v.size && Running(t) && InTime(v, t)
    requires forall s :: |s| == v.size ==> |filter(s)| == v.size
    ensures logits.Length == v.size
    ensures
      forall i :: 0 <= i < v.size && logits[i] != Masked ==> Allowed(v, p, t, i) && (preferTimestamps ==> i >= v.beg)
    ensures forall i :: (0 <= i < v.size && Allowed(v, p, t, i) && (preferTimestamps ==> i >= v.beg)
      && Special(v, p, t, raw, filter)[i] != Masked) ==> logits[i] != Masked
  {
    hide Forbidden, Suppressed;
    StampInside(v, t.tokens);
    logits := new Logit[v.size](i requires 0 <= i < v.size => raw[i]);
    MaskSpecials(logits, v, p, t.tokens == []);
    ghost var masked := seq(v.size, i requires 0 <= i < v.size =>
      if Suppressed(v, p, t.tokens == [], i) then Masked else raw[i]);
    assert logits[..] == masked;
    var filtered := filter(logits[..]);
    assert filtered == Special(v, p, t, raw, filter);
    for i := 0 to v.size
      invariant forall k :: 0 <= k < i ==> logits[k] == filtered[k]
    {
      logits[i] := filtered[i];
    }
    MaskTimestamps(logits, v, p, t.tokens, t.hasTs, t.seekDelta);
    if preferTimestamps {
      MaskRange(logits, 0, v.beg);
    }
  }

  ghost function Special(v: Vocab, p: Params, t: Track, raw: seq<Logit>,
                         filter: seq<Logit> -> seq<Logit>): (s: seq<Logit>)
    requires |raw| == v.size && forall s :: |s| == v.size ==> |filter(s)| == v.size
    ensures |s| == v.size
  {
    filter(seq(v.size, i requires 0 <= i < v.size => if Suppressed(v, p, t.tokens == [], i) then Masked else raw[i]))
  }

  // ---------------------------------------------------------------------------------------------
  // What a decoder keeps along with its tokens

  datatype Track = Track(tokens: seq<int>, hasTs: bool, seekDelta: nat, resultLen: nat, failed: bool, completed: bool)

  const START := Track([], false, CHUNK, 0, false, false)

  predicate Running(t: Track) {
    !t.failed && !t.completed
  }

  predicate Allowed(v: Vocab, p: Params, t: Track, id: int) {
    0 <= id < v.size && !Forbidden(v, t.tokens, t.hasTs, t.seekDelta, p.maxInitial, id)
  }

  /** Ready to sample: the window and the result end at the last timestamp. */
  ghost predicate InTime(v: Vocab, t: Track) {
    TokensOk(v, t.tokens) && WellTimed(v, t.tokens) && Follows(v, t.tokens, t.hasTs, t.seekDelta, t.resultLen)
  }

  ghost predicate TokensOk(v: Vocab, tokens: seq<int>) {
    forall k :: 0 <= k < |tokens| ==> 0 <= tokens[k] < v.size
  }

  ghost predicate Follows(v: Vocab, tokens: seq<int>, hasTs: bool, seekDelta: int, resultLen: nat) {
    && hasTs == (Stamp(v, tokens) > v.beg)
    && seekDelta == (if hasTs then 2 * (Stamp(v, tokens) - v.beg) else CHUNK)
    && resultLen == ResultLen(v, tokens)
  }

  /** How many tokens there are up to the last timestamp. */
  function ResultLen(v: Vocab, tokens: seq<int>): (n: nat)
    ensures n <= |tokens|
    ensures n > 0 <==> Stamp(v, tokens) > v.beg
    ensures n > 0 ==> tokens[n - 1] == Stamp(v, tokens)
  {
    if tokens == [] then 0
    else if tokens[|tokens| - 1] > v.beg then |tokens|
    else ResultLen(v, tokens[..|tokens| - 1])
  }

  lemma {:induction false} StampInside(v: Vocab, tokens: seq<int>)
    requires TokensOk(v, tokens) && v.beg < v.size
    ensures Stamp(v, tokens) < v.size
    decreases |tokens|
  {
    if tokens != [] {
      StampInside(v, tokens[..|tokens| - 1]);
    }
  }
}
