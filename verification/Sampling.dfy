/** Sampling a token, and what that says of where the first segment starts. */
module Sampling {
  import opened Segments
  import opened Timestamps

  /** The first of the largest probabilities from an index on, or none if there is no positive one. */
  ghost predicate FirstLargest(probs: seq<real>, from: nat, k: int, none: int) {
    if forall i :: from <= i < |probs| ==> probs[i] <= 0.0 then k == none
    else
      && from <= k < |probs| && probs[k] > 0.0
      && forall i :: from <= i < |probs| ==> if i < k then probs[i] < probs[k] else probs[i] <= probs[k]
  }

  /** Searches from an index on; none is answered if no probability is positive. */
  method FindLargest(probs: seq<real>, from: nat, none: int) returns (k: int)
    requires from <= |probs|
    ensures FirstLargest(probs, from, k, none)
  {
    k := none;
    var largest := 0.0;
    for i := from to |probs|
      invariant largest >= 0.0 && (largest > 0.0 ==> from <= k < i && probs[k] == largest)
      invariant largest == 0.0 ==> k == none
      invariant forall j :: from <= j < i ==> if largest > 0.0 && j < k then probs[j] < largest else probs[j] <= largest
    {
      if largest < probs[i] {
        k, largest := i, probs[i];
      }
    }
  }

  /** Exactly the tokens left open have a positive probability. */
  ghost predicate ProbsOf(logits: seq<Logit>, probs: seq<real>) {
    |probs| == |logits| && forall i :: 0 <= i < |probs| ==> probs[i] >= 0.0 && (probs[i] > 0.0 <==> logits[i].Open?)
  }

  ghost predicate StampOpen(v: Vocab, logits: seq<Logit>) {
    exists i :: v.beg <= i < |logits| && logits[i].Open?
  }

  /** What greedy sampling makes of these logits, a token of positive probability. */
  ghost predicate Sampled(v: Vocab, logits: seq<Logit>, t: Token) {
    && 0 <= t.id < |logits| && logits[t.id].Open? && Timed(v, t)
    && exists probs :: ProbsOf(logits, probs) && (t.id < v.beg ==> FirstLargest(probs, v.beg, t.tid, 0))
  }

  /** One token, the likeliest or a drawn one. Text gets the likeliest timestamp, or 0 if there is none. */
  method SampleToken(v: Vocab, probs: seq<real>, best: bool, drawn: nat, ghost logits: seq<Logit>) returns (t: Token)
    requires VocabOk(v) && |probs| == v.size && (!best ==> drawn < v.size) && ProbsOf(logits, probs)
    ensures if best then FirstLargest(probs, 0, t.id, 0) else t.id == drawn
    ensures Timed(v, t) && (t.id < v.beg ==> FirstLargest(probs, v.beg, t.tid, 0))
    ensures (if best then exists i :: 0 <= i < v.size && logits[i].Open? else logits[drawn].Open?) ==>
      Sampled(v, logits, t)
  {
    var tid := FindLargest(probs, v.beg, 0);
    var id: int := drawn;
    if best {
      id := FindLargest(probs, 0, 0);
    }
    t := Token(id, if id >= v.beg then id else tid);
  }

  /** Tokens drawn for a beam search. Text gets the likeliest timestamp, or the first one if there is none. */
  method SampleTokens(v: Vocab, probs: seq<real>, drawn: seq<nat>) returns (ts: seq<Token>)
    requires VocabOk(v) && |probs| == v.size
    ensures |ts| == |drawn| && forall k :: 0 <= k < |ts| ==> ts[k].id == drawn[k] && Timed(v, ts[k])
    ensures forall k :: 0 <= k < |ts| && ts[k].id < v.beg ==> FirstLargest(probs, v.beg, ts[k].tid, v.beg)
  {
    var tid := FindLargest(probs, v.beg, v.beg);
    ts := [];
    for k := 0 to |drawn|
      invariant |ts| == k
      invariant forall j :: 0 <= j < k ==> ts[j] == Token(drawn[j], if drawn[j] >= v.beg then drawn[j] else tid)
    {
      ts := ts + [Token(drawn[k], if drawn[k] >= v.beg then drawn[k] else tid)];
    }
  }

  /** A token has a likeliest timestamp if and only if some timestamp was left open. */
  lemma {:induction false} StampKnown(v: Vocab, logits: seq<Logit>, t: Token)
    requires VocabOk(v) && |logits| == v.size && Sampled(v, logits, t)
    ensures t.tid >= v.beg <==> StampOpen(v, logits)
    ensures !StampOpen(v, logits) ==> t.tid == 0
  {
    var probs :| ProbsOf(logits, probs) && (t.id < v.beg ==> FirstLargest(probs, v.beg, t.tid, 0));
    if t.id < v.beg && StampOpen(v, logits) {
      var i :| v.beg <= i < |logits| && logits[i].Open?;
      assert probs[i] > 0.0;
    }
  }

  /** With greedy sampling all segments start in the window if and only if no text comes before the first timestamp
      that ends a segment, or some timestamp was open for the first token; otherwise the first one starts as far
      before the window as the timestamps have numbers. */
  lemma {:induction false} GreedyInside(c: Source, logits: seq<Logit>)
    requires SourceOk(c) && c.tokens != [] && |logits| == c.v.size && Sampled(c.v, logits, c.tokens[0])
    ensures Inside(c, SegmentsOf(c)) <==> TextFrom(c, 0, "") == "" || StampOpen(c.v, logits)
    ensures TextFrom(c, 0, "") != "" && !StampOpen(c.v, logits) ==>
      SegmentsOf(c) != [] && SegmentsOf(c)[0].t0 == c.seek - 2 * c.v.beg
  {
    hide Sampled, StampOpen, TokensTimed, Inside;
    StampKnown(c.v, logits, c.tokens[0]);
    InsideExact(c);
    var rest := FirstFrom(c, 0, "");
  }

  /** The masks close all timestamps for the first token if and only if timestamps are off. */
  lemma {:induction false} FirstStampsExact(v: Vocab, p: Params)
    requires VocabOk(v)
    ensures (forall i :: v.beg <= i < v.size ==> Suppressed(v, p, true, i) || !Allowed(v, p, START, i))
      <==> p.noTimestamps
  {
    if !p.noTimestamps {
      assert !Suppressed(v, p, true, v.beg) && Allowed(v, p, START, v.beg);
    }
  }
}
