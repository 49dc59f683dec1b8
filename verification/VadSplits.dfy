/** Where runs of speech are cut that get too long. */
module VadSplits {
  import opened VadSegments

  predicate IsSilent(probs: seq<real>, p: Params, w: nat)
    requires w < |probs|
  {
    probs[w] < NegThreshold(p)
  }

  predicate IsLoud(probs: seq<real>, p: Params, w: nat)
    requires w < |probs|
  {
    probs[w] >= p.threshold
  }

  ghost predicate LoudWithin(probs: seq<real>, p: Params, after: int, to: int) {
    exists u: nat :: after < u < to && u < |probs| && IsLoud(probs, p, u)
  }

  /** Of the windows from b on, e is the first silent one with no speech behind it up to window n. */
  ghost predicate Began(probs: seq<real>, p: Params, b: nat, n: nat, e: nat) {
    && b <= e < n <= |probs| && IsSilent(probs, p, e) && !LoudWithin(probs, p, e, n)
    && forall d: nat :: b <= d < e && IsSilent(probs, p, d) ==> LoudWithin(probs, p, d, n)
  }

  /** At window c the silence that began at e lasts for more than 98 ms. */
  ghost predicate LongSilence(probs: seq<real>, p: Params, b: nat, e: nat, c: nat) {
    c < |probs| && Began(probs, p, b, c + 1, e) && IsSilent(probs, p, c) && At(p, c) - At(p, e) > 1568
  }

  /** There is none of those among the windows from b to n. */
  ghost predicate NoLongSilence(probs: seq<real>, p: Params, b: nat, n: nat) {
    forall e: nat, c: nat :: c < n ==> !LongSilence(probs, p, b, e, c)
  }

  /** The latest of them began at e. */
  ghost predicate LatestLong(probs: seq<real>, p: Params, b: nat, n: nat, e: nat) {
    exists c: nat :: c < n && LongSilence(probs, p, b, e, c) && NoneAfter(probs, p, b, c, n)
  }

  ghost predicate NoneAfter(probs: seq<real>, p: Params, b: nat, c: nat, n: nat) {
    forall d: nat, k: nat :: c < k < n ==> !LongSilence(probs, p, b, d, k)
  }

  /** Speech was first back at window u. */
  ghost predicate FirstLoud(probs: seq<real>, p: Params, e: nat, n: nat, u: nat) {
    e <= u < n <= |probs| && IsLoud(probs, p, u) && !LoudWithin(probs, p, e, u)
  }

  /** The first window whose silence counts for the run that goes on at window n: the one after its first window, or
      the one at which the run before it was cut. */
  ghost function Base(probs: seq<real>, p: Params, n: nat): (b: nat)
    requires n <= |probs|
    ensures b <= n
  {
    if n == 0 then 0
    else
      var f := Whole(probs, p, n - 1);
      if Exceeds(f.track, At(p, n - 1), p) then n - 1
      else if f.track.run.Idle? then n else Base(probs, p, n - 1)
  }

  /** Where the silence began that lasts, or 0. */
  ghost predicate SilenceOk(probs: seq<real>, p: Params, b: nat, n: nat, silence: int) {
    if silence == 0 then forall e: nat :: !Began(probs, p, b, n, e)
    else exists e: nat :: Began(probs, p, b, n, e) && silence == At(p, e)
  }

  /** Where the latest longer silence began, and where speech was first back after it; 0 if there was none. */
  ghost predicate CutOk(probs: seq<real>, p: Params, b: nat, n: nat, cut: int, back: int) {
    if cut == 0 then back == 0 && NoLongSilence(probs, p, b, n)
    else exists e: nat :: CutAt(probs, p, b, n, e, cut, back)
  }

  ghost predicate CutAt(probs: seq<real>, p: Params, b: nat, n: nat, e: nat, cut: int, back: int) {
    && LatestLong(probs, p, b, n, e) && cut == At(p, e)
    && (if back < cut then !LoudWithin(probs, p, e, n) else BackLoud(probs, p, e, n, back))
  }

  ghost predicate BackLoud(probs: seq<real>, p: Params, e: nat, n: nat, back: int) {
    exists u: nat :: FirstLoud(probs, p, e, n, u) && back == At(p, u)
  }

  ghost predicate RunOk(f: Full, probs: seq<real>, p: Params, n: nat)
    requires n <= |probs|
  {
    f.track.run.Running? ==>
      && SpeechAt(probs, p, f.track.run.start) && 0 <= f.track.run.start < At(p, n) && 0 < Base(probs, p, n)
      && SilenceOk(probs, p, Base(probs, p, n), n, f.track.run.silence)
      && CutOk(probs, p, Base(probs, p, n), n, f.cut, f.back)
  }

  // ---------------------------------------------------------------------------------------------

  lemma {:induction false} BeganOnce(probs: seq<real>, p: Params, b: nat, n: nat, d: nat, e: nat)
    requires Began(probs, p, b, n, d) && Began(probs, p, b, n, e)
    ensures d == e
  {
  }

  /** One window more: silence goes on, begins, or is over. */
  lemma {:induction false} BeganStep(probs: seq<real>, p: Params, b: nat, n: nat, e: nat)
    requires b <= n < |probs|
    ensures e < n ==> (Began(probs, p, b, n + 1, e) <==> Began(probs, p, b, n, e) && !IsLoud(probs, p, n))
    ensures Began(probs, p, b, n + 1, n) <==>
      IsSilent(probs, p, n) && (IsLoud(probs, p, n) || forall d: nat :: !Began(probs, p, b, n, d))
  {
    forall d: nat | d < n
      ensures LoudWithin(probs, p, d, n + 1) <==> LoudWithin(probs, p, d, n) || IsLoud(probs, p, n)
    {
      if LoudWithin(probs, p, d, n + 1) {
        var u: nat :| d < u < n + 1 && u < |probs| && IsLoud(probs, p, u);
      }
      if LoudWithin(probs, p, d, n) {
        var u: nat :| d < u < n && u < |probs| && IsLoud(probs, p, u);
      }
    }
    assert !LoudWithin(probs, p, n, n + 1);
    if !IsLoud(probs, p, n) && IsSilent(probs, p, n) && (forall d: nat :: !Began(probs, p, b, n, d)) {
      forall d: nat | b <= d < n && IsSilent(probs, p, d) ensures LoudWithin(probs, p, d, n) {
        FirstBegan(probs, p, b, n, d);
      }
    }
  }

  /** If there is lasting silence, it began somewhere. */
  lemma {:induction false} FirstBegan(probs: seq<real>, p: Params, b: nat, n: nat, d: nat)
    requires b <= d < n <= |probs| && IsSilent(probs, p, d)
    ensures LoudWithin(probs, p, d, n) || exists e: nat :: Began(probs, p, b, n, e)
    decreases d
  {
    if !LoudWithin(probs, p, d, n) && !Began(probs, p, b, n, d) {
      var c: nat :| b <= c < d && IsSilent(probs, p, c) && !LoudWithin(probs, p, c, n);
      FirstBegan(probs, p, b, n, c);
    }
  }

  lemma {:induction false} SilenceStep(probs: seq<real>, p: Params, b: nat, n: nat, silence: int)
    requires 0 < b <= n < |probs| && p.window > 0 && SilenceOk(probs, p, b, n, silence)
    ensures SilenceOk(probs, p, b, n + 1, SilenceNow(probs, p, n, silence))
  {
    AtOrder(p, 0, n);
    hide At;
    if IsSilent(probs, p, n) && (IsLoud(probs, p, n) || silence == 0) {
      BeganStep(probs, p, b, n, n);
    } else if silence != 0 && !IsLoud(probs, p, n) {
      var e: nat :| Began(probs, p, b, n, e) && silence == At(p, e);
      BeganStep(probs, p, b, n, e);
    } else {
      var m := n + 1;
      forall e: nat ensures !Began(probs, p, b, m, e) {
        BeganStep(probs, p, b, n, e);
      }
    }
  }

  lemma {:induction false} LongNow(probs: seq<real>, p: Params, b: nat, n: nat, silence: int, e: nat)
    requires 0 < b <= n < |probs| && p.window > 0 && SilenceOk(probs, p, b, n, silence)
    ensures LongSilence(probs, p, b, e, n) <==>
      IsSilent(probs, p, n) && Began(probs, p, b, n + 1, e) && IsLonger(probs, p, n, silence)
  {
    SilenceStep(probs, p, b, n, silence);
    AtOrder(p, 0, n);
    hide At;
    if IsSilent(probs, p, n) && Began(probs, p, b, n + 1, e) {
      var d: nat :| Began(probs, p, b, n + 1, d) && SilenceNow(probs, p, n, silence) == At(p, d);
      BeganOnce(probs, p, b, n + 1, d, e);
    }
  }

  predicate IsLonger(probs: seq<real>, p: Params, n: nat, silence: int)
    requires n < |probs|
  {
    IsSilent(probs, p, n) && At(p, n) - SilenceNow(probs, p, n, silence) > MIN_SILENCE_AT_MAX
  }

  /** A longer silence is noted at window n. */
  lemma {:induction false} CutNoted(probs: seq<real>, p: Params, b: nat, n: nat, silence: int, cut: int, back: int)
    requires 0 < b <= n < |probs| && p.window > 0
    requires SilenceOk(probs, p, b, n, silence) && CutOk(probs, p, b, n, cut, back)
    requires IsLonger(probs, p, n, silence)
    ensures !IsLoud(probs, p, n)
    ensures CutOk(probs, p, b, n + 1, SilenceNow(probs, p, n, silence), back)
  {
    SilenceStep(probs, p, b, n, silence);
    AtOrder(p, 0, n);
    var now := SilenceNow(probs, p, n, silence);
    assert now != 0;
    var e: nat :| Began(probs, p, b, n + 1, e) && now == At(p, e);
    LongNow(probs, p, b, n, silence, e);
    assert NoneAfter(probs, p, b, n, n + 1);
    assert LatestLong(probs, p, b, n + 1, e);
    AtOrder(p, 0, e);
    if cut != 0 {
      var d: nat :| CutAt(probs, p, b, n, d, cut, back);
      NotEarlier(probs, p, b, n, d, e);
      BackBefore(probs, p, b, n, d, e, cut, back);
    }
    hide LatestLong;
    assert CutAt(probs, p, b, n + 1, e, now, back);
  }

  /** The lasting silence did not begin before the latest longer one. */
  lemma {:induction false} NotEarlier(probs: seq<real>, p: Params, b: nat, n: nat, d: nat, e: nat)
    requires LatestLong(probs, p, b, n, d) && Began(probs, p, b, n + 1, e)
    ensures d <= e
  {
    var c: nat :| c < n && LongSilence(probs, p, b, d, c) && NoneAfter(probs, p, b, c, n);
    assert e < d ==> LoudWithin(probs, p, e, c + 1);
  }

  lemma {:induction false} BackBefore(probs: seq<real>, p: Params, b: nat, n: nat, d: nat, e: nat, cut: int, back: int)
    requires CutAt(probs, p, b, n, d, cut, back) && Began(probs, p, b, n + 1, e) && d <= e && p.window > 0
    ensures if back < At(p, e) then !LoudWithin(probs, p, e, n + 1) else BackLoud(probs, p, e, n + 1, back)
  {
    if d < e {
      AtOrder(p, d, e);
    }
    if back >= cut {
      var u: nat :| FirstLoud(probs, p, d, n, u) && back == At(p, u);
      assert u > e ==> LoudWithin(probs, p, e, n + 1);
      if u < e {
        AtOrder(p, u, e);
      } else if u == e {
        assert !LoudWithin(probs, p, e, e);
        assert FirstLoud(probs, p, e, n + 1, e);
      }
    }
  }

  /** No longer silence is noted at window n, but speech may be back. */
  lemma {:induction false} CutStays(probs: seq<real>, p: Params, b: nat, n: nat, silence: int, cut: int, back: int)
    requires 0 < b <= n < |probs| && p.window > 0
    requires SilenceOk(probs, p, b, n, silence) && CutOk(probs, p, b, n, cut, back)
    requires !IsLonger(probs, p, n, silence)
    ensures CutOk(probs, p, b, n + 1, cut, BackNow(probs, p, n, silence, cut, back))
  {
    forall e: nat ensures !LongSilence(probs, p, b, e, n) {
      LongNow(probs, p, b, n, silence, e);
    }
    hide LongSilence;
    if cut != 0 {
      var e: nat :| CutAt(probs, p, b, n, e, cut, back);
      var c: nat :| c < n && LongSilence(probs, p, b, e, c) && NoneAfter(probs, p, b, c, n);
      assert NoneAfter(probs, p, b, c, n + 1);
      assert LatestLong(probs, p, b, n + 1, e);
      LongBegan(probs, p, b, e, c);
      BackStays(probs, p, b, n, e, silence, cut, back);
      assert CutAt(probs, p, b, n + 1, e, cut, BackNow(probs, p, n, silence, cut, back));
    } else {
      forall e: nat, c: nat | c < n + 1 ensures !LongSilence(probs, p, b, e, c) {
        assert c < n ==> !LongSilence(probs, p, b, e, c);
      }
    }
  }

  function BackNow(probs: seq<real>, p: Params, n: nat, silence: int, cut: int, back: int): int
    requires n < |probs|
  {
    if IsLoud(probs, p, n) && silence != 0 && back < cut then At(p, n) else back
  }

  lemma {:induction false} LongBegan(probs: seq<real>, p: Params, b: nat, e: nat, c: nat)
    requires LongSilence(probs, p, b, e, c)
    ensures b <= e <= c && e < |probs| && IsSilent(probs, p, e)
  {
  }

  lemma {:induction false} BackStays(probs: seq<real>, p: Params, b: nat, n: nat, e: nat, silence: int, cut: int,
                                     back: int)
    requires b <= e < n < |probs| && p.window > 0 && IsSilent(probs, p, e) && cut == At(p, e)
    requires SilenceOk(probs, p, b, n, silence)
    requires if back < cut then !LoudWithin(probs, p, e, n) else BackLoud(probs, p, e, n, back)
    ensures var now := BackNow(probs, p, n, silence, cut, back);
      if now < cut then !LoudWithin(probs, p, e, n + 1) else BackLoud(probs, p, e, n + 1, now)
  {
    AtOrder(p, e, n);
    if back >= cut {
      var u: nat :| FirstLoud(probs, p, e, n, u) && back == At(p, u);
      assert FirstLoud(probs, p, e, n + 1, u);
    } else {
      FirstBegan(probs, p, b, n, e);
      if IsLoud(probs, p, n) {
        assert FirstLoud(probs, p, e, n + 1, n);
      }
    }
  }

  /** The silence noted after window n. */
  function SilenceNow(probs: seq<real>, p: Params, n: nat, silence: int): int
    requires n < |probs|
  {
    var noted := if IsLoud(probs, p, n) then 0 else silence;
    if IsSilent(probs, p, n) && noted == 0 then At(p, n) else noted
  }

  // ---------------------------------------------------------------------------------------------
  // Every run, and every segment

  lemma {:induction false} BaseNext(probs: seq<real>, p: Params, n: nat)
    requires n < |probs|
    ensures var f := Whole(probs, p, n);
      Base(probs, p, n + 1) == if Exceeds(f.track, At(p, n), p) then n
                               else if f.track.run.Idle? then n + 1 else Base(probs, p, n)
  {
  }

  /** A run that starts at window n, or goes on there after the one before it was cut. */
  lemma {:induction false} NothingNoted(probs: seq<real>, p: Params, n: nat)
    requires n < |probs| && p.window > 0
    ensures SilenceOk(probs, p, n, n, 0) && SilenceOk(probs, p, n + 1, n + 1, 0)
    ensures CutOk(probs, p, n, n, 0, 0) && CutOk(probs, p, n + 1, n + 1, 0, 0)
  {
  }

  /** One window of a run that goes on. */
  lemma {:induction false} NotedStep(f: Full, probs: seq<real>, p: Params, n: nat, b: nat)
    requires 0 < b <= n < |probs| && p.window > 0 && f.track.run.Running? && !Exceeds(f.track, At(p, n), p)
    requires SilenceOk(probs, p, b, n, f.track.run.silence) && CutOk(probs, p, b, n, f.cut, f.back)
    ensures var g := NextFull(f, probs[n], At(p, n), p);
      g.track.run.Running? ==>
        && g.track.run.start == f.track.run.start
        && SilenceOk(probs, p, b, n + 1, g.track.run.silence) && CutOk(probs, p, b, n + 1, g.cut, g.back)
  {
    var run := f.track.run;
    SilenceStep(probs, p, b, n, run.silence);
    AtOrder(p, 0, n);
    if IsLonger(probs, p, n, run.silence) {
      CutNoted(probs, p, b, n, run.silence, f.cut, f.back);
    } else {
      CutStays(probs, p, b, n, run.silence, f.cut, f.back);
    }
    hide SilenceOk, CutOk, At;
  }

  /** One window of a run that is cut there. */
  lemma {:induction false} SplitStep(f: Full, probs: seq<real>, p: Params, n: nat)
    requires n < |probs| && p.window > 0 && RunOk(f, probs, p, n) && f.track.run.Running? && n > 0
    requires Exceeds(f.track, At(p, n), p) && Base(probs, p, n + 1) == n
    ensures RunOk(NextFull(f, probs[n], At(p, n), p), probs, p, n + 1)
  {
    var back := BackAt(f, probs[n], At(p, n), p);
    var g := NextFull(f, probs[n], At(p, n), p);
    AtNext(p, n);
    AtOrder(p, 0, n);
    NothingNoted(probs, p, n);
    if g.track.run.Running? {
      SilenceStep(probs, p, n, n, 0);
      CutStays(probs, p, n, n, 0, 0, 0);
      BackSpeech(f, probs, p, n);
      hide SilenceOk, CutOk, SpeechAt, At;
    }
  }

  /** Where speech is back there is a window of speech. */
  lemma {:induction false} BackSpeech(f: Full, probs: seq<real>, p: Params, n: nat)
    requires n < |probs| && p.window > 0 && RunOk(f, probs, p, n) && f.track.run.Running? && f.cut != 0
    requires BackAt(f, probs[n], At(p, n), p) >= f.cut
    ensures var back := BackAt(f, probs[n], At(p, n), p); SpeechAt(probs, p, back) && 0 <= back <= At(p, n)
  {
    var b := Base(probs, p, n);
    var e: nat :| CutAt(probs, p, b, n, e, f.cut, f.back);
    if f.back >= f.cut {
      var u: nat :| FirstLoud(probs, p, e, n, u) && f.back == At(p, u);
      AtOrder(p, u, n);
    }
  }

  lemma {:induction false} RunOkStep(probs: seq<real>, p: Params, n: nat)
    requires n < |probs| && p.window > 0 && RunOk(Whole(probs, p, n), probs, p, n)
    ensures RunOk(Whole(probs, p, n + 1), probs, p, n + 1)
  {
    var f := Whole(probs, p, n);
    BaseNext(probs, p, n);
    AtNext(p, n);
    if f.track.run.Idle? {
      NothingNoted(probs, p, n);
      hide SilenceOk, CutOk, Base, At;
    } else if Exceeds(f.track, At(p, n), p) {
      NoneBefore(p, n);
      SplitStep(f, probs, p, n);
    } else {
      NotedStep(f, probs, p, n, Base(probs, p, n));
      hide SilenceOk, CutOk, Base, At;
    }
  }

  lemma {:induction false} NoneBefore(p: Params, n: nat)
    ensures At(p, n) > 0 ==> n > 0
  {
  }

  /** What is noted of the run at every window, in terms of the windows heard. */
  lemma {:induction false} WholeNoted(probs: seq<real>, p: Params, n: nat)
    requires n <= |probs| && p.window > 0
    ensures RunOk(Whole(probs, p, n), probs, p, n)
  {
    if n > 0 {
      WholeNoted(probs, p, n - 1);
      RunOkStep(probs, p, n - 1);
    }
  }

  /** Window n is too much for the run: it is cut where its latest longer silence began, or here if there is none. */
  ghost predicate CutHere(probs: seq<real>, p: Params, n: nat, s: Speech) {
    && n < |probs| && Whole(probs, p, n).track.run.Running? && s.start == Whole(probs, p, n).track.run.start
    && At(p, n) - s.start > p.maxSpeech && CutPoint(probs, p, Base(probs, p, n), n, s.end)
  }

  ghost predicate CutPoint(probs: seq<real>, p: Params, b: nat, n: nat, end: int) {
    if NoLongSilence(probs, p, b, n) then end == At(p, n)
    else exists e: nat :: LatestLong(probs, p, b, n, e) && end == At(p, e)
  }

  /** At window n the silence that began at the end of the segment is long enough. */
  ghost predicate EndsHere(probs: seq<real>, p: Params, n: nat, s: Speech) {
    && n < |probs| && Whole(probs, p, n).track.run.Running? && s.start == Whole(probs, p, n).track.run.start
    && At(p, n) - s.start <= p.maxSpeech && IsSilent(probs, p, n) && At(p, n) - s.end >= p.minSilence
    && exists e: nat :: Began(probs, p, Base(probs, p, n), n + 1, e) && s.end == At(p, e)
  }

  /** With no silence asked for, what goes on after a cut can end at once. */
  ghost predicate EndsAtCut(probs: seq<real>, p: Params, n: nat, s: Speech) {
    && n < |probs| && Exceeds(Whole(probs, p, n).track, At(p, n), p) && SpeechAt(probs, p, s.start)
    && p.minSilence == 0 && IsSilent(probs, p, n) && s.end == At(p, n)
  }

  /** The run lasts to the end of the audio. */
  ghost predicate EndsWithAudio(probs: seq<real>, p: Params, s: Speech) {
    && Whole(probs, p, |probs|).track.run.Running? && s.start == Whole(probs, p, |probs|).track.run.start
    && s.end == At(p, |probs|)
  }

  ghost predicate Made(probs: seq<real>, p: Params, n: nat, s: Speech) {
    || CutHere(probs, p, n, s)
    || (s.end - s.start > p.minSpeech && (EndsHere(probs, p, n, s) || EndsAtCut(probs, p, n, s)))
  }

  ghost predicate AllMade(probs: seq<real>, p: Params, n: nat, speeches: seq<Speech>) {
    forall k :: 0 <= k < |speeches| ==> MadeBefore(probs, p, n, speeches[k])
  }

  ghost predicate MadeBefore(probs: seq<real>, p: Params, n: nat, s: Speech) {
    exists m: nat :: m < n && Made(probs, p, m, s)
  }

  /** What window n adds to the segments. */
  ghost predicate Added(probs: seq<real>, p: Params, n: nat, before: seq<Speech>, now: seq<Speech>) {
    && |before| <= |now| && now[..|before|] == before
    && (forall k :: |before| <= k < |now| ==> Made(probs, p, n, now[k]))
  }

  lemma {:induction false} CutIsPoint(probs: seq<real>, p: Params, n: nat)
    requires n < |probs| && p.window > 0 && Whole(probs, p, n).track.run.Running?
    ensures var f := Whole(probs, p, n);
      CutPoint(probs, p, Base(probs, p, n), n, if f.cut == 0 then At(p, n) else f.cut)
  {
    WholeNoted(probs, p, n);
    var f, b := Whole(probs, p, n), Base(probs, p, n);
    if f.cut != 0 {
      var e: nat :| CutAt(probs, p, b, n, e, f.cut, f.back);
      var c: nat :| c < n && LongSilence(probs, p, b, e, c) && NoneAfter(probs, p, b, c, n);
      assert !NoLongSilence(probs, p, b, n);
    }
  }

  lemma {:induction false} AddedAtCut(probs: seq<real>, p: Params, n: nat)
    requires n < |probs| && p.window > 0 && Exceeds(Whole(probs, p, n).track, At(p, n), p)
    ensures Added(probs, p, n, Whole(probs, p, n).track.speeches, Whole(probs, p, n + 1).track.speeches)
    ensures |Whole(probs, p, n + 1).track.speeches| > |Whole(probs, p, n).track.speeches|
      && CutHere(probs, p, n, Whole(probs, p, n + 1).track.speeches[|Whole(probs, p, n).track.speeches|])
  {
    WholeNoted(probs, p, n);
    CutIsPoint(probs, p, n);
    var f := Whole(probs, p, n);
    var back := BackAt(f, probs[n], At(p, n), p);
    var t := SplitAt(f.track, f.cut, back, At(p, n));
    var first := t.speeches[|f.track.speeches|];
    assert CutHere(probs, p, n, first);
    if t.run.Running? {
      BackSpeech(f, probs, p, n);
    }
    hide CutHere, SpeechAt, Base;
    var g := Next(t, probs[n], At(p, n), p);
    if t.run.Running? && |g.speeches| > |t.speeches| {
      assert EndsAtCut(probs, p, n, g.speeches[|t.speeches|]);
    }
  }

  lemma {:induction false} AddedElse(probs: seq<real>, p: Params, n: nat)
    requires n < |probs| && p.window > 0 && !Exceeds(Whole(probs, p, n).track, At(p, n), p)
    ensures Added(probs, p, n, Whole(probs, p, n).track.speeches, Whole(probs, p, n + 1).track.speeches)
  {
    WholeNoted(probs, p, n);
    var f, b := Whole(probs, p, n), Base(probs, p, n);
    NextUncut(f, probs[n], At(p, n), p);
    var g := Next(f.track, probs[n], At(p, n), p);
    if |g.speeches| > |f.track.speeches| {
      SilenceStep(probs, p, b, n, f.track.run.silence);
      AtOrder(p, 0, n);
      var s := g.speeches[|f.track.speeches|];
      assert s.end == SilenceNow(probs, p, n, f.track.run.silence);
      assert EndsHere(probs, p, n, s);
    }
  }

  lemma {:induction false} MadeMore(probs: seq<real>, p: Params, n: nat, before: seq<Speech>, now: seq<Speech>)
    requires AllMade(probs, p, n, before) && Added(probs, p, n, before, now)
    ensures AllMade(probs, p, n + 1, now)
  {
    hide Made;
    forall k | 0 <= k < |now| ensures MadeBefore(probs, p, n + 1, now[k]) {
      if k < |before| {
        assert now[k] == now[..|before|][k] == before[k];
        var m: nat :| m < n && Made(probs, p, m, before[k]);
        assert Made(probs, p, m, now[k]);
      } else {
        assert Made(probs, p, n, now[k]);
      }
    }
  }

  lemma {:induction false} WholeMade(probs: seq<real>, p: Params, n: nat)
    requires n <= |probs| && p.window > 0
    ensures AllMade(probs, p, n, Whole(probs, p, n).track.speeches)
  {
    if n > 0 {
      WholeMade(probs, p, n - 1);
      if Exceeds(Whole(probs, p, n - 1).track, At(p, n - 1), p) {
        AddedAtCut(probs, p, n - 1);
      } else {
        AddedElse(probs, p, n - 1);
      }
      MadeMore(probs, p, n - 1, Whole(probs, p, n - 1).track.speeches, Whole(probs, p, n).track.speeches);
    }
  }

  lemma {:induction false} StillThere(probs: seq<real>, p: Params, m: nat, n: nat)
    requires m <= n <= |probs| && p.window > 0
    ensures Whole(probs, p, m).track.speeches <= Whole(probs, p, n).track.speeches
    decreases n
  {
    if m < n {
      StillThere(probs, p, m, n - 1);
      if Exceeds(Whole(probs, p, n - 1).track, At(p, n - 1), p) {
        AddedAtCut(probs, p, n - 1);
      } else {
        AddedElse(probs, p, n - 1);
      }
      hide Whole;
    }
  }

  /** Every segment found is a run cut where its latest longer silence began, or where it got too long; or it ends where
      the silence began that was long enough, or with the audio. And wherever a run gets too long it is cut so. */
  lemma {:induction false} CutsExact(probs: seq<real>, p: Params)
    requires p.window > 0
    ensures forall s :: s in WholeAll(probs, p).speeches ==>
      (exists n: nat :: Made(probs, p, n, s)) || (s.end - s.start > p.minSpeech && EndsWithAudio(probs, p, s))
    ensures forall n: nat :: n < |probs| && Exceeds(Whole(probs, p, n).track, At(p, n), p) ==>
      exists s :: s in WholeAll(probs, p).speeches && CutHere(probs, p, n, s)
  {
    WholeMade(probs, p, |probs|);
    hide Made, CutHere;
    var found := Whole(probs, p, |probs|).track.speeches;
    assert found <= WholeAll(probs, p).speeches;
    forall s | s in WholeAll(probs, p).speeches
      ensures (exists n: nat :: Made(probs, p, n, s)) || (s.end - s.start > p.minSpeech && EndsWithAudio(probs, p, s))
    {
      var k :| 0 <= k < |WholeAll(probs, p).speeches| && WholeAll(probs, p).speeches[k] == s;
      if k < |found| {
        assert found[k] == s;
      }
    }
    forall n: nat | n < |probs| && Exceeds(Whole(probs, p, n).track, At(p, n), p)
      ensures exists s :: s in WholeAll(probs, p).speeches && CutHere(probs, p, n, s)
    {
      AddedAtCut(probs, p, n);
      StillThere(probs, p, n + 1, |probs|);
      var k := |Whole(probs, p, n).track.speeches|;
      var s := Whole(probs, p, n + 1).track.speeches[k];
      assert WholeAll(probs, p).speeches[k] == s;
    }
  }
}
