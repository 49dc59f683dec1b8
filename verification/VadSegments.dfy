/** Speech segments from the voice activity of consecutive windows. */
module VadSegments {
  import Arith

  datatype Speech = Speech(start: int, end: int)

  /** The lengths are numbers of samples, at 16000 a second. */
  datatype Params = Params(threshold: real, window: nat, minSpeech: nat, minSilence: nat, maxSpeech: nat, pad: nat)

  const MIN_SILENCE_AT_MAX: nat := 1568    // 98 ms
  const MERGE_GAP: nat := 3200             // 200 ms

  /** Below this a window is silence; it lies above the threshold of speech when that is below 0.01. */
  function NegThreshold(p: Params): (t: real)
    ensures t <= p.threshold <==> p.threshold >= 0.01
  {
    if p.threshold - 0.15 < 0.01 then 0.01 else p.threshold - 0.15
  }

  /** The first sample of window w. */
  function At(p: Params, w: nat): (s: nat) {
    Arith.MulMono(p.window, 0, w);
    p.window * w
  }

  lemma {:induction false} AtNext(p: Params, w: nat)
    ensures At(p, w + 1) == At(p, w) + p.window
  {
    Arith.MulDistribute(p.window, w, 1);
  }

  lemma {:induction false} AtOrder(p: Params, v: nat, w: nat)
    requires p.window > 0
    ensures v < w <==> At(p, v) < At(p, w)
  {
    if v < w {
      Arith.MulMono(p.window, v + 1, w);
      AtNext(p, v);
    } else {
      Arith.MulMono(p.window, w, v);
    }
  }

  /** One after another without overlap, from 0 to the bound. */
  ghost predicate InOrder(speeches: seq<Speech>, bound: int) {
    && (forall k :: 0 <= k < |speeches| ==> 0 <= speeches[k].start <= speeches[k].end <= bound)
    && (forall k :: 0 <= k < |speeches| - 1 ==> speeches[k].end <= speeches[k + 1].start)
  }

  ghost predicate Inside(speeches: seq<Speech>, s: int) {
    exists k :: 0 <= k < |speeches| && speeches[k].start <= s < speeches[k].end
  }

  ghost predicate LongEnough(speeches: seq<Speech>, p: Params) {
    forall k :: 0 <= k < |speeches| ==> speeches[k].end - speeches[k].start > p.minSpeech
  }

  // ---------------------------------------------------------------------------------------------
  // Scanning the windows

  datatype Scan = Scan(speeches: seq<Speech>, inSpeech: bool, start: int, tempEnd: int, prevEnd: int, nextStart: int,
                       split: bool,              // whether the maximum duration was ever exceeded
                       dropped: seq<Speech>)     // runs that were too short

  ghost predicate ScanOk(st: Scan, cur: int) {
    && InOrder(st.speeches, if st.inSpeech then st.start else cur)
    && (if st.inSpeech then
          && 0 <= st.start < cur && (st.tempEnd == 0 || st.start <= st.tempEnd < cur)
          && (st.prevEnd == 0 || st.start <= st.prevEnd < cur) && (st.nextStart == 0 || st.start <= st.nextStart < cur)
        else st.tempEnd == st.prevEnd == st.nextStart == 0)
  }

  /** All windows from sample `from` up to window n are below the threshold. */
  ghost predicate Quiet(probs: seq<real>, p: Params, from: int, n: nat) {
    n <= |probs| && forall w: nat :: w < n && At(p, w) >= from ==> probs[w] < p.threshold
  }

  /** A run of speech: it starts with a window of speech, is not broken by a long silence, and has one, or the
      end, behind it. */
  ghost predicate IsRun(probs: seq<real>, p: Params, r: Speech) {
    && SpeechAt(probs, p, r.start) && Unbroken(probs, p, r.start, r.end)
    && (r.end == At(p, |probs|) || exists k: nat :: SilenceTo(probs, p, r.end, k))
  }

  ghost predicate SpeechAt(probs: seq<real>, p: Params, s: int) {
    exists w: nat :: w < |probs| && At(p, w) == s && probs[w] >= p.threshold
  }

  /** After every window of silence speech is back before the silence is long enough. */
  ghost predicate Unbroken(probs: seq<real>, p: Params, start: int, end: int) {
    forall v: nat, k: nat :: v <= k < |probs| && Breaks(probs, p, start, end, v, k) ==> SpeechBetween(probs, p, v, k)
  }

  ghost predicate Breaks(probs: seq<real>, p: Params, start: int, end: int, v: nat, k: nat)
    requires v <= k < |probs|
  {
    start <= At(p, v) && At(p, k) < end && probs[v] < NegThreshold(p) && probs[k] < NegThreshold(p)
      && At(p, k) - At(p, v) >= p.minSilence
  }

  ghost predicate SpeechBetween(probs: seq<real>, p: Params, v: nat, k: nat)
    requires k < |probs|
  {
    exists u: nat :: v <= u <= k && probs[u] >= p.threshold
  }

  ghost predicate AreRuns(speeches: seq<Speech>, probs: seq<real>, p: Params) {
    forall k :: 0 <= k < |speeches| ==> IsRun(probs, p, speeches[k])
  }

  ghost predicate SilenceTo(probs: seq<real>, p: Params, from: int, k: nat) {
    k < |probs| && At(p, k) - from >= p.minSilence && probs[k] < NegThreshold(p) && Quiet(probs, p, from, k + 1)
  }

  /** The silence noted is the first since speech was last there. */
  ghost predicate Counting(run: Run, probs: seq<real>, p: Params, n: nat)
    requires run.Running?
  {
    n <= |probs| && forall v: nat :: v < n && Pending(run, probs, p, v) ==> SpeechAfter(probs, p, v, n)
  }

  ghost predicate Pending(run: Run, probs: seq<real>, p: Params, v: nat)
    requires v < |probs| && run.Running?
  {
    run.start <= At(p, v) && (run.silence == 0 || At(p, v) < run.silence) && probs[v] < NegThreshold(p)
  }

  ghost predicate SpeechAfter(probs: seq<real>, p: Params, v: nat, n: nat)
    requires n <= |probs|
  {
    exists u: nat :: v <= u < n && probs[u] >= p.threshold
  }

  lemma {:induction false} AddSpeech(speeches: seq<Speech>, s: Speech, bound: int)
    requires InOrder(speeches, s.start) && 0 <= s.start <= s.end <= bound
    ensures InOrder(speeches + [s], bound)
  {
  }

  lemma {:induction false} InsideMore(speeches: seq<Speech>, r: Speech, s: int)
    ensures Inside(speeches + [r], s) <==> Inside(speeches, s) || r.start <= s < r.end
  {
    var all := speeches + [r];
    if Inside(speeches, s) {
      var k :| 0 <= k < |speeches| && speeches[k].start <= s < speeches[k].end;
      assert all[k] == speeches[k];
    }
    if r.start <= s < r.end {
      assert all[|speeches|] == r;
    }
  }

  // What the scan does as long as no segment gets too long

  /** The run of speech the scan is in; silence is where silence was last noted, or 0. */
  datatype Run = Idle | Running(start: int, silence: int)

  datatype Track = Track(speeches: seq<Speech>, dropped: seq<Speech>, run: Run)

  function TrackOf(st: Scan): Track {
    Track(st.speeches, st.dropped, if st.inSpeech then Running(st.start, st.tempEnd) else Idle)
  }

  function Ended(t: Track, start: int, end: int, p: Params): Track {
    if end - start > p.minSpeech then Track(t.speeches + [Speech(start, end)], t.dropped, Idle)
    else Track(t.speeches, t.dropped + [Speech(start, end)], Idle)
  }

  /** One window: speech starts a run or forgets the silence noted; silence, which a window of speech can be as
      well, is noted, and ends the run once it is long enough. */
  function Next(t: Track, prob: real, cur: int, p: Params): Track {
    match t.run
    case Idle => if prob >= p.threshold then t.(run := Running(cur, 0)) else t
    case Running(start, noted) =>
      var silence := if prob >= p.threshold then 0 else noted;
      if prob >= NegThreshold(p) then t.(run := Running(start, silence))
      else
        var end := if silence != 0 then silence else cur;
        if cur - end < p.minSilence then t.(run := Running(start, end)) else Ended(t, start, end, p)
  }

  predicate Exceeds(t: Track, cur: int, p: Params) {
    t.run.Running? && cur - t.run.start > p.maxSpeech
  }

  /** The track after n windows. */
  ghost function Heard(probs: seq<real>, p: Params, n: nat): Track
    requires n <= |probs|
  {
    if n == 0 then Track([], [], Idle) else Next(Heard(probs, p, n - 1), probs[n - 1], At(p, n - 1), p)
  }

  /** The same with runs that get too long cut. */
  ghost function Whole(probs: seq<real>, p: Params, n: nat): Full
    requires n <= |probs|
  {
    if n == 0 then Full(Track([], [], Idle), 0, 0)
    else NextFull(Whole(probs, p, n - 1), probs[n - 1], At(p, n - 1), p)
  }

  ghost function WholeAll(probs: seq<real>, p: Params): Track {
    var t := Whole(probs, p, |probs|).track;
    if t.run.Running? then Ended(t, t.run.start, At(p, |probs|), p) else t
  }

  /** The maximum duration is exceeded at one of the first n windows. */
  ghost predicate Overlong(probs: seq<real>, p: Params, n: nat)
    requires n <= |probs|
  {
    exists k :: 0 <= k < n && Exceeds(Heard(probs, p, k), At(p, k), p)
  }

  /** The track at the end of the audio. */
  ghost function HeardAll(probs: seq<real>, p: Params): Track {
    var t := Heard(probs, p, |probs|);
    if t.run.Running? then Ended(t, t.run.start, At(p, |probs|), p) else t
  }

  /** ScanOk once the window at cur may itself have been noted. */
  ghost predicate MidOk(st: Scan, cur: int) {
    && InOrder(st.speeches, if st.inSpeech then st.start else cur)
    && (if st.inSpeech then
          && 0 <= st.start <= cur && (st.tempEnd == 0 || st.start <= st.tempEnd < cur)
          && (st.prevEnd == 0 || st.start <= st.prevEnd < cur) && (st.nextStart == 0 || st.start <= st.nextStart <= cur)
        else st.tempEnd == st.prevEnd == st.nextStart == 0)
  }

  /** A segment that has grown too long is cut at its latest longer silence, or right here; tells whether
      that is all for this window. */
  method SplitLong(st0: Scan, cur: int) returns (st: Scan, done: bool)
    requires MidOk(st0, cur) && st0.inSpeech && st0.start < cur
    ensures MidOk(st, cur) && st.split && done == (st0.prevEnd == 0) && st.dropped == st0.dropped
    ensures st.speeches == st0.speeches + [Speech(st0.start, if done then cur else st0.prevEnd)]
      && st.tempEnd == st.prevEnd == st.nextStart == 0
    ensures st.inSpeech == (!done && st0.nextStart >= st0.prevEnd) && (st.inSpeech ==> st.start == st0.nextStart)
  {
    done := st0.prevEnd == 0;
    var cut := if done then cur else st0.prevEnd;
    st := st0.(speeches := st0.speeches + [Speech(st0.start, cut)], split := true, prevEnd := 0, nextStart := 0,
               tempEnd := 0);
    if done || st0.nextStart < st0.prevEnd {
      AddSpeech(st0.speeches, Speech(st0.start, cut), cur);
      st := st.(inSpeech := false);
    } else {
      AddSpeech(st0.speeches, Speech(st0.start, cut), st0.nextStart);
      st := st.(start := st0.nextStart);
    }
  }

  /** Silence in a segment: it ends where the silence began once that is long enough. */
  method InSilence(st0: Scan, cur: int, p: Params) returns (st: Scan)
    requires MidOk(st0, cur) && st0.inSpeech && cur > 0
    ensures ScanOk(st, cur + 1) && st.split == st0.split
    ensures var end := if st0.tempEnd != 0 then st0.tempEnd else cur;
      TrackOf(st) == if cur - end < p.minSilence then TrackOf(st0).(run := Running(st0.start, end))
                     else Ended(TrackOf(st0), st0.start, end, p)
    ensures st.inSpeech <==> cur - (if st0.tempEnd != 0 then st0.tempEnd else cur) < p.minSilence
    ensures st.inSpeech ==>
      var end := if st0.tempEnd != 0 then st0.tempEnd else cur;
      st.prevEnd == (if cur - end > MIN_SILENCE_AT_MAX then end else st0.prevEnd) && st.nextStart == st0.nextStart
  {
    st := st0;
    if st.tempEnd == 0 {
      st := st.(tempEnd := cur);
    }
    if cur - st.tempEnd > MIN_SILENCE_AT_MAX {
      st := st.(prevEnd := st.tempEnd);
    }
    if cur - st.tempEnd < p.minSilence {
      return;
    }
    if st.tempEnd - st.start > p.minSpeech {
      AddSpeech(st.speeches, Speech(st.start, st.tempEnd), cur + 1);
      st := st.(speeches := st.speeches + [Speech(st.start, st.tempEnd)]);
    } else {
      st := st.(dropped := st.dropped + [Speech(st.start, st.tempEnd)]);
    }
    st := st.(prevEnd := 0, nextStart := 0, tempEnd := 0, inSpeech := false);
  }

  /** Speech again: the silence noted so far does not count. */
  function Resumed(st: Scan, prob: real, cur: int, p: Params): Scan {
    if prob >= p.threshold && st.tempEnd != 0 then
      st.(tempEnd := 0, nextStart := if st.nextStart < st.prevEnd then cur else st.nextStart)
    else st
  }

  /** The track, and what is noted for cutting a run that gets too long: where its latest longer silence began, and
      where speech was back after one. */
  datatype Full = Full(track: Track, cut: int, back: int)

  function FullOf(st: Scan): Full {
    Full(TrackOf(st), st.prevEnd, st.nextStart)
  }

  /** Where speech is back: here, if it was not yet since the longer silence. */
  function BackAt(f: Full, prob: real, cur: int, p: Params): int {
    if prob >= p.threshold && f.track.run.Running? && f.track.run.silence != 0 && f.back < f.cut then cur else f.back
  }

  /** The track once a segment that got too long is cut: at its latest longer silence, with the speech after it
      as the next run, or, if there was no such silence, here. */
  function SplitAt(t: Track, cut: int, back: int, cur: int): Track
    requires t.run.Running?
  {
    Track(t.speeches + [Speech(t.run.start, if cut == 0 then cur else cut)], t.dropped,
          if cut != 0 && back >= cut then Running(back, 0) else Idle)
  }

  /** One window of a run that was not cut, or of what is left of one; or nothing if there is none. */
  function AfterWindow(f: Full, prob: real, cur: int, p: Params): Full {
    if f.track.run.Idle? then Full(f.track, 0, 0)
    else
      var track := Next(f.track, prob, cur, p);
      if track.run.Idle? then Full(track, 0, 0)
      else
        var noted := prob < NegThreshold(p) && cur - track.run.silence > MIN_SILENCE_AT_MAX;
        Full(track, if noted then track.run.silence else f.cut, f.back)
  }

  /** One window, also if a run got too long. The window that was too much starts no run, but counts for the run that
      goes on. */
  function NextFull(f: Full, prob: real, cur: int, p: Params): Full {
    var back := BackAt(f, prob, cur, p);
    if f.track.run.Idle? then Full(Next(f.track, prob, cur, p), 0, 0)
    else if Exceeds(f.track, cur, p) then AfterWindow(Full(SplitAt(f.track, f.cut, back, cur), 0, 0), prob, cur, p)
    else AfterWindow(f.(back := back), prob, cur, p)
  }

  /** One window. */
  method Step(st0: Scan, prob: real, cur: int, p: Params) returns (st: Scan)
    requires ScanOk(st0, cur) && 0 <= cur && p.window > 0
    ensures ScanOk(st, cur + p.window) && (st.split <==> st0.split || Exceeds(TrackOf(st0), cur, p))
    ensures FullOf(st) == NextFull(FullOf(st0), prob, cur, p)
  {
    hide InOrder;
    st := Resumed(st0, prob, cur, p);
    if prob >= p.threshold && !st.inSpeech {
      return st.(inSpeech := true, start := cur);
    }
    assert MidOk(st, cur);
    st := StepOn(st, prob, cur, p);
  }

  lemma {:induction false} NextIs(f: Full, prob: real, cur: int, p: Params)
    requires prob >= p.threshold ==> f.track.run.Running? && f.track.run.silence == 0
    requires f.track.run.Idle? ==> f.cut == f.back == 0
    ensures NextFull(f, prob, cur, p) == AfterWindow(
      if Exceeds(f.track, cur, p) then Full(SplitAt(f.track, f.cut, f.back, cur), 0, 0) else f, prob, cur, p)
  {
  }

  /** The rest of the step, for a window that does not start a segment. */
  method StepOn(st0: Scan, prob: real, cur: int, p: Params) returns (st: Scan)
    requires MidOk(st0, cur) && (st0.inSpeech ==> st0.start < cur) && 0 <= cur && p.window > 0
    requires prob >= p.threshold ==> st0.inSpeech && st0.tempEnd == 0
    ensures ScanOk(st, cur + p.window) && (st.split <==> st0.split || Exceeds(TrackOf(st0), cur, p))
    ensures FullOf(st) == NextFull(FullOf(st0), prob, cur, p)
  {
    hide InOrder, NextFull, AfterWindow;
    NextIs(FullOf(st0), prob, cur, p);
    st := st0;
    if st.inSpeech && cur - st.start > p.maxSpeech {
      var done;
      st, done := SplitLong(st, cur);
      if done {
        NothingAfter(FullOf(st), prob, cur, p);
        Later(st.speeches, cur, cur + p.window);
        return;
      }
    }
    st := Quieten(st, prob, cur, p);
  }

  lemma {:induction false} NothingAfter(f: Full, prob: real, cur: int, p: Params)
    requires f.track.run.Idle?
    ensures AfterWindow(f, prob, cur, p) == Full(f.track, 0, 0)
  {
  }

  /** Silence is noted, and ends the run if it is long enough. */
  method Quieten(st0: Scan, prob: real, cur: int, p: Params) returns (st: Scan)
    requires MidOk(st0, cur) && 0 <= cur && p.window > 0 && (st0.inSpeech ==> cur > 0)
    requires prob >= p.threshold && st0.inSpeech ==> st0.tempEnd == 0
    ensures ScanOk(st, cur + p.window) && st.split == st0.split
    ensures FullOf(st) == AfterWindow(FullOf(st0), prob, cur, p)
  {
    hide InOrder, Ended;
    st := st0;
    if prob < NegThreshold(p) && st.inSpeech {
      st := InSilence(st, cur, p);
      if !st.inSpeech {
        Later(st.speeches, cur + 1, cur + p.window);
      }
    } else if !st.inSpeech {
      Later(st.speeches, cur, cur + p.window);
    }
  }

  lemma {:induction false} Later(speeches: seq<Speech>, a: int, b: int)
    requires InOrder(speeches, a) && a <= b
    ensures InOrder(speeches, b)
  {
  }

  // ---------------------------------------------------------------------------------------------
  // Runs: with a threshold of speech of at least 0.01 no window is speech and silence at once

  ghost predicate TrackOk(t: Track, p: Params, n: nat) {
    t.run.Running? ==>
      && 0 <= t.run.start < At(p, n) && OnGrid(p, t.run.start)
      && (t.run.silence != 0 ==> t.run.start < t.run.silence < At(p, n) && OnGrid(p, t.run.silence))
  }

  ghost predicate OnGrid(p: Params, s: int) {
    exists e: nat :: At(p, e) == s
  }

  lemma {:induction false} TrackOkStep(t: Track, prob: real, p: Params, n: nat)
    requires TrackOk(t, p, n) && p.window > 0
    ensures TrackOk(Next(t, prob, At(p, n), p), p, n + 1)
  {
    AtNext(p, n);
    assert OnGrid(p, At(p, n));
    hide OnGrid, At;
  }

  ghost predicate RunsOk(t: Track, probs: seq<real>, p: Params, n: nat) {
    && n <= |probs| && AreRuns(t.speeches, probs, p) && AreRuns(t.dropped, probs, p)
    && (t.run.Running? ==>
          && SpeechAt(probs, p, t.run.start) && Unbroken(probs, p, t.run.start, At(p, n))
               && Counting(t.run, probs, p, n)
          && (t.run.silence != 0 ==> Quiet(probs, p, t.run.silence, n)))
  }

  lemma {:induction false} CountingStep(t: Track, probs: seq<real>, p: Params, n: nat)
    requires RunsOk(t, probs, p, n) && n < |probs| && p.window > 0 && TrackOk(t, p, n) && p.threshold >= 0.01
    requires Next(t, probs[n], At(p, n), p).run.Running?
    ensures var run := Next(t, probs[n], At(p, n), p).run;
      Counting(run, probs, p, n + 1) && SpeechAt(probs, p, run.start)
  {
    hide Unbroken, Quiet, IsRun, At, NegThreshold, OnGrid;
    var run := Next(t, probs[n], At(p, n), p).run;
    forall v: nat | v < n + 1 && Pending(run, probs, p, v) ensures SpeechAfter(probs, p, v, n + 1) {
      AtOrder(p, v, n);
      if probs[n] < p.threshold && v < n {
        assert Pending(t.run, probs, p, v);
        var u: nat :| v <= u < n && probs[u] >= p.threshold;
      }
    }
  }

  lemma {:induction false} UnbrokenStep(t: Track, probs: seq<real>, p: Params, n: nat)
    requires RunsOk(t, probs, p, n) && n < |probs| && p.window > 0 && TrackOk(t, p, n) && p.threshold >= 0.01
    requires Next(t, probs[n], At(p, n), p).run.Running?
    ensures Unbroken(probs, p, Next(t, probs[n], At(p, n), p).run.start, At(p, n + 1))
  {
    CountingStep(t, probs, p, n);
    hide Quiet, IsRun, At, NegThreshold, OnGrid;
    var run := Next(t, probs[n], At(p, n), p).run;
    forall v: nat, k: nat | v <= k < |probs| && Breaks(probs, p, run.start, At(p, n + 1), v, k)
      ensures SpeechBetween(probs, p, v, k)
    {
      AtOrder(p, k, n + 1);
      AtOrder(p, v, n);
      AtOrder(p, k, n);
      if k == n {
        assert Pending(run, probs, p, v);
        var u: nat :| v <= u < n + 1 && probs[u] >= p.threshold;
      } else {
        assert t.run.Running? && run.start == t.run.start;
        assert Breaks(probs, p, t.run.start, At(p, n), v, k);
      }
    }
  }

  lemma {:induction false} QuietStep(t: Track, probs: seq<real>, p: Params, n: nat)
    requires RunsOk(t, probs, p, n) && n < |probs| && p.window > 0 && t.run.Running? && probs[n] < p.threshold
    ensures Quiet(probs, p, if t.run.silence != 0 then t.run.silence else At(p, n), n + 1)
  {
    forall w: nat | w < n ensures At(p, w) < At(p, n) {
      AtOrder(p, w, n);
    }
  }

  lemma {:induction false} Shorter(probs: seq<real>, p: Params, start: int, a: int, b: int)
    requires Unbroken(probs, p, start, a) && b <= a
    ensures Unbroken(probs, p, start, b)
  {
    forall v: nat, k: nat | v <= k < |probs| && Breaks(probs, p, start, b, v, k) ensures SpeechBetween(probs, p, v, k) {
      assert Breaks(probs, p, start, a, v, k);
    }
  }

  lemma {:induction false} RunsStep(t: Track, probs: seq<real>, p: Params, n: nat)
    requires RunsOk(t, probs, p, n) && n < |probs| && p.window > 0 && TrackOk(t, p, n) && p.threshold >= 0.01
    ensures RunsOk(Next(t, probs[n], At(p, n), p), probs, p, n + 1)
  {
    var next := Next(t, probs[n], At(p, n), p);
    if t.run.Running? && probs[n] < p.threshold {
      QuietStep(t, probs, p, n);
    }
    if next.run.Running? {
      CountingStep(t, probs, p, n);
      UnbrokenStep(t, probs, p, n);
      hide Counting, Unbroken, Quiet, IsRun, SpeechAt, At, OnGrid;
    } else if t.run.Running? {
      var end := if t.run.silence != 0 then t.run.silence else At(p, n);
      hide Counting, Quiet, OnGrid;
      assert SilenceTo(probs, p, end, n);
      Shorter(probs, p, t.run.start, At(p, n), end);
      assert IsRun(probs, p, Speech(t.run.start, end));
    }
  }

  /** As long as no run gets too long, the segments before merging are the runs that are long enough. */
  lemma {:induction false} HeardRuns(probs: seq<real>, p: Params, n: nat)
    requires n <= |probs| && p.window > 0 && p.threshold >= 0.01
    ensures RunsOk(Heard(probs, p, n), probs, p, n) && TrackOk(Heard(probs, p, n), p, n)
  {
    if n > 0 {
      HeardRuns(probs, p, n - 1);
      RunsStep(Heard(probs, p, n - 1), probs, p, n - 1);
      TrackOkStep(Heard(probs, p, n - 1), probs[n - 1], p, n - 1);
    }
  }

  lemma {:induction false} AllRuns(probs: seq<real>, p: Params)
    requires p.window > 0 && p.threshold >= 0.01
    ensures AreRuns(HeardAll(probs, p).speeches, probs, p) && AreRuns(HeardAll(probs, p).dropped, probs, p)
  {
    HeardRuns(probs, p, |probs|);
    var t := Heard(probs, p, |probs|);
    hide Heard, Unbroken, Counting, Quiet, SpeechAt, SilenceTo;
    assert t.run.Running? ==> IsRun(probs, p, Speech(t.run.start, At(p, |probs|)));
    hide IsRun;
  }

  /** Runs kept are longer than the minimum, those dropped are not. */
  lemma {:induction false} HeardLong(probs: seq<real>, p: Params, n: nat)
    requires n <= |probs|
    ensures LongEnough(Heard(probs, p, n).speeches, p) && AllShort(Heard(probs, p, n).dropped, p)
  {
    if n > 0 {
      HeardLong(probs, p, n - 1);
    }
  }

  ghost predicate AllShort(speeches: seq<Speech>, p: Params) {
    forall k :: 0 <= k < |speeches| ==> speeches[k].end - speeches[k].start <= p.minSpeech
  }

  lemma {:induction false} AllLong(probs: seq<real>, p: Params)
    ensures LongEnough(HeardAll(probs, p).speeches, p) && AllShort(HeardAll(probs, p).dropped, p)
  {
    HeardLong(probs, p, |probs|);
    hide Heard;
  }

  /** As long as no run gets too long, nothing is cut. */
  lemma {:induction false} WholeHeard(probs: seq<real>, p: Params, n: nat)
    requires n <= |probs| && !Overlong(probs, p, n)
    ensures Whole(probs, p, n).track == Heard(probs, p, n)
    decreases n
  {
    hide Next, Exceeds;
    if n > 0 {
      OverlongStep(probs, p, n - 1);
      WholeHeard(probs, p, n - 1);
      NextUncut(Whole(probs, p, n - 1), probs[n - 1], At(p, n - 1), p);
    }
  }

  lemma {:induction false} NextUncut(f: Full, prob: real, cur: int, p: Params)
    requires !Exceeds(f.track, cur, p)
    ensures NextFull(f, prob, cur, p).track == Next(f.track, prob, cur, p)
  {
  }

  /** The maximum duration was exceeded somewhere exactly if it was before anything was cut. */
  lemma {:induction false} OverlongWhole(probs: seq<real>, p: Params, n: nat, split: bool)
    requires n < |probs| && (split <==> Overlong(probs, p, n))
    ensures split || Exceeds(Whole(probs, p, n).track, At(p, n), p) <==> Overlong(probs, p, n + 1)
  {
    hide Exceeds, Whole, Heard, Overlong;
    OverlongStep(probs, p, n);
    if !split {
      WholeHeard(probs, p, n);
    }
  }

  /** Segments in order: those of the track, cut where a run exceeded the maximum duration. */
  method FindSpeech(probs: seq<real>, p: Params) returns (speeches: seq<Speech>, split: bool)
    requires p.window > 0
    ensures InOrder(speeches, At(p, |probs|)) && (split <==> Overlong(probs, p, |probs|))
    ensures speeches == WholeAll(probs, p).speeches && (!split ==> speeches == HeardAll(probs, p).speeches)
  {
    hide ScanOk, NextFull, Exceeds, InOrder, Overlong, Ended;
    var st := Scan([], false, 0, 0, 0, 0, false, []);
    NothingScanned(st, probs, p);
    for i := 0 to |probs|
      invariant ScanOk(st, At(p, i)) && (st.split <==> Overlong(probs, p, i)) && FullOf(st) == Whole(probs, p, i)
    {
      OverlongWhole(probs, p, i, st.split);
      st := Step(st, probs[i], p.window * i, p);
      AtNext(p, i);
    }
    var length := |probs| * p.window;
    assert length == At(p, |probs|);
    split, speeches := st.split, st.speeches;
    if st.inSpeech && length - st.start > p.minSpeech {
      speeches := speeches + [Speech(st.start, length)];
    }
    ScanEnds(st, speeches, length);
    EndIs(TrackOf(st), st.start, length, p);
    if !split {
      WholeHeard(probs, p, |probs|);
    }
  }

  lemma {:induction false} EndIs(t: Track, start: int, length: int, p: Params)
    ensures Ended(t, start, length, p).speeches
         == if length - start > p.minSpeech then t.speeches + [Speech(start, length)] else t.speeches
  {
  }

  lemma {:induction false} OverlongStep(probs: seq<real>, p: Params, n: nat)
    requires n < |probs|
    ensures Overlong(probs, p, n + 1) <==> Overlong(probs, p, n) || Exceeds(Heard(probs, p, n), At(p, n), p)
  {
    hide Heard, Exceeds, At;
  }

  lemma {:induction false} NothingScanned(st: Scan, probs: seq<real>, p: Params)
    requires st == Scan([], false, 0, 0, 0, 0, false, [])
    ensures ScanOk(st, At(p, 0)) && FullOf(st) == Whole(probs, p, 0) && !Overlong(probs, p, 0)
  {
  }

  lemma {:induction false} ScanEnds(st: Scan, speeches: seq<Speech>, length: int)
    requires ScanOk(st, length)
    requires speeches == st.speeches || (st.inSpeech && speeches == st.speeches + [Speech(st.start, length)])
    ensures InOrder(speeches, length)
  {
    if st.inSpeech && speeches == st.speeches + [Speech(st.start, length)] {
      AddSpeech(st.speeches, Speech(st.start, length), length);
    } else if st.inSpeech {
      Later(st.speeches, st.start, length);
    }
  }

  // ---------------------------------------------------------------------------------------------
  // Afterwards: close gaps, drop what is short, and pad

  /** Nothing that was in a segment is lost. */
  ghost predicate Keeps(before: seq<Speech>, now: seq<Speech>) {
    forall s :: Inside(before, s) ==> Inside(now, s)
  }

  /** ... and what is new lies in gaps shorter than the given one. */
  ghost predicate OnlyFills(before: seq<Speech>, now: seq<Speech>, gap: int) {
    forall s :: Inside(now, s) ==> Inside(before, s) || InShortGap(before, s, gap)
  }

  ghost predicate InShortGap(speeches: seq<Speech>, s: int, gap: int) {
    exists k ::
      0 <= k < |speeches| - 1 && speeches[k].end <= s < speeches[k + 1].start
        && speeches[k + 1].start - speeches[k].end < gap
  }

  lemma {:induction false} MergedAt(before: seq<Speech>, i: nat, now: seq<Speech>, k: nat)
    requires i + 1 < |before| && now == before[..i] + [Speech(before[i].start, before[i + 1].end)] + before[i + 2..]
      && k < |now|
    ensures |now| == |before| - 1
    ensures now[k]
      == if k < i then before[k] else if k == i then Speech(before[i].start, before[i + 1].end) else before[k + 1]
  {
  }

  lemma {:induction false} MergeFills(before: seq<Speech>, i: nat, now: seq<Speech>, gap: int)
    requires i + 1 < |before| && before[i + 1].start - before[i].end < gap
    requires now == before[..i] + [Speech(before[i].start, before[i + 1].end)] + before[i + 2..]
    ensures OnlyFills(before, now, gap)
  {
    forall s | Inside(now, s) ensures Inside(before, s) || InShortGap(before, s, gap) {
      var k :| 0 <= k < |now| && now[k].start <= s < now[k].end;
      MergedAt(before, i, now, k);
      if k == i {
        assert before[i].start <= s < before[i].end || before[i + 1].start <= s < before[i + 1].end
          || before[i].end <= s < before[i + 1].start;
      } else {
        assert now[k] == before[if k < i then k else k + 1];
      }
    }
  }

  lemma {:induction false} MergeGaps(before: seq<Speech>, i: nat, now: seq<Speech>, gap: int)
    requires i + 1 < |before|
    requires now == before[..i] + [Speech(before[i].start, before[i + 1].end)] + before[i + 2..]
    ensures forall s :: InShortGap(now, s, gap) ==> InShortGap(before, s, gap)
  {
    forall s | InShortGap(now, s, gap) ensures InShortGap(before, s, gap) {
      var k :| 0 <= k < |now| - 1 && now[k].end <= s < now[k + 1].start && now[k + 1].start - now[k].end < gap;
      MergedAt(before, i, now, k);
      MergedAt(before, i, now, k + 1);
      var j := if k < i then k else k + 1;
      assert before[j].end == now[k].end && before[j + 1].start == now[k + 1].start;
    }
  }

  lemma {:induction false} FillsOn(first: seq<Speech>, before: seq<Speech>, now: seq<Speech>, gap: int)
    requires OnlyFills(first, before, gap) && OnlyFills(before, now, gap)
    requires forall s :: InShortGap(before, s, gap) ==> InShortGap(first, s, gap)
    ensures OnlyFills(first, now, gap)
  {
  }

  ghost predicate GapsFrom(speeches: seq<Speech>, gap: int, n: int) {
    forall k :: 0 <= k < n && k < |speeches| - 1 ==> speeches[k + 1].start - speeches[k].end >= gap
  }

  lemma {:induction false} MergeKeeps(before: seq<Speech>, i: nat, now: seq<Speech>)
    requires i + 1 < |before| && before[i].start <= before[i].end <= before[i + 1].start <= before[i + 1].end
    requires now == before[..i] + [Speech(before[i].start, before[i + 1].end)] + before[i + 2..]
    ensures Keeps(before, now)
  {
    forall s | Inside(before, s) ensures Inside(now, s) {
      var k :| 0 <= k < |before| && before[k].start <= s < before[k].end;
      if k < i {
        assert now[k] == before[k];
      } else if k <= i + 1 {
        assert now[i].start <= s < now[i].end;
      } else {
        assert now[k - 1] == before[k];
      }
    }
  }

  /** The next segment is joined to the last one if the gap between them is short. */
  function Joined(closed: seq<Speech>, s: Speech): seq<Speech> {
    var n := |closed|;
    if n > 0 && s.start - closed[n - 1].end < MERGE_GAP then closed[..n - 1] + [Speech(closed[n - 1].start, s.end)]
    else closed + [s]
  }

  ghost function CloseOn(closed: seq<Speech>, speeches: seq<Speech>): seq<Speech>
    decreases |speeches|
  {
    if speeches == [] then closed else CloseOn(Joined(closed, speeches[0]), speeches[1..])
  }

  /** The segments with the short gaps between them closed, from the first one on. */
  ghost function Closed(speeches: seq<Speech>): seq<Speech> {
    CloseOn([], speeches)
  }

  method Merge(speeches0: seq<Speech>, p: Params, ghost bound: int) returns (speeches: seq<Speech>)
    requires InOrder(speeches0, bound)
    ensures speeches == Closed(speeches0)
    ensures InOrder(speeches, bound) && Keeps(speeches0, speeches) && GapsFrom(speeches, 3200, |speeches|)
    ensures OnlyFills(speeches0, speeches, 3200) && (LongEnough(speeches0, p) ==> LongEnough(speeches, p))
  {
    hide Inside, InShortGap, InOrder, LongEnough, CloseOn, Joined;
    speeches := speeches0;
    var i := 0;
    CloseFirst(speeches);
    while i < |speeches| - 1
      invariant 0 <= i && (speeches == [] || i < |speeches|) && InOrder(speeches, bound) && Keeps(speeches0, speeches)
      invariant GapsFrom(speeches, MERGE_GAP, i) && (LongEnough(speeches0, p) ==> LongEnough(speeches, p))
      invariant OnlyFills(speeches0, speeches, MERGE_GAP)
      invariant if speeches == [] then Closed(speeches0) == []
                else CloseOn(speeches[..i + 1], speeches[i + 1..]) == Closed(speeches0)
      invariant forall s :: InShortGap(speeches, s, MERGE_GAP) ==> InShortGap(speeches0, s, MERGE_GAP)
      decreases |speeches| - i
    {
      CloseNext(speeches, i);
      if speeches[i + 1].start - speeches[i].end < MERGE_GAP {
        ghost var before := speeches;
        speeches := speeches[..i] + [Speech(speeches[i].start, speeches[i + 1].end)] + speeches[i + 2..];
        InOrderAt(before, bound, i);
        MergeKeeps(before, i, speeches);
        MergeFills(before, i, speeches, MERGE_GAP);
        MergeGaps(before, i, speeches, MERGE_GAP);
        FillsOn(speeches0, before, speeches, MERGE_GAP);
        Merged(before, i, speeches, p, bound);
      } else {
        i := i + 1;
      }
    }
    CloseLast(speeches);
  }

  lemma {:induction false} CloseFirst(speeches: seq<Speech>)
    ensures speeches == [] ==> Closed(speeches) == []
    ensures speeches != [] ==> CloseOn(speeches[..1], speeches[1..]) == Closed(speeches)
  {
    assert speeches != [] ==> Joined([], speeches[0]) == speeches[..1];
  }

  lemma {:induction false} CloseLast(speeches: seq<Speech>)
    ensures CloseOn(speeches[..|speeches|], speeches[|speeches|..]) == speeches
  {
    assert speeches[..|speeches|] == speeches;
  }

  lemma {:induction false} CloseNext(speeches: seq<Speech>, i: nat)
    requires i + 1 < |speeches|
    ensures var now := speeches[..i] + [Speech(speeches[i].start, speeches[i + 1].end)] + speeches[i + 2..];
      if speeches[i + 1].start - speeches[i].end < MERGE_GAP then
        CloseOn(now[..i + 1], now[i + 1..]) == CloseOn(speeches[..i + 1], speeches[i + 1..])
      else CloseOn(speeches[..i + 2], speeches[i + 2..]) == CloseOn(speeches[..i + 1], speeches[i + 1..])
  {
    var now := speeches[..i] + [Speech(speeches[i].start, speeches[i + 1].end)] + speeches[i + 2..];
    var done, rest := speeches[..i + 1], speeches[i + 1..];
    assert rest[1..] == speeches[i + 2..];
    if speeches[i + 1].start - speeches[i].end < MERGE_GAP {
      assert Joined(done, rest[0]) == now[..i + 1] && rest[1..] == now[i + 1..];
    } else {
      assert Joined(done, rest[0]) == speeches[..i + 2];
    }
  }

  lemma {:induction false} InOrderAt(speeches: seq<Speech>, bound: int, i: nat)
    requires InOrder(speeches, bound) && i + 1 < |speeches|
    ensures speeches[i].start <= speeches[i].end <= speeches[i + 1].start <= speeches[i + 1].end
  {
  }

  lemma {:induction false} Merged(before: seq<Speech>, i: nat, now: seq<Speech>, p: Params, bound: int)
    requires i + 1 < |before| && InOrder(before, bound) && GapsFrom(before, MERGE_GAP, i)
    requires now == before[..i] + [Speech(before[i].start, before[i + 1].end)] + before[i + 2..]
    ensures InOrder(now, bound) && GapsFrom(now, MERGE_GAP, i) && (LongEnough(before, p) ==> LongEnough(now, p))
  {
    forall k | 0 <= k < |now|
      ensures now[k]
        == if k < i then before[k] else if k == i then Speech(before[i].start, before[i + 1].end) else before[k + 1]
    {
    }
  }

  /** Those that are long enough, and no others. */
  ghost predicate KeepsLong(before: seq<Speech>, now: seq<Speech>, p: Params) {
    && (forall s :: s in before && s.end - s.start >= p.minSpeech ==> s in now)
    && (forall s :: s in now ==> s in before)
  }

  /** Those of at least the minimum length. */
  function LongOf(speeches: seq<Speech>, p: Params): seq<Speech> {
    if speeches == [] then []
    else
      var s := speeches[|speeches| - 1];
      LongOf(speeches[..|speeches| - 1], p) + if s.end - s.start >= p.minSpeech then [s] else []
  }

  lemma {:induction false} LongConcat(a: seq<Speech>, b: seq<Speech>, p: Params)
    ensures LongOf(a + b, p) == LongOf(a, p) + LongOf(b, p)
    decreases |b|
  {
    if b == [] {
      assert a + b == a;
    } else {
      assert (a + b)[..|a + b| - 1] == a + b[..|b| - 1];
      LongConcat(a, b[..|b| - 1], p);
    }
  }

  /** Taking one out that is too short changes nothing. */
  lemma {:induction false} LongWithout(speeches: seq<Speech>, i: nat, p: Params)
    requires i < |speeches| && speeches[i].end - speeches[i].start < p.minSpeech
    ensures LongOf(speeches[..i] + speeches[i + 1..], p) == LongOf(speeches, p)
  {
    LongConcat(speeches[..i], speeches[i + 1..], p);
    LongConcat(speeches[..i + 1], speeches[i + 1..], p);
    assert speeches == speeches[..i + 1] + speeches[i + 1..];
    assert speeches[..i + 1][..i] == speeches[..i];
  }

  lemma {:induction false} LongOne(s: Speech, p: Params)
    ensures LongOf([], p) == [] && (s.end - s.start >= p.minSpeech ==> LongOf([s], p) == [s])
  {
    assert [s][..0] == [];
  }

  lemma {:induction false} LongAll(speeches: seq<Speech>, p: Params)
    requires forall k :: 0 <= k < |speeches| ==> speeches[k].end - speeches[k].start >= p.minSpeech
    ensures LongOf(speeches, p) == speeches
    decreases |speeches|
  {
    hide LongOf;
    LongOne(Speech(0, p.minSpeech), p);
    if speeches != [] {
      var front, last := speeches[..|speeches| - 1], speeches[|speeches| - 1];
      LongAll(front, p);
      LongConcat(front, [last], p);
      LongOne(last, p);
      assert speeches == front + [last];
    }
  }

  method RemoveShort(speeches0: seq<Speech>, p: Params, ghost bound: int) returns (speeches: seq<Speech>)
    requires InOrder(speeches0, bound)
    ensures
      InOrder(speeches, bound) && forall k :: 0 <= k < |speeches| ==> speeches[k].end - speeches[k].start >= p.minSpeech
    ensures (LongEnough(speeches0, p) ==> speeches == speeches0) && KeepsLong(speeches0, speeches, p)
    ensures speeches == LongOf(speeches0, p)
  {
    hide InOrder, LongEnough, KeepsLong, LongOf;
    speeches := speeches0;
    var i := 0;
    while i < |speeches|
      invariant 0 <= i <= |speeches| && InOrder(speeches, bound) && (LongEnough(speeches0, p) ==> speeches == speeches0)
      invariant forall k :: 0 <= k < i ==> speeches[k].end - speeches[k].start >= p.minSpeech
      invariant speeches == speeches0 || KeepsLong(speeches0, speeches, p)
      invariant LongOf(speeches, p) == LongOf(speeches0, p)
      decreases |speeches| - i
    {
      if speeches[i].end - speeches[i].start < p.minSpeech {
        ghost var before := speeches;
        LongWithout(speeches, i, p);
        speeches := speeches[..i] + speeches[i + 1..];
        Removed(before, i, speeches, bound);
        RemovedShort(speeches0, before, i, speeches, p);
      } else {
        i := i + 1;
      }
    }
    AllKept(speeches0, p);
    LongAll(speeches, p);
  }

  lemma {:induction false} AllKept(speeches: seq<Speech>, p: Params)
    ensures KeepsLong(speeches, speeches, p)
  {
  }

  lemma {:induction false} RemovedShort(first: seq<Speech>, before: seq<Speech>, i: nat, now: seq<Speech>, p: Params)
    requires
      i < |before| && before[i].end - before[i].start < p.minSpeech && (before == first || KeepsLong(first, before, p))
    requires (forall s :: s in before && s != before[i] ==> s in now) && (forall s :: s in now ==> s in before)
    ensures KeepsLong(first, now, p) && (before == first ==> !LongEnough(first, p))
  {
    var short := before[i];
    assert short in before;
    forall s | s in first && s.end - s.start >= p.minSpeech ensures s in now {
      assert s in before && s != short;
    }
    assert before == first ==> first[i] == short;
  }

  lemma {:induction false} Removed(before: seq<Speech>, i: nat, now: seq<Speech>, bound: int)
    requires i < |before| && InOrder(before, bound) && now == before[..i] + before[i + 1..]
    ensures InOrder(now, bound)
    ensures (forall s :: s in before && s != before[i] ==> s in now) && (forall s :: s in now ==> s in before)
  {
    RemovedOrder(before, i, now, bound);
    hide InOrder;
    forall s | s in before && s != before[i] ensures s in now {
      var k :| 0 <= k < |before| && before[k] == s;
      assert now[if k < i then k else k - 1] == s;
    }
  }

  lemma {:induction false} RemovedOrder(before: seq<Speech>, i: nat, now: seq<Speech>, bound: int)
    requires i < |before| && InOrder(before, bound) && now == before[..i] + before[i + 1..]
    ensures InOrder(now, bound)
  {
    assert i + 1 < |before| ==> before[i].end <= before[i + 1].start;
    forall k | 0 <= k < |now| - 1 ensures now[k].end <= now[k + 1].start {
      assert now[k] == before[if k < i then k else k + 1] && now[k + 1] == before[if k + 1 < i then k + 1 else k + 2];
      assert k < i ==> before[k].end <= before[k + 1].start;
    }
  }

  /** As in C, for what is not negative. */
  function Half(x: int): int {
    x / 2
  }

  /** The end moved on, as far as there is audio. */
  function PaddedEnd(end: int, pad: nat, length: int): int {
    if end + pad < length then end + pad else length
  }

  /** Padding of the first segment's start, and of the gap between segment i and the next, or of the end. */
  method Pad(speeches0: seq<Speech>, p: Params, length: int) returns (speeches: seq<Speech>)
    requires InOrder(speeches0, length)
    ensures InOrder(speeches, length) && |speeches| == |speeches0|
    ensures forall k ::
      0 <= k < |speeches| ==> Widened(speeches0[k], speeches[k], p) && PaddedAt(speeches0, speeches, p, length, k)
  {
    hide InOrder, PaddedTo, PaddedAt;
    speeches := speeches0;
    NothingPadded(speeches0, p, length);
    for i := 0 to |speeches|
      invariant |speeches| == |speeches0| && PaddedTo(speeches0, speeches, p, length, i)
    {
      ghost var before := speeches;
      if i == 0 {
        speeches :=
          speeches[0 := Speech(if speeches[0].start > p.pad then speeches[0].start - p.pad else 0, speeches[0].end)];
      }
      if i < |speeches| - 1 {
        var silence := speeches[i + 1].start - speeches[i].end;
        var next := speeches[i + 1];
        if silence < 2 * p.pad {
          speeches := speeches[i := Speech(speeches[i].start, speeches[i].end + Half(silence))];
          speeches :=
            speeches[i + 1 := Speech(if next.start > Half(silence) then next.start - Half(silence) else 0, next.end)];
        } else {
          speeches := speeches[i := Speech(speeches[i].start, PaddedEnd(speeches[i].end, p.pad, length))];
          speeches := speeches[i + 1 := Speech(if next.start > p.pad then next.start - p.pad else 0, next.end)];
        }
      } else {
        speeches := speeches[i := Speech(speeches[i].start, PaddedEnd(speeches[i].end, p.pad, length))];
      }
      PaddedStep(speeches0, before, speeches, p, length, i);
    }
    AllPadded(speeches0, speeches, p, length);
  }

  ghost predicate Widened(before: Speech, now: Speech, p: Params) {
    before.start - p.pad <= now.start <= before.start && before.end <= now.end <= before.end + p.pad
  }

  /** How far the gap behind segment k is narrowed from either side. */
  function PadBy(speeches: seq<Speech>, p: Params, k: nat): int
    requires k + 1 < |speeches|
  {
    var gap := speeches[k + 1].start - speeches[k].end;
    if gap < 2 * p.pad then Half(gap) else p.pad
  }

  /** Half of a narrow gap goes to either side of it, the full padding elsewhere, as far as there is audio. */
  ghost predicate PaddedAt(speeches0: seq<Speech>, speeches: seq<Speech>, p: Params, length: int, k: nat)
    requires |speeches| == |speeches0| && k < |speeches|
  {
    && (k == 0 ==> speeches[0].start == if speeches0[0].start > p.pad then speeches0[0].start - p.pad else 0)
    && (if k + 1 < |speeches| then
          && speeches[k].end == speeches0[k].end + PadBy(speeches0, p, k)
          && speeches[k + 1].start == speeches0[k + 1].start - PadBy(speeches0, p, k)
        else speeches[k].end == PaddedEnd(speeches0[k].end, p.pad, length))
  }

  /** The first n segments are padded, and the start of the next. */
  ghost predicate PaddedTo(speeches0: seq<Speech>, speeches: seq<Speech>, p: Params, length: int, n: nat) {
    && |speeches| == |speeches0| && n <= |speeches|
    && InOrder(speeches, length) && InOrder(speeches0, length)
    && (forall k ::
          0 <= k < |speeches| ==>
            Widened(speeches0[k], speeches[k], p) && (k >= n ==> speeches[k].end == speeches0[k].end))
    && (forall k :: 0 <= k < |speeches| && (k > n || k == n == 0) ==> speeches[k] == speeches0[k])
    && (forall k :: 0 <= k < n ==> PaddedAt(speeches0, speeches, p, length, k))
  }

  lemma {:induction false} NothingPadded(speeches: seq<Speech>, p: Params, length: int)
    requires InOrder(speeches, length)
    ensures PaddedTo(speeches, speeches, p, length, 0)
  {
  }

  lemma {:induction false} AllPadded(speeches0: seq<Speech>, speeches: seq<Speech>, p: Params, length: int)
    requires PaddedTo(speeches0, speeches, p, length, |speeches|)
    ensures InOrder(speeches, length)
    ensures forall k ::
      0 <= k < |speeches| ==> Widened(speeches0[k], speeches[k], p) && PaddedAt(speeches0, speeches, p, length, k)
  {
  }

  /** What padding number i does to its own segment and the next one. */
  ghost predicate PadStep(before: seq<Speech>, now: seq<Speech>, p: Params, length: int, i: nat)
    requires |now| == |before| && i < |before|
  {
    var first := if i == 0 then if before[0].start > p.pad then before[0].start - p.pad else 0 else before[i].start;
    var gap := if i < |before| - 1 then before[i + 1].start - before[i].end else 2 * p.pad;
    var step := if gap < 2 * p.pad then Half(gap) else p.pad;
    && now[i] == Speech(first, if gap < 2 * p.pad then before[i].end + step else PaddedEnd(before[i].end, step, length))
    && (i < |before| - 1 ==>
          now[i + 1] == Speech(if before[i + 1].start > step then before[i + 1].start - step else 0, before[i + 1].end))
    && (forall k :: 0 <= k < |before| && k != i && k != i + 1 ==> now[k] == before[k])
  }

  lemma {:induction false} PaddedStep(speeches0: seq<Speech>, before: seq<Speech>, now: seq<Speech>, p: Params,
                                      length: int, i: nat)
    requires PaddedTo(speeches0, before, p, length, i) && |now| == |before| && i < |before|
      && PadStep(before, now, p, length, i)
    ensures PaddedTo(speeches0, now, p, length, i + 1)
  {
    PaddedPair(speeches0, before, now, p, length, i);
    hide PadStep, PadBy;
    forall k | 0 <= k < i + 1 ensures PaddedAt(speeches0, now, p, length, k) {
      assert k < i ==> PaddedAt(speeches0, before, p, length, k);
    }
    forall k | 0 <= k < |now| - 1 ensures now[k].end <= now[k + 1].start {
      assert before[k].end <= before[k + 1].start;
    }
  }

  lemma {:induction false} PaddedPair(speeches0: seq<Speech>, before: seq<Speech>, now: seq<Speech>, p: Params,
                                      length: int, i: nat)
    requires PaddedTo(speeches0, before, p, length, i) && |now| == |before| && i < |before|
      && PadStep(before, now, p, length, i)
    ensures
      0 <= now[i].start <= before[i].start && before[i].end <= now[i].end <= length && Widened(speeches0[i], now[i], p)
    ensures
      i + 1 < |now| ==> (now[i].end <= now[i + 1].start <= before[i + 1].start && now[i + 1].end == before[i + 1].end
      && Widened(speeches0[i + 1], now[i + 1], p))
    ensures forall k :: 0 <= k < |before| && k != i && k != i + 1 ==> now[k] == before[k]
    ensures (i > 0 ==> now[i].start == before[i].start) && PaddedAt(speeches0, now, p, length, i)
  {
    assert i + 1 < |before| ==> before[i].end <= before[i + 1].start && before[i + 1] == speeches0[i + 1];
    assert i == 0 ==> before[i] == speeches0[i];
  }

  lemma {:induction false} WidenedKeeps(before: seq<Speech>, now: seq<Speech>, p: Params)
    requires |now| == |before| && forall k :: 0 <= k < |now| ==> Widened(before[k], now[k], p)
    ensures Keeps(before, now)
  {
    forall s | Inside(before, s) ensures Inside(now, s) {
      var k :| 0 <= k < |before| && before[k].start <= s < before[k].end;
      assert now[k].start <= s < now[k].end;
    }
  }

  /** 16000 samples a second, rounded half up. */
  function SamplesToCs(samples: int): int {
    (samples + 80) / 160
  }

  datatype Segment = Segment(start: int, end: int)

  function ToSegments(speeches: seq<Speech>): (segments: seq<Segment>)
    ensures |segments| == |speeches|
  {
    seq(|speeches|,
        k requires 0 <= k < |speeches| => Segment(SamplesToCs(speeches[k].start), SamplesToCs(speeches[k].end)))
  }

  /** The segments after merging and padding. */
  ghost function Padded(speeches: seq<Speech>, p: Params, length: int): (r: seq<Speech>)
    ensures |r| == |speeches|
  {
    seq(|speeches|, k requires 0 <= k < |speeches| => PaddedOne(speeches, p, length, k))
  }

  ghost function PaddedOne(speeches: seq<Speech>, p: Params, length: int, k: nat): Speech
    requires k < |speeches|
  {
    var s := speeches[k];
    Speech(if k > 0 then s.start - PadBy(speeches, p, k - 1) else if s.start > p.pad then s.start - p.pad else 0,
           if k + 1 < |speeches| then s.end + PadBy(speeches, p, k) else PaddedEnd(s.end, p.pad, length))
  }

  lemma {:induction false} PaddedIs(before: seq<Speech>, now: seq<Speech>, p: Params, length: int)
    requires |now| == |before| && forall k :: 0 <= k < |now| ==> PaddedAt(before, now, p, length, k)
    ensures now == Padded(before, p, length)
  {
    hide PadBy;
    forall k | 0 <= k < |now| ensures now[k] == PaddedOne(before, p, length, k) {
      assert PaddedAt(before, now, p, length, k);
      assert k > 0 ==> PaddedAt(before, now, p, length, k - 1);
    }
  }

  ghost function Result(probs: seq<real>, p: Params): seq<Speech> {
    Padded(Closed(HeardAll(probs, p).speeches), p, At(p, |probs|))
  }

  /** With runs cut that get too long; a piece can then be too short. */
  ghost function WholeResult(probs: seq<real>, p: Params): seq<Speech> {
    Padded(LongOf(Closed(WholeAll(probs, p).speeches), p), p, At(p, |probs|))
  }

  /** The segments in hundredths of a second are in order within the audio. They are the runs of speech, cut where
      they got too long, joined where they are close, and padded. */
  method SegmentsFromProbs(probs: seq<real>, p: Params)
    returns (segments: seq<Segment>, ghost speeches: seq<Speech>, split: bool)
    requires p.window > 0
    ensures InOrder(speeches, At(p, |probs|)) && segments == ToSegments(speeches)
    ensures split <==> Overlong(probs, p, |probs|)
    ensures speeches == WholeResult(probs, p)
    ensures !split ==> speeches == Result(probs, p) && Keeps(HeardAll(probs, p).speeches, speeches)
    ensures forall k :: 0 <= k < |segments| ==> 0 <= segments[k].start <= segments[k].end <= SamplesToCs(At(p, |probs|))
    ensures forall k :: 0 <= k < |segments| - 1 ==> segments[k].end <= segments[k + 1].start
  {
    hide InOrder, LongEnough, Keeps, GapsFrom, KeepsLong, Widened, OnlyFills, PaddedAt, Closed, HeardAll, Padded,
      Overlong, WholeAll, LongOf;
    ghost var length := At(p, |probs|);
    var found, merged, long, padded;
    found, split := FindSpeech(probs, p);
    merged := Merge(found, p, length);
    long := RemoveShort(merged, p, length);
    padded := Pad(long, p, |probs| * p.window);
    assert |probs| * p.window == length;
    speeches, segments := padded, ToSegments(padded);
    WidenedKeeps(long, padded, p);
    PaddedIs(long, padded, p, length);
    AllLong(probs, p);
    if !split {
      KeepsOn(found, merged, padded);
    }
    SegmentsOrdered(padded, length);
  }

  lemma {:induction false} KeepsOn(a: seq<Speech>, b: seq<Speech>, c: seq<Speech>)
    requires Keeps(a, b) && Keeps(b, c)
    ensures Keeps(a, c)
  {
    hide Inside;
  }

  lemma {:induction false} SegmentsOrdered(speeches: seq<Speech>, bound: int)
    requires InOrder(speeches, bound)
    ensures var segments := ToSegments(speeches);
      && (forall k :: 0 <= k < |segments| ==> 0 <= segments[k].start <= segments[k].end <= SamplesToCs(bound))
      && (forall k :: 0 <= k < |segments| - 1 ==> segments[k].end <= segments[k + 1].start)
  {
  }
}
