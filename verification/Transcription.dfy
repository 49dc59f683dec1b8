/** The main loop: windows of audio and how far each moves. */
module Transcription {
  import opened Timestamps
  import Segments

  const DELTA_MIN: int := 10    // the last 100 ms are not decoded

  const SHORT_REST: int := 500    // for the last 5 s earlier text is forgotten

  datatype Span = Span(seek: int, seekEnd: int, nMax: nat)

  /** A decoder at any time: its window can move on. */
  ghost predicate Usable(v: Vocab, p: Params, t: Track) {
    && WellTimed(v, t.tokens) && t.seekDelta >= 2 && t.resultLen <= |t.tokens|
    && (t.completed && p.loaded ==> t.resultLen > 0) && EndsText(v, t.tokens)
  }

  /** No token but the last may end the text. */
  ghost predicate EndsText(v: Vocab, tokens: seq<int>) {
    forall k :: 0 <= k < |tokens| - 1 ==> tokens[k] != v.eot
  }

  /** The window moves on to its last timestamp, or further. */
  ghost predicate Covers(v: Vocab, t: Track) {
    2 * (Stamp(v, t.tokens) - v.beg) <= t.seekDelta
  }

  ghost predicate RunningInTime(v: Vocab, t: Track, n: nat) {
    Running(t) ==> InTime(v, t) && |t.tokens| == n && v.eot !in t.tokens
  }

  /** The latest token is sampled, but not yet accounted for. */
  ghost predicate Sampled(v: Vocab, t: Track, n: nat) {
    && |t.tokens| == n + 1 && TokensOk(v, t.tokens) && WellTimed(v, t.tokens) && EndsText(v, t.tokens)
    && Follows(v, t.tokens[..n], t.hasTs, t.seekDelta, t.resultLen)
  }

  lemma {:induction false} TakeToken(v: Vocab, p: Params, t: Track, id: int)
    requires InTime(v, t) && Allowed(v, p, t, id) && v.eot !in t.tokens
    ensures Sampled(v, t.(tokens := t.tokens + [id]), |t.tokens|)
  {
    hide WellTimed, Follows;
    assert (t.tokens + [id])[..|t.tokens|] == t.tokens;
    assert !Forbidden(v, t.tokens, Stamp(v, t.tokens) > v.beg, 2 * (Stamp(v, t.tokens) - v.beg), -1, id) by {
      FollowsMask(v, p, t, id);
    }
    MaskExact(v, t.tokens, -1, id);
  }

  lemma {:induction false} FollowsMask(v: Vocab, p: Params, t: Track, id: int)
    requires InTime(v, t) && Allowed(v, p, t, id)
    ensures !Forbidden(v, t.tokens, Stamp(v, t.tokens) > v.beg, 2 * (Stamp(v, t.tokens) - v.beg), -1, id)
  {
    hide WellTimed, FollowsWell;
  }

  /** A new timestamp is no earlier than the window already is. */
  lemma {:induction false} NeverBack(v: Vocab, t: Track, n: nat)
    requires Sampled(v, t, n)
    ensures t.hasTs && t.tokens[n] > v.beg ==> t.seekDelta <= 2 * (t.tokens[n] - v.beg)
    ensures t.tokens[n] > v.beg ==> Follows(v, t.tokens, true, 2 * (t.tokens[n] - v.beg), n + 1)
    ensures t.tokens[n] <= v.beg ==> Follows(v, t.tokens, t.hasTs, t.seekDelta, t.resultLen)
  {
    hide StepOk;
    WellTimedPrefix(v, t.tokens, n);
    StampIsLargest(v, t.tokens[..n]);
    StampIsLargest(v, t.tokens);
    var s := Stamp(v, t.tokens[..n]);
    if t.hasTs && t.tokens[n] > v.beg {
      var a :| 0 <= a < n && t.tokens[..n][a] == s;
      assert t.tokens[a] == s;
    }
  }

  /** One token accounted for: moves the window, and ends the decoder. The timestamp is never before the
      window's, so that failure cannot happen. */
  method Update(v: Vocab, p: Params, t: Track, i: nat, w: Span) returns (r: Track)
    requires VocabOk(v) && Running(t) && Sampled(v, t, i)
    ensures r.tokens == t.tokens && Usable(v, p, r) && Covers(v, r)
    ensures RunningInTime(v, r, i + 1)
    ensures i + 1 == w.nMax && Running(r) ==> r.resultLen > 0 && r.seekDelta >= CHUNK / 2
    ensures var s := Caught(v, t); Outcome(v, p, s, t.tokens[i], i, w, r)
    ensures t.tokens[i] == v.eot || (p.maxTokens > 0 && i >= p.maxTokens) || StampAtEnd(v, t, w) ==> !Running(r)
    ensures p.loaded && i + 1 < w.nMax && !Running(r) ==>
      t.tokens[i] == v.eot || (p.maxTokens > 0 && i >= p.maxTokens) || StampAtEnd(v, t, w)
  {
    hide WellTimed, Stamp, ResultLen, StepOk;
    NeverBack(v, t, i);
    StampInside(v, t.tokens);
    r := t;
    var token := t.tokens[|t.tokens| - 1];
    if token > v.beg {
      var seekDeltaNew := 2 * (token - v.beg);
      if r.hasTs && r.seekDelta > seekDeltaNew && r.resultLen < i {
        assert false;
      }
      r := r.(seekDelta := seekDeltaNew, resultLen := i + 1, hasTs := true);
    }
    assert Follows(v, r.tokens, r.hasTs, r.seekDelta, r.resultLen);
    assert r == Caught(v, t);
    if Ends(v, p, token, r.hasTs, r.seekDelta, i, w) {
      if r.resultLen == 0 && !p.noTimestamps {
        if w.seek + r.seekDelta + DELTA_MIN >= w.seekEnd {
          r := r.(resultLen := i + 1);
        } else {
          return r.(failed := true);
        }
      }
      if p.singleSegment || p.noTimestamps {
        r := r.(resultLen := i + 1, seekDelta := CHUNK);
      }
      return r.(completed := true);
    }
    if !p.loaded {
      return r.(seekDelta := CHUNK, completed := true);
    }
    if i + 1 == w.nMax && (r.resultLen == 0 || r.seekDelta < CHUNK / 2) {
      return r.(failed := true);
    }
  }

  /** The window and the result that belong to all of its tokens. */
  ghost function Caught(v: Vocab, t: Track): Track {
    var last := Stamp(v, t.tokens);
    t.(hasTs := last > v.beg, seekDelta := if last > v.beg then 2 * (last - v.beg) else CHUNK,
       resultLen := ResultLen(v, t.tokens))
  }

  /** Whether a decoder goes on, completes or fails, and with which window and result. */
  ghost predicate Outcome(v: Vocab, p: Params, s: Track, token: int, i: nat, w: Span, r: Track) {
    var atEnd := w.seek + s.seekDelta + 10 >= w.seekEnd;
    if Ends(v, p, token, s.hasTs, s.seekDelta, i, w) then
      if s.resultLen == 0 && !p.noTimestamps && !atEnd then r == s.(failed := true)
      else if p.singleSegment || p.noTimestamps then r == s.(completed := true, resultLen := i + 1, seekDelta := CHUNK)
      else r == s.(completed := true, resultLen := if s.resultLen == 0 then i + 1 else s.resultLen)
    else if !p.loaded then r == s.(completed := true, seekDelta := CHUNK)
    else if i + 1 == w.nMax && (s.resultLen == 0 || s.seekDelta < CHUNK / 2) then r == s.(failed := true)
    else r == s
  }

  /** No more than 100 ms of the audio lie behind the last timestamp. */
  ghost predicate StampAtEnd(v: Vocab, t: Track, w: Span) {
    var last := Stamp(v, t.tokens);
    last > v.beg && w.seekEnd <= w.seek + 2 * (last - v.beg) + 10
  }

  /** The end of the text, of the tokens allowed, or of the audio. */
  predicate Ends(v: Vocab, p: Params, token: int, hasTs: bool, seekDelta: int, i: nat, w: Span) {
    || token == v.eot
    || (p.maxTokens > 0 && i >= p.maxTokens)
    || (hasTs && w.seek + seekDelta + DELTA_MIN >= w.seekEnd)
  }

  // ---------------------------------------------------------------------------------------------
  // The temperatures tried for a window

  const TEMPERATURE_BOUND: real := 1.000001

  function Steps(t: real, increment: real): (n: nat)
    requires increment > 0.0
    ensures n > 0 <==> t < TEMPERATURE_BOUND
  {
    if t < TEMPERATURE_BOUND then
      QuotientPositive(TEMPERATURE_BOUND - t, increment);
      ((TEMPERATURE_BOUND - t) / increment).Floor + 1
    else 0
  }

  lemma {:induction false} QuotientPositive(x: real, d: real)
    requires d > 0.0 && x > 0.0
    ensures x / d > 0.0
  {
  }

  lemma {:induction false} StepsFewer(t: real, increment: real)
    requires increment > 0.0 && t < TEMPERATURE_BOUND
    ensures Steps(t + increment, increment) < Steps(t, increment)
  {
    var x := TEMPERATURE_BOUND - t;
    OneLess(x, increment);
    QuotientPositive(x, increment);
  }

  lemma {:induction false} OneLess(x: real, d: real)
    requires d > 0.0
    ensures (x - d) / d == x / d - 1.0
  {
    var q := x / d;
    assert x == q * d;
    assert x - d == (q - 1.0) * d;
    Cancel((x - d) / d, q - 1.0, d);
  }

  lemma {:induction false} Cancel(a: real, b: real, d: real)
    requires d > 0.0 && a * d == b * d
    ensures a == b
  {
    assert (a - b) * d == 0.0;
  }

  /** From t upwards while below the bound. */
  function TemperaturesFrom(t: real, increment: real): seq<real>
    requires increment > 0.0
    decreases Steps(t, increment)
  {
    if t < TEMPERATURE_BOUND then
      StepsFewer(t, increment);
      [t] + TemperaturesFrom(t + increment, increment)
    else []
  }

  function TemperaturesOf(temperature: real, increment: real): seq<real> {
    if increment > 0.0 then TemperaturesFrom(temperature, increment) else [temperature]
  }

  /** There is none exactly if the increment is positive and the first one is beyond the bound. */
  lemma {:induction false} NoTemperatures(temperature: real, increment: real)
    ensures TemperaturesOf(temperature, increment) == [] <==> increment > 0.0 && temperature >= 1.000001
  {
  }

  /** k increments above t. */
  function Above(t: real, increment: real, k: nat): real {
    t + k as real * increment
  }

  /** They are an increment apart, all below the bound, and the next one would not be. */
  lemma {:induction false} TemperaturesExact(temperature: real, increment: real)
    requires increment > 0.0
    ensures var ts := TemperaturesOf(temperature, increment);
      && (forall k :: 0 <= k < |ts| ==> ts[k] == Above(temperature, increment, k) < 1.000001)
      && Above(temperature, increment, |ts|) >= 1.000001
    decreases Steps(temperature, increment)
  {
    OneAbove(temperature, increment, 0);
    if temperature < TEMPERATURE_BOUND {
      StepsFewer(temperature, increment);
      TemperaturesExact(temperature + increment, increment);
      hide Steps, Above;
      var ts, rest := TemperaturesOf(temperature, increment), TemperaturesOf(temperature + increment, increment);
      assert ts == [temperature] + rest;
      OneAbove(temperature, increment, |rest|);
      forall k | 0 < k < |ts| ensures ts[k] == Above(temperature, increment, k) < TEMPERATURE_BOUND {
        assert ts[k] == rest[k - 1];
        OneAbove(temperature, increment, k - 1);
      }
    }
  }

  lemma {:induction false} OneAbove(t: real, increment: real, k: nat)
    ensures Above(t, increment, 0) == t && Above(t, increment, k + 1) == Above(t + increment, increment, k)
  {
    assert (k + 1) as real == 1.0 + k as real;
    assert (1.0 + k as real) * increment == increment + k as real * increment;
  }

  method ListTemperatures(temperature: real, increment: real) returns (temperatures: seq<real>)
    ensures temperatures == TemperaturesOf(temperature, increment)
  {
    temperatures := [];
    if increment > 0.0 {
      var t := temperature;
      while t < TEMPERATURE_BOUND
        invariant temperatures + TemperaturesFrom(t, increment) == TemperaturesFrom(temperature, increment)
        decreases Steps(t, increment)
      {
        StepsFewer(t, increment);
        temperatures := temperatures + [t];
        t := t + increment;
      }
    } else {
      temperatures := [temperature];
    }
  }

  /** How the main loop ends: at the end of the audio; by the caller's callback, or because no token is left to
      sample; or by asking for the first token of a prompt that was never filled. */
  datatype Ending = AtEnd | Stopped | EmptyPrompt

  // ---------------------------------------------------------------------------------------------
  // The prompt

  /** The tokens that ask for the task, the mark in front of earlier text, and how much of that may be used. */
  datatype Task = Task(init: seq<int>, prev: int, maxText: int, textContext: nat)

  predicate TaskOk(task: Task) {
    task.init != [] && task.init[0] != task.prev
  }

  /** The end of the earlier text, if the temperature is low. */
  function Context(task: Task, past: seq<int>, temperature: real): (context: seq<int>)
    ensures |context| <= task.textContext / 2
  {
    if past != [] && temperature < 0.5 && task.maxText > 0 then
      var n := if task.maxText < task.textContext / 2 then task.maxText else task.textContext / 2;
      past[if n < |past| then |past| - n else 0..]
    else []
  }

  function PromptOf(task: Task, past: seq<int>, temperature: real): seq<int> {
    if past != [] && temperature < 0.5 && task.maxText > 0 then
      [task.prev] + Context(task, past, temperature) + task.init
    else task.init
  }

  /** The text that goes on to the next window. */
  function CarriedOn(task: Task, prompt: seq<int>, result: seq<int>): seq<int>
    requires prompt != [] && (prompt[0] == task.prev ==> |prompt| > |task.init|)
  {
    (if prompt[0] == task.prev then prompt[1..|prompt| - |task.init|] else []) + result
  }

  /** What goes on is the context the window was given and its result; and no prompt is longer than half the context
      and the tokens around it. */
  lemma {:induction false} ContextCarried(task: Task, past: seq<int>, temperature: real, result: seq<int>)
    requires TaskOk(task)
    ensures var prompt := PromptOf(task, past, temperature);
      && 0 < |prompt| <= 1 + task.textContext / 2 + |task.init|
      && (prompt[0] == task.prev ==> |prompt| > |task.init|)
      && CarriedOn(task, prompt, result) == Context(task, past, temperature) + result
    ensures var prompt, context := PromptOf(task, past, temperature), Context(task, past, temperature);
      && (prompt == task.init || prompt == [task.prev] + context + task.init)
      && (temperature >= 0.5 || past == [] || task.maxText <= 0 <==> prompt == task.init)
  {
    var prompt, context := PromptOf(task, past, temperature), Context(task, past, temperature);
    assert |prompt| != |task.init| <==> past != [] && temperature < 0.5 && task.maxText > 0;
    if prompt[0] == task.prev {
      assert prompt[1..|prompt| - |task.init|] == context;
    }
  }

  /** The context is the latest text, as much of it as there is, as may be used, and as half the text context holds;
      none unless the temperature is low. */
  lemma {:induction false} ContextExact(task: Task, past: seq<int>, temperature: real)
    ensures var context := Context(task, past, temperature);
      && |context| <= |past| && context == past[|past| - |context|..]
      && (temperature >= 0.5 || task.maxText <= 0 ==> context == [])
      && (temperature < 0.5 && task.maxText > 0 ==>
            && |context| <= task.maxText && |context| <= task.textContext / 2
            && (|context| == |past| || |context| == task.maxText || |context| == task.textContext / 2))
  {
  }

  lemma {:induction false} PromptFilled(task: Task, past: seq<int>, temperatures: seq<real>, prompt: seq<int>)
    requires TaskOk(task) && IsPrompt(task, past, temperatures, prompt)
    ensures prompt != []
  {
    var k :| 0 <= k < |temperatures| && prompt == PromptOf(task, past, temperatures[k]);
    ContextCarried(task, past, temperatures[k], []);
  }

  /** Made for one of the temperatures. */
  ghost predicate IsPrompt(task: Task, past: seq<int>, temperatures: seq<real>, prompt: seq<int>) {
    exists k :: 0 <= k < |temperatures| && prompt == PromptOf(task, past, temperatures[k])
  }

  /** A window decoded: where it starts, the earlier text it may use, its prompt, and the decoder taken. */
  datatype Window = Window(start: int, past: seq<int>, prompt: seq<int>, best: Track)

  ghost predicate WindowOk(v: Vocab, p: Params, w: Window, start: int) {
    && w.start == start && Usable(v, p, w.best) && Covers(v, w.best)
    && (!w.best.failed ==> w.best.resultLen == |w.best.tokens|)
  }

  /** The next window starts where the best decoder's move ends; if that decoder's text ends in a single timestamp, this
      window is skipped to its end. */
  ghost predicate MovesTo(v: Vocab, w: Window, seekEnd: int, next: int) {
    var n := |w.best.tokens|;
    if n > 1 && w.best.tokens[n - 2] < v.beg && w.best.tokens[n - 1] > v.beg
    then next == w.start + 3000 <= seekEnd || (next == seekEnd && seekEnd <= w.start + 3000)
    else next == w.start + w.best.seekDelta
  }

  /** The next window may use the context that this one had, followed by its result, if it has one. */
  ghost predicate HandsOn(task: Task, temperatures: seq<real>, w: Window, past: seq<int>) {
    exists k :: 0 <= k < |temperatures| && w.prompt == PromptOf(task, w.past, temperatures[k])
      && PastAfter(task, temperatures[k], w, past)
  }

  ghost predicate PastAfter(task: Task, temperature: real, w: Window, past: seq<int>) {
    var context := Context(task, w.past, temperature);
    past == context || (w.best.resultLen <= |w.best.tokens| && past == context + w.best.tokens[..w.best.resultLen])
  }

  /** Behind the first window the last five seconds start from nothing. */
  ghost predicate Fresh(seekStart: int, seekEnd: int, start: int) {
    start > seekStart && seekEnd - start <= 500
  }

  /** Each window is followed by the next one, and the last by what is still to come. */
  ghost predicate Chained(v: Vocab, task: Task, temperatures: seq<real>, windows: seq<Window>, seekStart: int,
                          seekEnd: int, seek: int, past: seq<int>) {
    && (forall k :: 0 <= k < |windows| - 1 ==>
          Followed(v, task, temperatures, windows[k], windows[k + 1], seekStart, seekEnd))
    && (windows != [] ==>
          var last := windows[|windows| - 1];
          MovesTo(v, last, seekEnd, seek) && HandsOn(task, temperatures, last, past))
  }

  ghost predicate Followed(v: Vocab, task: Task, temperatures: seq<real>, w: Window, next: Window, seekStart: int,
                           seekEnd: int) {
    && MovesTo(v, w, seekEnd, next.start)
    && if Fresh(seekStart, seekEnd, next.start) then next.past == [] else HandsOn(task, temperatures, w, next.past)
  }

  lemma {:induction false} ChainedMore(v: Vocab, task: Task, temperatures: seq<real>, windows: seq<Window>,
                                       seekStart: int, seekEnd: int, seek: int, past: seq<int>, w: Window,
                                       next: int, past': seq<int>)
    requires Chained(v, task, temperatures, windows, seekStart, seekEnd, seek, past) && w.start == seek
    requires w.past == if Fresh(seekStart, seekEnd, seek) then [] else past
    requires MovesTo(v, w, seekEnd, next) && HandsOn(task, temperatures, w, past')
    ensures Chained(v, task, temperatures, windows + [w], seekStart, seekEnd, next, past')
  {
    hide MovesTo, HandsOn, Fresh;
    var all := windows + [w];
    forall k | 0 <= k < |all| - 1 ensures Followed(v, task, temperatures, all[k], all[k + 1], seekStart, seekEnd) {
      assert all[k] == windows[k];
      assert k + 1 < |windows| ==> all[k + 1] == windows[k + 1];
    }
  }

  lemma {:induction false} HandedOn(task: Task, temperatures: seq<real>, w: Window, result: seq<int>)
    requires TaskOk(task) && IsPrompt(task, w.past, temperatures, w.prompt)
    requires w.best.resultLen <= |w.best.tokens| && (result == [] || result == w.best.tokens[..w.best.resultLen])
    ensures w.prompt != [] && (w.prompt[0] == task.prev ==> |w.prompt| > |task.init|)
    ensures HandsOn(task, temperatures, w, CarriedOn(task, w.prompt, result))
  {
    var k :| 0 <= k < |temperatures| && w.prompt == PromptOf(task, w.past, temperatures[k]);
    ContextCarried(task, w.past, temperatures[k], result);
    var context := Context(task, w.past, temperatures[k]);
    assert context + [] == context;
    assert PastAfter(task, temperatures[k], w, CarriedOn(task, w.prompt, result));
  }

  // ---------------------------------------------------------------------------------------------
  // The loop over windows. What the sampler picks among the unmasked tokens, which decoder is best and
  // whether its result is good enough is left open.

  class Transcriber {
    const v: Vocab
    const p: Params
    const beams: bool
    var tracks: seq<Track>
    var prompt: seq<int>
    var past: seq<int>         // the text of earlier windows
    ghost var used: nat

    ghost predicate Valid()
      reads this
    {
      VocabOk(v) && used <= |tracks| && forall j :: 0 <= j < used ==> Usable(v, p, tracks[j])
    }

    constructor (v: Vocab, p: Params, beams: bool, decoders: seq<Track>)
      requires VocabOk(v)
      ensures Settled() && Ranked() && this.v == v && this.p == p && this.beams == beams && tracks == decoders
      ensures prompt == [] && past == []
    {
      this.v, this.p, this.beams, tracks, used := v, p, beams, decoders, 0;
      prompt, past := [], [];
    }

    ghost predicate Settled()
      reads this
    {
      Valid() && forall j :: 0 <= j < used ==> Covers(v, tracks[j])
    }

    /** Decoders that have not failed hold their result and nothing more. */
    ghost predicate Ranked()
      reads this
    {
      forall j :: 0 <= j < used && j < |tracks| && !tracks[j].failed ==> tracks[j].resultLen == |tracks[j].tokens|
    }

    /** All decoders that are still running have n tokens. */
    ghost predicate InRound(m: nat, n: nat)
      reads this
    {
      Settled() && m <= used && forall j :: 0 <= j < m ==> RunningInTime(v, tracks[j], n)
    }

    ghost predicate HalfRound(m: nat, n: nat)
      reads this
    {
      && Valid() && m <= used && (forall j :: 0 <= j < m && Running(tracks[j]) ==> Sampled(v, tracks[j], n))
      && forall j :: 0 <= j < used && (j >= m || !Running(tracks[j])) ==> Covers(v, tracks[j])
    }

    method Init(m: nat)
      requires Settled() && m <= |tracks|
      modifies this`tracks, this`used
      ensures InRound(m, 0) && |tracks| == old(|tracks|) && used == if m > old(used) then m else old(used)
      ensures forall j :: 0 <= j < |tracks| ==> tracks[j] == if j < m then START else old(tracks)[j]
    {
      for j := 0 to m
        invariant VocabOk(v) && |tracks| == old(|tracks|) && used == old(used)
        invariant forall k :: 0 <= k < |tracks| ==> tracks[k] == if k < j then START else old(tracks)[k]
      {
        tracks := tracks[j := START];
      }
      used := if m > used then m else used;
      StartUsable(v, p);
    }

    /** The tokens are those of a running decoder, without beams of this one, and one that is open for it. */
    ghost predicate GoesOn(before: seq<Track>, t: Track, m: nat, j: nat)
      requires m <= |before|
    {
      exists from: nat, id: int ::
        && from < m && Running(before[from]) && (beams || from == j) && Allowed(v, p, before[from], id)
        && t == before[from].(tokens := before[from].tokens + [id])
    }

    /** No token is open. */
    ghost predicate Stuck(before: seq<Track>, m: nat, j: nat)
      requires m <= |before|
    {
      forall from: nat, id: int :: from < m && Running(before[from]) && (beams || from == j) ==>
        !Allowed(v, p, before[from], id)
    }

    lemma {:induction false} NoneOpen(before: seq<Track>, m: nat, j: nat)
      requires m <= |before|
      requires !exists from: int, id: int ::
        && 0 <= from < m && Running(before[from]) && (beams || from == j)
        && 0 <= id < v.size && Allowed(v, p, before[from], id)
      ensures Stuck(before, m, j)
    {
    }

    lemma {:induction false} Extends(before: seq<Track>, t: Track, m: nat, j: nat, from: nat, id: int)
      requires from < m <= |before| && Running(before[from]) && (beams || from == j) && Allowed(v, p, before[from], id)
      requires t == before[from].(tokens := before[from].tokens + [id])
      ensures GoesOn(before, t, m, j)
    {
    }

    /** Every running decoder takes a token from those unmasked, with beams as another decoder's
        continuation; false if there was none to take. */
    method Sample(m: nat, n: nat) returns (ok: bool)
      requires InRound(m, n)
      modifies this`tracks
      ensures Valid() && |tracks| == old(|tracks|) && (ok ==> HalfRound(m, n))
      ensures ok ==> forall j :: 0 <= j < m && Running(old(tracks)[j]) ==> GoesOn(old(tracks), tracks[j], m, j)
      ensures forall j :: 0 <= j < |tracks| && (j >= m || !Running(old(tracks)[j])) ==> tracks[j] == old(tracks)[j]
      ensures !ok ==> exists j :: 0 <= j < m && Running(old(tracks)[j]) && Stuck(old(tracks), m, j)
    {
      hide Usable, RunningInTime, Sampled, Allowed, Covers, GoesOn;
      var before := tracks;
      for j := 0 to m
        invariant Valid() && |tracks| == |before|
        invariant forall k :: j <= k < |tracks| ==> tracks[k] == before[k]
        invariant forall k :: 0 <= k < j && Running(tracks[k]) ==> Sampled(v, tracks[k], n)
        invariant forall k :: 0 <= k < used && (k >= j || !Running(tracks[k])) ==> Covers(v, tracks[k])
        invariant forall k :: 0 <= k < j && Running(before[k]) ==> GoesOn(before, tracks[k], m, k)
        invariant forall k :: 0 <= k < j && !Running(before[k]) ==> tracks[k] == before[k]
      {
        if Running(tracks[j]) {
          if from: int, id: int :|
            && 0 <= from < m && Running(before[from]) && (beams || from == j)
            && 0 <= id < v.size && Allowed(v, p, before[from], id) {
            assert RunningInTime(v, before[from], n);
            var t := before[from].(tokens := before[from].tokens + [id]);
            TakesToken(v, p, before[from], id, n);
            Extends(before, t, m, j, from, id);
            tracks := tracks[j := t];
          } else {
            NoneOpen(before, m, j);
            return false;
          }
        }
      }
      ok := true;
    }

    ghost predicate Accounted(before: Track, now: Track, i: nat, w: Span) {
      && now.tokens == before.tokens && |now.tokens| == i + 1
      && Outcome(v, p, Caught(v, before), now.tokens[i], i, w, now)
    }

    method UpdateAll(m: nat, i: nat, w: Span)
      requires HalfRound(m, i) && i < w.nMax
      modifies this`tracks
      ensures InRound(m, i + 1) && |tracks| == old(|tracks|)
      ensures forall j :: 0 <= j < m && Running(old(tracks)[j]) ==> Accounted(old(tracks)[j], tracks[j], i, w)
      ensures forall j :: 0 <= j < |tracks| && (j >= m || !Running(old(tracks)[j])) ==> tracks[j] == old(tracks)[j]
      ensures i + 1 == w.nMax ==> forall j :: 0 <= j < m ==> Finished(tracks[j])
    {
      hide Usable, RunningInTime, Covers, Outcome, Caught, WellTimed, Follows, EndsText;
      for j := 0 to m
        invariant Valid() && |tracks| == old(|tracks|)
        invariant forall k :: 0 <= k < j && Running(old(tracks)[k]) ==> Accounted(old(tracks)[k], tracks[k], i, w)
        invariant forall k ::
          0 <= k < |tracks| && (k >= j || !Running(old(tracks)[k])) ==> tracks[k] == old(tracks)[k]
        invariant
          forall k :: 0 <= k < j ==> RunningInTime(v, tracks[k], i + 1) && (i + 1 == w.nMax ==> Finished(tracks[k]))
        invariant forall k :: j <= k < m && Running(tracks[k]) ==> Sampled(v, tracks[k], i)
        invariant forall k :: 0 <= k < used && (k < j || k >= m || !Running(tracks[k])) ==> Covers(v, tracks[k])
      {
        if Running(tracks[j]) {
          var t := Update(v, p, tracks[j], i, w);
          tracks := tracks[j := t];
        } else {
          NotRunning(v, tracks[j], i + 1);
        }
      }
    }

    /** Up to nMax rounds at one temperature. */
    method DecodeRounds(m: nat, w: Span) returns (ok: bool)
      requires Settled() && 0 < m <= |tracks|
      modifies this`tracks, this`used
      ensures Valid() && (ok ==> Settled()) && |tracks| == old(|tracks|)
      ensures used == if m > old(used) then m else old(used)
      ensures forall j :: m <= j < |tracks| ==> tracks[j] == old(tracks)[j]
      ensures ok && 0 < w.nMax ==> forall j :: 0 <= j < m ==> Finished(tracks[j])
    {
      hide Usable, RunningInTime, Finished, Covers, GoesOn, Stuck, Accounted, Sampled;
      Init(m);
      for i := 0 to w.nMax
        invariant InRound(m, i) && |tracks| == old(|tracks|) && used == if m > old(used) then m else old(used)
        invariant forall j :: m <= j < |tracks| ==> tracks[j] == old(tracks)[j]
        invariant 0 < i == w.nMax ==> forall j :: 0 <= j < m ==> Finished(tracks[j])
      {
        var sampled := Sample(m, i);
        if !sampled {
          return false;
        }
        UpdateAll(m, i, w);
        if forall j :: 0 <= j < m ==> !Running(tracks[j]) {
          forall j | 0 <= j < m ensures Finished(tracks[j]) {
            IsFinished(tracks[j]);
          }
          return true;
        }
      }
      ok := true;
    }

    /** The tokens of a decoder that did not fail are cut to its result; it may be failed for being too repetitive. */
    ghost predicate CutOff(before: Track, now: Track, ranked: bool) {
      if before.failed || !ranked then now == before
      else
        && before.resultLen <= |before.tokens|
        && now == before.(tokens := before.tokens[..before.resultLen], failed := now.failed)
    }

    /** Cuts the results off behind the last timestamp and picks the best decoder of those not failed. */
    method Rank(m: nat, best0: nat) returns (best: nat)
      requires Settled() && m <= used && best0 < used
      modifies this`tracks
      ensures Settled() && |tracks| == old(|tracks|) && best < used
      ensures forall j :: 0 <= j < m && !tracks[j].failed ==> tracks[j].resultLen == |tracks[j].tokens|
      ensures forall j :: 0 <= j < |tracks| ==> CutOff(old(tracks)[j], tracks[j], j < m)
      ensures best == best0 || (best < m && !tracks[best].failed)
    {
      hide WellTimed, Stamp;
      best := best0;
      for j := 0 to m
        invariant Settled() && |tracks| == old(|tracks|) && best < used
        invariant forall k :: 0 <= k < j && !tracks[k].failed ==> tracks[k].resultLen == |tracks[k].tokens|
        invariant forall k :: 0 <= k < |tracks| ==> CutOff(old(tracks)[k], tracks[k], k < j)
        invariant best == best0 || (best < j && !tracks[best].failed)
      {
        if !tracks[j].failed {
          var t := tracks[j];
          WellTimedPrefix(v, t.tokens, t.resultLen);
          StampOfPrefix(v, t.tokens, t.resultLen);
          tracks := tracks[j := t.(tokens := t.tokens[..t.resultLen])];
          if * {
            tracks := tracks[j := tracks[j].(failed := true)];    // too repetitive
          } else if * {
            best := j;
          }
        }
      }
    }

    /** One window: tries temperature after temperature until a result is good enough. */
    method DecodeWindow(temperatures: seq<real>, w: Span, task: Task) returns (ok: bool, best: nat)
      requires Settled() && Ranked() && 0 < |tracks|
      modifies this`tracks, this`used, this`prompt
      ensures ok ==> Ranked()
      ensures Valid() && |tracks| == old(|tracks|) && (ok ==> Settled() && (temperatures != [] ==> best < used))
      ensures if temperatures == [] then ok && prompt == old(prompt) else IsPrompt(task, past, temperatures, prompt)
    {
      hide Usable, Covers, PromptOf;
      best := 0;
      for it := 0 to |temperatures|
        invariant Settled() && |tracks| == old(|tracks|) && (it > 0 ==> best < used) && (it == 0 ==> best == 0)
        invariant Ranked()
        invariant if it == 0 then prompt == old(prompt) else IsPrompt(task, past, temperatures, prompt)
      {
        prompt := PromptOf(task, past, temperatures[it]);
        var m: nat :| 0 < m <= |tracks|;
        ok := DecodeRounds(m, w);
        if !ok {
          return;
        }
        best := Rank(m, best);
        if * {
          return;
        }
      }
      ok := true;
    }

    /** The main loop ends, and every window starts at least 20 ms behind the one before. The prompt is asked for its
        first token after every window; it has none exactly if no temperature has filled it. */
    method Run(seekStart: int, seekEnd: int, nMax: nat, temperature: real, increment: real, task: Task)
      returns (starts: seq<int>, seek: int, ending: Ending, ghost windows: seq<Window>, ghost carried: seq<int>)
      requires Settled() && Ranked() && 0 < |tracks| && TaskOk(task)
      modifies this
      ensures Valid()
      ensures |windows| <= |starts| <= |windows| + 1
      ensures ending == AtEnd ==> |windows| == |starts| && past == carried
      ensures forall k :: 0 <= k < |windows| ==> WindowOk(v, p, windows[k], starts[k])
      ensures Chained(v, task, TemperaturesOf(temperature, increment), windows, seekStart, seekEnd, seek, carried)
      ensures if windows == [] then carried == old(past) else windows[0].past == old(past)
      ensures forall k :: 0 <= k < |starts| ==> seekStart <= starts[k] < seekEnd - 10
      ensures forall k :: 0 <= k < |starts| - 1 ==> starts[k] + 2 <= starts[k + 1]
      ensures if starts == [] then seek == seekStart else starts[0] == seekStart && starts[|starts| - 1] <= seek
      ensures ending == AtEnd ==> seek + 10 >= seekEnd
      ensures ending == EmptyPrompt <==> starts != [] && increment > 0.0 && temperature >= 1.000001
    {
      hide Usable, Covers, PromptOf, CarriedOn, Chained, HandsOn, IsPrompt, TemperaturesOf;
      starts, seek, prompt, windows, carried := [], seekStart, [], [], past;
      NothingChained(v, task, TemperaturesOf(temperature, increment), seekStart, seekEnd, seek, past);
      var temperatures := ListTemperatures(temperature, increment);
      NoTemperatures(temperature, increment);
      while true
        invariant Settled() && (if starts == [] then seek == seekStart else starts[0] == seekStart)
        invariant Settled() && 0 < |tracks| && seekStart <= seek && (starts != [] ==> temperatures != [])
        invariant Ranked() && (temperatures == [] ==> prompt == []) && |windows| == |starts| && past == carried
        invariant forall k :: 0 <= k < |windows| ==> WindowOk(v, p, windows[k], starts[k])
        invariant Chained(v, task, temperatures, windows, seekStart, seekEnd, seek, carried)
        invariant if windows == [] then carried == old(past) else windows[0].past == old(past)
        invariant forall k :: 0 <= k < |starts| ==> seekStart <= starts[k] < seekEnd - DELTA_MIN
        invariant forall k :: 0 <= k < |starts| - 1 ==> starts[k] + 2 <= starts[k + 1]
        invariant |starts| > 0 ==> starts[|starts| - 1] + 2 <= seek
        decreases seekEnd - seek
      {
        if seek + DELTA_MIN >= seekEnd {
          ending := AtEnd;
          return;
        }
        if * {
          ending := Stopped;    // the caller's callback ends it
          return;
        }
        starts := starts + [seek];
        if seek > seekStart && seek + SHORT_REST >= seekEnd {
          past := [];
        }
        var ok, best := DecodeWindow(temperatures, Span(seek, seekEnd, nMax), task);
        if !ok {
          ending := Stopped;
          return;
        }
        if temperatures != [] {
          PromptFilled(task, past, temperatures, prompt);
        }
        if prompt == [] {
          ending := EmptyPrompt;
          return;
        }
        var t := tracks[best];
        Moves(v, p, t);
        var noSpeech: bool :| true;
        var result := if noSpeech then [] else t.tokens[..t.resultLen];
        ghost var w := Window(seek, past, prompt, t);
        HandedOn(task, temperatures, w, result);
        past := CarriedOn(task, prompt, result);
        var seekDelta: int := t.seekDelta;
        if SingleTimestampEnding(v, t.tokens) {
          seekDelta := if seekEnd - seek < CHUNK then seekEnd - seek else CHUNK;
        }
        ChainedMore(v, task, temperatures, windows, seekStart, seekEnd, seek, carried, w, seek + seekDelta, past);
        seek, windows, carried := seek + seekDelta, windows + [w], past;
      }
    }
  }

  lemma {:induction false} NothingChained(v: Vocab, task: Task, temperatures: seq<real>, seekStart: int, seekEnd: int,
                                          seek: int, past: seq<int>)
    ensures Chained(v, task, temperatures, [], seekStart, seekEnd, seek, past)
  {
  }

  predicate SingleTimestampEnding(v: Vocab, tokens: seq<int>) {
    |tokens| > 1 && tokens[|tokens| - 2] < v.beg && tokens[|tokens| - 1] > v.beg
  }

  /** At the end of its rounds a decoder has failed, has completed, or has a result of at least half a window. */
  predicate Finished(t: Track) {
    Running(t) ==> t.resultLen > 0 && t.seekDelta >= CHUNK / 2
  }

  lemma {:induction false} IsFinished(t: Track)
    requires !Running(t)
    ensures Finished(t)
  {
  }

  lemma {:induction false} NotRunning(v: Vocab, t: Track, n: nat)
    requires !Running(t)
    ensures RunningInTime(v, t, n) && Finished(t)
  {
  }

  lemma {:induction false} Moves(v: Vocab, p: Params, t: Track)
    requires Usable(v, p, t)
    ensures t.seekDelta >= 2 && t.resultLen <= |t.tokens|
  {
  }

  lemma {:induction false} StampOfPrefix(v: Vocab, tokens: seq<int>, n: nat)
    requires WellTimed(v, tokens) && n <= |tokens|
    ensures Stamp(v, tokens[..n]) <= Stamp(v, tokens)
  {
    WellTimedPrefix(v, tokens, n);
    StampIsLargest(v, tokens[..n]);
    StampIsLargest(v, tokens);
    hide WellTimed;
    if Stamp(v, tokens[..n]) > v.beg {
      var a :| 0 <= a < n && tokens[..n][a] == Stamp(v, tokens[..n]);
      assert tokens[a] == Stamp(v, tokens[..n]);
    }
  }

  /** Whatever decoder is best, its tokens can be cut into segments. */
  lemma {:induction false} ReadyToEmit(p: Params, t: Track, c: Segments.Source)
    requires VocabOk(c.v) && Usable(c.v, p, t) && Covers(c.v, t) && Segments.Ids(c.tokens) == t.tokens
      && c.seekDelta == t.seekDelta
    requires forall k :: 0 <= k < |c.tokens| ==> Segments.Timed(c.v, c.tokens[k])
    ensures Segments.SourceOk(c)
  {
    hide WellTimed, Stamp;
  }

  lemma {:induction false} StartUsable(v: Vocab, p: Params)
    ensures Usable(v, p, START) && RunningInTime(v, START, 0) && Covers(v, START)
  {
  }

  lemma {:induction false} TakesToken(v: Vocab, p: Params, t: Track, id: int, n: nat)
    requires RunningInTime(v, t, n) && Running(t) && Allowed(v, p, t, id) && Usable(v, p, t)
    ensures var r := t.(tokens := t.tokens + [id]); Sampled(v, r, n) && Usable(v, p, r) && Running(r)
  {
    TakeToken(v, p, t, id);
    hide WellTimed, Follows, Allowed;
  }
}
