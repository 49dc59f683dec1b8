/** Exactly when all windows of speech end up in a segment. */
module VadCoverage {
  import Arith
  import opened Sequences
  import opened VadSegments

  // ---------------------------------------------------------------------------------------------
  // Where a window of speech gets to in the scan

  /** Every sample of window w is in a segment. */
  ghost predicate WindowInside(speeches: seq<Speech>, p: Params, w: nat) {
    forall s :: At(p, w) <= s < At(p, w + 1) ==> Inside(speeches, s)
  }

  /** Window w belongs to a run that was dropped for being too short; it may be the window that ended it. */
  ghost predicate Excused(dropped: seq<Speech>, s: int) {
    exists k :: 0 <= k < |dropped| && dropped[k].start <= s <= dropped[k].end
  }

  /** The segment ends where this window begins. */
  ghost predicate CutOff(speeches: seq<Speech>, s: int) {
    exists k :: 0 <= k < |speeches| && speeches[k].end == s
  }

  ghost predicate Accounted(t: Track, p: Params, w: nat) {
    || WindowInside(t.speeches, p, w) || Excused(t.dropped, At(p, w)) || CutOff(t.speeches, At(p, w))
    || (t.run.Running? && t.run.start <= At(p, w) && (t.run.silence == 0 || At(p, w) <= t.run.silence))
  }

  ghost predicate AllAccounted(t: Track, probs: seq<real>, p: Params, n: nat) {
    n <= |probs| && forall w: nat :: w < n && probs[w] >= p.threshold ==> Accounted(t, p, w)
  }

  lemma {:induction false} GridNext(p: Params, s: int, w: nat)
    requires p.window > 0 && OnGrid(p, s) && At(p, w) < s
    ensures At(p, w + 1) <= s
  {
    var e: nat :| At(p, e) == s;
    AtOrder(p, w, e);
    AtOrder(p, e, w + 1);
  }

  lemma {:induction false} InsideLast(speeches: seq<Speech>, r: Speech, p: Params, w: nat)
    ensures WindowInside(speeches, p, w) ==> WindowInside(speeches + [r], p, w)
    ensures r.start <= At(p, w) && At(p, w + 1) <= r.end ==> WindowInside(speeches + [r], p, w)
  {
    forall s | At(p, w) <= s < At(p, w + 1) && (Inside(speeches, s) || r.start <= s < r.end)
      ensures Inside(speeches + [r], s)
    {
      InsideMore(speeches, r, s);
    }
  }

  lemma {:induction false} MarksMore(speeches: seq<Speech>, r: Speech, s: int)
    ensures CutOff(speeches, s) || s == r.end ==> CutOff(speeches + [r], s)
    ensures Excused(speeches, s) || r.start <= s <= r.end ==> Excused(speeches + [r], s)
  {
    var all := speeches + [r];
    assert all[|speeches|] == r;
    if CutOff(speeches, s) {
      var k :| 0 <= k < |speeches| && speeches[k].end == s;
      assert all[k] == speeches[k];
    }
    if Excused(speeches, s) {
      var k :| 0 <= k < |speeches| && speeches[k].start <= s <= speeches[k].end;
      assert all[k] == speeches[k];
    }
  }

  /** A run that ends accounts for its windows up to its end. */
  lemma {:induction false} EndAccounts(t: Track, start: int, end: int, p: Params, w: nat)
    requires p.window > 0 && OnGrid(p, end)
    requires Accounted(t.(run := Idle), p, w) || start <= At(p, w) <= end
    ensures Accounted(Ended(t, start, end, p), p, w)
  {
    var r := Speech(start, end);
    InsideLast(t.speeches, r, p, w);
    MarksMore(t.speeches, r, At(p, w));
    MarksMore(t.dropped, r, At(p, w));
    if start <= At(p, w) < end {
      GridNext(p, end, w);
    }
    hide WindowInside, Excused, CutOff, OnGrid, At;
  }

  lemma {:induction false} AccountedStep(t: Track, probs: seq<real>, p: Params, n: nat, w: nat)
    requires p.window > 0 && n < |probs| && TrackOk(t, p, n) && AllAccounted(t, probs, p, n)
    requires w <= n && probs[w] >= p.threshold
    ensures Accounted(Next(t, probs[n], At(p, n), p), p, w)
  {
    hide WindowInside, Excused, CutOff, At;
    AtOrder(p, w, n);
    assert OnGrid(p, At(p, n));
    assert w < n ==> Accounted(t, p, w);
    var next := Next(t, probs[n], At(p, n), p);
    if t.run.Running? && next.run.Idle? {
      var silence := if probs[n] >= p.threshold then 0 else t.run.silence;
      var end := if silence != 0 then silence else At(p, n);
      EndAccounts(t, t.run.start, end, p, w);
    }
    hide OnGrid;
  }

  // ---------------------------------------------------------------------------------------------
  // What is known of a run that was ended by silence

  /** The run ends at window e, and window c closes it. */
  ghost predicate Closing(r: Speech, probs: seq<real>, p: Params, e: nat, c: nat) {
    && e <= c < |probs| && At(p, e) == r.end && probs[e] < NegThreshold(p)
    && At(p, c) - r.end >= p.minSilence && At(p, c) - r.start <= p.maxSpeech
  }

  ghost predicate ClosedBySilence(r: Speech, probs: seq<real>, p: Params) {
    OnGrid(p, r.start) && r.end - r.start > p.minSpeech && exists e: nat, c: nat :: Closing(r, probs, p, e, c)
  }

  /** Between two runs there are at least the silence that ended the first and one more window. */
  ghost predicate Spaced(speeches: seq<Speech>, p: Params) {
    forall k :: 0 <= k < |speeches| - 1 ==> speeches[k + 1].start >= speeches[k].end + p.minSilence + p.window
  }

  ghost predicate NotBefore(speeches: seq<Speech>, p: Params, s: int) {
    speeches != [] ==> s >= speeches[|speeches| - 1].end + p.minSilence + p.window
  }

  ghost predicate NotedSilence(run: Run, probs: seq<real>, p: Params) {
    run.Running? && run.silence != 0 ==> exists e: nat :: SilentAt(probs, p, e, run.silence)
  }

  ghost predicate SilentAt(probs: seq<real>, p: Params, e: nat, s: int) {
    e < |probs| && At(p, e) == s && probs[e] < NegThreshold(p)
  }

  ghost predicate AllClosed(t: Track, probs: seq<real>, p: Params, n: nat) {
    && (forall k :: 0 <= k < |t.speeches| ==> ClosedBySilence(t.speeches[k], probs, p))
    && Spaced(t.speeches, p) && NotedSilence(t.run, probs, p)
    && NotBefore(t.speeches, p, if t.run.Running? then t.run.start else At(p, n))
  }

  lemma {:induction false} ClosedStep(t: Track, probs: seq<real>, p: Params, n: nat)
    requires p.window > 0 && n < |probs| && TrackOk(t, p, n) && AllClosed(t, probs, p, n) && !Exceeds(t, At(p, n), p)
    ensures AllClosed(Next(t, probs[n], At(p, n), p), probs, p, n + 1)
  {
    AtNext(p, n);
    var next := Next(t, probs[n], At(p, n), p);
    if t.run.Running? && probs[n] < NegThreshold(p) {
      assert SilentAt(probs, p, n, At(p, n));
      var silence := if probs[n] >= p.threshold then 0 else t.run.silence;
      var end := if silence != 0 then silence else At(p, n);
      if next.run.Idle? && end - t.run.start > p.minSpeech {
        ClosedNow(t, probs, p, n, end);
      }
    }
    hide ClosedBySilence, OnGrid, SilentAt, At, NegThreshold;
  }

  lemma {:induction false} ClosedNow(t: Track, probs: seq<real>, p: Params, n: nat, end: int)
    requires p.window > 0 && n < |probs| && TrackOk(t, p, n) && !Exceeds(t, At(p, n), p) && t.run.Running?
    requires end - t.run.start > p.minSpeech && At(p, n) - end >= p.minSilence
    requires exists e: nat :: SilentAt(probs, p, e, end)
    ensures ClosedBySilence(Speech(t.run.start, end), probs, p)
  {
    var e: nat :| SilentAt(probs, p, e, end);
    AtOrder(p, n, e);
    assert Closing(Speech(t.run.start, end), probs, p, e, n);
  }

  // ---------------------------------------------------------------------------------------------
  // The whole scan

  lemma {:induction false} ScanAccounts(probs: seq<real>, p: Params, n: nat)
    requires n <= |probs| && p.window > 0 && !Overlong(probs, p, n)
    ensures var t := Heard(probs, p, n); TrackOk(t, p, n) && AllAccounted(t, probs, p, n) && AllClosed(t, probs, p, n)
  {
    hide Next, TrackOk, AllClosed, Accounted, Exceeds, Overlong;
    if n == 0 {
      ScanStarts(probs, p);
    } else {
      OverlongStep(probs, p, n - 1);
      ScanAccounts(probs, p, n - 1);
      var t := Heard(probs, p, n - 1);
      TrackOkStep(t, probs[n - 1], p, n - 1);
      ClosedStep(t, probs, p, n - 1);
      forall w: nat | w < n && probs[w] >= p.threshold ensures Accounted(Heard(probs, p, n), p, w) {
        AccountedStep(t, probs, p, n - 1, w);
      }
    }
  }

  lemma {:induction false} ScanStarts(probs: seq<real>, p: Params)
    ensures var t := Heard(probs, p, 0); TrackOk(t, p, 0) && AllAccounted(t, probs, p, 0) && AllClosed(t, probs, p, 0)
  {
  }

  ghost predicate SegmentOk(r: Speech, probs: seq<real>, p: Params) {
    && r.end - r.start > p.minSpeech && OnGrid(p, r.start) && OnGrid(p, r.end) && 0 <= r.start
         && r.end <= At(p, |probs|)
    && (r.end < At(p, |probs|) ==> ClosedBySilence(r, probs, p))
  }

  /** The segments found are runs ended by silence, except one that the end of the audio may have cut. */
  ghost predicate FoundOk(found: seq<Speech>, probs: seq<real>, p: Params) {
    (forall k :: 0 <= k < |found| ==> SegmentOk(found[k], probs, p)) && Spaced(found, p)
  }

  /** As long as no run gets too long, every window of speech is in a segment as a whole, or its run was too short,
      or it is the window at the end of a segment. */
  lemma {:induction false} FoundOrCut(probs: seq<real>, p: Params, w: nat)
    requires p.window > 0 && !Overlong(probs, p, |probs|) && w < |probs| && probs[w] >= p.threshold
    ensures var t := HeardAll(probs, p);
      WindowInside(t.speeches, p, w) || Excused(t.dropped, At(p, w)) || CutOff(t.speeches, At(p, w))
  {
    ScanAccounts(probs, p, |probs|);
    AtOrder(p, w, |probs|);
    var t := Heard(probs, p, |probs|);
    assert OnGrid(p, At(p, |probs|)) && Accounted(t, p, w);
    hide Heard, WindowInside, Excused, CutOff, AllClosed, OnGrid;
    if t.run.Running? {
      EndAccounts(t, t.run.start, At(p, |probs|), p, w);
    }
  }

  lemma {:induction false} AllFoundOk(probs: seq<real>, p: Params)
    requires p.window > 0 && !Overlong(probs, p, |probs|)
    ensures FoundOk(HeardAll(probs, p).speeches, probs, p)
  {
    hide Heard, AllAccounted, ClosedBySilence, OnGrid, At, TrackOk, Overlong, NotedSilence;
    var t := Heard(probs, p, |probs|);
    ScanAccounts(probs, p, |probs|);
    HeardNatural(probs, p, |probs|);
    forall k | 0 <= k < |t.speeches| ensures SegmentOk(t.speeches[k], probs, p) {
      ClosedAt(t.speeches[k], probs, p);
    }
    LastOk(t, probs, p);
  }

  lemma {:induction false} LastOk(t: Track, probs: seq<real>, p: Params)
    requires TrackOk(t, p, |probs|)
    ensures t.run.Running? && At(p, |probs|) - t.run.start > p.minSpeech ==>
      SegmentOk(Speech(t.run.start, At(p, |probs|)), probs, p)
  {
    assert OnGrid(p, At(p, |probs|));
    hide OnGrid, At, ClosedBySilence;
  }

  lemma {:induction false} ClosedAt(r: Speech, probs: seq<real>, p: Params)
    requires p.window > 0 && ClosedBySilence(r, probs, p)
    ensures r.end - r.start > p.minSpeech && OnGrid(p, r.start) && OnGrid(p, r.end) && r.end < At(p, |probs|)
  {
    var e: nat, c: nat :| Closing(r, probs, p, e, c);
    AtOrder(p, e, |probs|);
  }

  lemma {:induction false} HeardNatural(probs: seq<real>, p: Params, n: nat)
    requires n <= |probs| && p.window > 0
    ensures TrackOk(Heard(probs, p, n), p, n) && AllNatural(Heard(probs, p, n).speeches)
  {
    if n > 0 {
      HeardNatural(probs, p, n - 1);
      TrackOkStep(Heard(probs, p, n - 1), probs[n - 1], p, n - 1);
      hide OnGrid;
    }
  }

  ghost predicate AllNatural(speeches: seq<Speech>) {
    forall k :: 0 <= k < |speeches| ==> 0 <= speeches[k].start
  }

  // ---------------------------------------------------------------------------------------------
  // Closing gaps and padding

  /** Piece j of the first n segments, merged, is made of the segments from a up to c. */
  ghost predicate Piece(closed: seq<Speech>, found: seq<Speech>, n: nat, j: nat, a: nat, c: nat) {
    && j < |closed| && a < c <= n <= |found| && closed[j] == Speech(found[a].start, found[c - 1].end)
    && (j == 0 ==> a == 0) && (c < n ==> found[c].start - found[c - 1].end >= MERGE_GAP)
  }

  ghost function Upto(cuts: seq<nat>, j: nat, n: nat): nat {
    if j + 1 < |cuts| then cuts[j + 1] else n
  }

  ghost predicate PieceAt(closed: seq<Speech>, found: seq<Speech>, n: nat, cuts: seq<nat>, j: nat) {
    j < |cuts| && Piece(closed, found, n, j, cuts[j], Upto(cuts, j, n))
  }

  /** The pieces start at the segments given by cuts. */
  ghost predicate CutsOk(closed: seq<Speech>, found: seq<Speech>, n: nat, cuts: seq<nat>) {
    && |cuts| == |closed| && (cuts == [] <==> n == 0)
    && forall j :: 0 <= j < |cuts| ==> PieceAt(closed, found, n, cuts, j)
  }

  lemma {:induction false} CutNext(closed: seq<Speech>, found: seq<Speech>, n: nat, cuts: seq<nat>)
    returns (more: seq<nat>)
    requires CutsOk(closed, found, n, cuts) && n < |found|
    ensures CutsOk(Joined(closed, found[n]), found, n + 1, more)
  {
    var m, now, next := |cuts|, Joined(closed, found[n]), n + 1;
    more := if m > 0 && found[n].start - closed[m - 1].end < MERGE_GAP then cuts else cuts + [n];
    forall j | 0 <= j < |more| ensures PieceAt(now, found, next, more, j) {
      if j < m {
        assert PieceAt(closed, found, n, cuts, j);
        assert j + 1 < m ==> PieceAt(closed, found, n, cuts, j + 1);
      }
    }
  }

  lemma {:induction false} CloseOnCuts(closed: seq<Speech>, found: seq<Speech>, n: nat, cuts: seq<nat>)
    returns (all: seq<nat>)
    requires CutsOk(closed, found, n, cuts) && n <= |found|
    ensures CutsOk(CloseOn(closed, found[n..]), found, |found|, all)
    decreases |found| - n
  {
    hide Joined, CutsOk;
    if n < |found| {
      var more := CutNext(closed, found, n, cuts);
      assert found[n..][1..] == found[n + 1..];
      all := CloseOnCuts(Joined(closed, found[n]), found, n + 1, more);
    } else {
      all := cuts;
    }
  }

  /** The piece that segment k got into. */
  lemma {:induction false} PieceOf(closed: seq<Speech>, found: seq<Speech>, cuts: seq<nat>, k: nat, n: nat)
    returns (j: nat)
    requires CutsOk(closed, found, |found|, cuts) && n < |cuts| && k < Upto(cuts, n, |found|)
    ensures j < |cuts| && cuts[j] <= k < Upto(cuts, j, |found|)
    ensures Piece(closed, found, |found|, j, cuts[j], Upto(cuts, j, |found|))
  {
    j := n;
    assert PieceAt(closed, found, |found|, cuts, n);
    if cuts[n] > k {
      j := PieceOf(closed, found, cuts, k, n - 1);
    }
  }

  lemma {:induction false} FoundAscends(found: seq<Speech>, probs: seq<real>, p: Params, i: nat, j: nat)
    requires FoundOk(found, probs, p) && i < j < |found|
    ensures found[i].end + p.minSilence + p.window <= found[j].start < found[j].end
    decreases j
  {
    assert SegmentOk(found[j], probs, p);
    if i < j - 1 {
      FoundAscends(found, probs, p, i, j - 1);
    }
    hide SegmentOk;
    assert found[j].start >= found[j - 1].end + p.minSilence + p.window;
  }

  /** A piece lies within the audio, and the gap behind it is on the grid and at least a window wide. */
  ghost predicate PieceOk(closed: seq<Speech>, p: Params, length: int, j: nat)
    requires j < |closed|
  {
    && 0 <= closed[j].start < closed[j].end <= length && OnGrid(p, closed[j].end)
    && (j + 1 < |closed| ==>
          && closed[j + 1].start - closed[j].end >= p.minSilence + p.window
               && closed[j + 1].start - closed[j].end >= MERGE_GAP
          && OnGrid(p, closed[j + 1].start))
  }

  lemma {:induction false} PieceFits(closed: seq<Speech>, found: seq<Speech>, probs: seq<real>, p: Params,
                                     cuts: seq<nat>, j: nat)
    requires FoundOk(found, probs, p) && CutsOk(closed, found, |found|, cuts) && j < |cuts|
    ensures PieceOk(closed, p, At(p, |probs|), j)
  {
    hide OnGrid, ClosedBySilence, At;
    var a, c := cuts[j], Upto(cuts, j, |found|);
    assert PieceAt(closed, found, |found|, cuts, j);
    assert j + 1 < |cuts| ==> PieceAt(closed, found, |found|, cuts, j + 1);
    hide CutsOk;
    assert SegmentOk(found[a], probs, p) && SegmentOk(found[c - 1], probs, p);
    assert c < |found| ==> SegmentOk(found[c], probs, p);
    if a < c - 1 {
      FoundAscends(found, probs, p, a, c - 1);
    }
  }

  lemma {:induction false} PiecesFit(found: seq<Speech>, probs: seq<real>, p: Params) returns (cuts: seq<nat>)
    requires FoundOk(found, probs, p)
    ensures CutsOk(Closed(found), found, |found|, cuts)
    ensures forall j :: 0 <= j < |Closed(found)| ==> PieceOk(Closed(found), p, At(p, |probs|), j)
  {
    hide FoundOk, PieceOk, Piece;
    assert found[0..] == found;
    cuts := CloseOnCuts([], found, 0, []);
    forall j | 0 <= j < |Closed(found)| ensures PieceOk(Closed(found), p, At(p, |probs|), j) {
      PieceFits(Closed(found), found, probs, p, cuts, j);
    }
  }

  /** Padding leaves no sample of the window behind a segment out, unless an odd gap of one window is halved. */
  ghost predicate PadCovers(p: Params) {
    p.pad >= p.window && !(p.minSilence == 0 && p.window % 2 == 1 && p.window >= MERGE_GAP)
  }

  lemma {:induction false} OneWindow(p: Params, x: int, y: int)
    requires p.window > 0 && OnGrid(p, x) && OnGrid(p, y) && p.window <= y - x < 2 * p.window
    ensures y - x == p.window
  {
    var a: nat, b: nat :| At(p, a) == x && At(p, b) == y;
    AtNext(p, a);
    AtNext(p, a + 1);
    AtOrder(p, b, a + 2);
    AtOrder(p, a, b);
    AtOrder(p, a + 1, b);
  }

  /** The samples within a window behind piece j. */
  lemma {:induction false} BehindPiece(closed: seq<Speech>, p: Params, length: int, j: nat, s: int)
    requires
      p.window > 0 && PadCovers(p) && j < |closed| && forall i :: 0 <= i < |closed| ==> PieceOk(closed, p, length, i)
    requires closed[j].end <= s < closed[j].end + p.window <= length
    ensures Inside(Padded(closed, p, length), s)
  {
    var now := Padded(closed, p, length);
    hide OnGrid;
    assert PieceOk(closed, p, length, j) && (j > 0 ==> PieceOk(closed, p, length, j - 1));
    assert now[j] == PaddedOne(closed, p, length, j);
    if s < now[j].end {
      assert now[j].start <= s;
    } else {
      assert j + 1 < |closed| && PieceOk(closed, p, length, j + 1);
      assert now[j + 1] == PaddedOne(closed, p, length, j + 1);
      var gap := closed[j + 1].start - closed[j].end;
      if gap < 2 * p.window {
        OneWindow(p, closed[j].end, closed[j + 1].start);
      }
      assert now[j + 1].start <= s < now[j + 1].end;
    }
  }

  lemma {:induction false} PieceInside(closed: seq<Speech>, p: Params, length: int, j: nat, s: int)
    requires j < |closed| && forall i :: 0 <= i < |closed| ==> PieceOk(closed, p, length, i)
    requires closed[j].start <= s < closed[j].end
    ensures Inside(Padded(closed, p, length), s)
  {
    var now := Padded(closed, p, length);
    hide OnGrid;
    assert PieceOk(closed, p, length, j) && (j > 0 ==> PieceOk(closed, p, length, j - 1));
    assert now[j] == PaddedOne(closed, p, length, j);
    assert now[j].start <= s < now[j].end;
  }

  /** The piece of the merged segments that holds segment k. */
  lemma {:induction false} PieceWith(found: seq<Speech>, probs: seq<real>, p: Params, k: nat) returns (j: nat)
    requires FoundOk(found, probs, p) && k < |found|
    ensures forall i :: 0 <= i < |Closed(found)| ==> PieceOk(Closed(found), p, At(p, |probs|), i)
    ensures j < |Closed(found)| && Closed(found)[j].start <= found[k].start
    ensures found[k].end == Closed(found)[j].end || found[k].end + p.window <= Closed(found)[j].end
  {
    hide Closed, FoundOk, PieceOk;
    var cuts := PiecesFit(found, probs, p);
    j := PieceOf(Closed(found), found, cuts, k, |cuts| - 1);
    hide CutsOk;
    var a, c := cuts[j], Upto(cuts, j, |found|);
    hide Upto;
    if a < k {
      SegmentForward(found, probs, p, a);
      FoundAscends(found, probs, p, a, k);
    }
    if k < c - 1 {
      FoundAscends(found, probs, p, k, c - 1);
    }
  }

  lemma {:induction false} SegmentForward(found: seq<Speech>, probs: seq<real>, p: Params, k: nat)
    requires FoundOk(found, probs, p) && k < |found|
    ensures 0 <= found[k].start < found[k].end
  {
    assert SegmentOk(found[k], probs, p);
  }

  lemma {:induction false} CutOffCovered(found: seq<Speech>, probs: seq<real>, p: Params, k: nat, w: nat)
    requires
      p.window > 0 && FoundOk(found, probs, p) && k < |found| && found[k].end == At(p, w) && w < |probs| && PadCovers(p)
    ensures WindowInside(Padded(Closed(found), p, At(p, |probs|)), p, w)
  {
    hide Closed, FoundOk, At, Padded, PieceOk, Inside, PadCovers;
    var closed, length := Closed(found), At(p, |probs|);
    var j := PieceWith(found, probs, p, k);
    AtNext(p, w);
    AtOrder(p, |probs|, w + 1);
    SegmentForward(found, probs, p, k);
    forall s | At(p, w) <= s < At(p, w + 1) ensures Inside(Padded(closed, p, length), s) {
      if found[k].end == closed[j].end {
        BehindPiece(closed, p, length, j, s);
      } else {
        PieceInside(closed, p, length, j, s);
      }
    }
  }

  /** What is found stays covered by merging and padding. */
  lemma {:induction false} FoundInside(found: seq<Speech>, probs: seq<real>, p: Params, s: int)
    requires FoundOk(found, probs, p) && Inside(found, s)
    ensures Inside(Padded(Closed(found), p, At(p, |probs|)), s)
  {
    hide Closed, FoundOk, At, Padded, PieceOk;
    var k :| 0 <= k < |found| && found[k].start <= s < found[k].end;
    var j := PieceWith(found, probs, p, k);
    PieceInside(Closed(found), p, At(p, |probs|), j, s);
  }

  // ---------------------------------------------------------------------------------------------
  // Exactly when every window of speech is covered

  ghost predicate Probabilities(probs: seq<real>) {
    forall i :: 0 <= i < |probs| ==> 0.0 <= probs[i] <= 1.0
  }

  /** Every window of speech is in a segment as a whole, unless its run was too short or some run was too long. */
  ghost predicate Covered(probs: seq<real>, p: Params) {
    !Overlong(probs, p, |probs|) ==>
      forall w: nat :: w < |probs| && probs[w] >= p.threshold ==> CoveredAt(probs, p, w)
  }

  ghost predicate CoveredAt(probs: seq<real>, p: Params, w: nat) {
    WindowInside(Result(probs, p), p, w) || Excused(HeardAll(probs, p).dropped, At(p, w))
  }

  /** The fewest windows that are longer than the shortest speech. */
  function SpeechWindows(p: Params): (m: nat)
    requires p.window > 0
  {
    p.minSpeech / p.window + 1
  }

  /** The fewest windows that make a silence long enough. */
  function SilenceWindows(p: Params): (k: nat)
    requires p.window > 0
  {
    (p.minSilence + p.window - 1) / p.window
  }

  lemma {:induction false} FewestWindows(p: Params)
    requires p.window > 0
    ensures At(p, SpeechWindows(p)) > p.minSpeech && At(p, SilenceWindows(p)) >= p.minSilence
    ensures forall x: nat :: At(p, x) > p.minSpeech ==> x >= SpeechWindows(p)
    ensures forall x: nat :: At(p, x) >= p.minSilence ==> x >= SilenceWindows(p)
  {
    var m, k := SpeechWindows(p), SilenceWindows(p);
    Arith.DivBounds(p.minSpeech, p.window);
    Arith.DivBounds(p.minSilence + p.window - 1, p.window);
    hide SpeechWindows, SilenceWindows;
    AtNext(p, k);
    forall x: nat | At(p, x) > p.minSpeech ensures x >= m {
      AtOrder(p, m - 1, x);
    }
    forall x: nat | At(p, x) >= p.minSilence ensures x >= k {
      if k > 0 {
        AtNext(p, k - 1);
        AtOrder(p, k - 1, x);
      }
    }
  }

  /** A run of speech that ends in a window of speech fits the maximum duration. */
  ghost predicate CutFits(p: Params)
    requires p.window > 0
  {
    At(p, SpeechWindows(p) + SilenceWindows(p)) <= p.maxSpeech
  }

  /** A window can be speech, end a run as silence, and fit; then only enough padding covers it. */
  ghost predicate CoversAll(p: Params)
    requires p.window > 0
  {
    || p.threshold >= 0.01
    || (p.threshold <= 0.0 && p.minSilence > 0)
    || !CutFits(p)
    || PadCovers(p)
  }

  lemma {:induction false} AtZero(p: Params)
    ensures At(p, 0) == 0
  {
  }

  lemma {:induction false} AtDiff(p: Params, a: nat, b: nat)
    requires a <= b
    ensures At(p, b) - At(p, a) == At(p, b - a)
  {
    Arith.MulDistribute(p.window, b, a);
  }

  /** The window at the end of a segment is speech only if the run fits the maximum duration. */
  lemma {:induction false} CutMeansFits(r: Speech, probs: seq<real>, p: Params)
    requires p.window > 0 && ClosedBySilence(r, probs, p)
    ensures CutFits(p)
  {
    var e: nat, c: nat :| Closing(r, probs, p, e, c);
    var a: nat :| At(p, a) == r.start;
    AtOrder(p, a, e);
    AtDiff(p, a, e);
    AtDiff(p, e, c);
    AtDiff(p, a, c);
    FewestWindows(p);
    AtOrder(p, c - a, SpeechWindows(p) + SilenceWindows(p));
  }

  lemma {:induction false} CutSilent(r: Speech, probs: seq<real>, p: Params, w: nat)
    requires p.window > 0 && ClosedBySilence(r, probs, p) && r.end == At(p, w)
    ensures w < |probs| && probs[w] < NegThreshold(p)
  {
    var e: nat, c: nat :| Closing(r, probs, p, e, c);
    AtOrder(p, e, w);
    AtOrder(p, w, e);
  }

  /** If even a probability of zero is speech, a run never ends before the audio does. */
  lemma {:induction false} NeverEnds(probs: seq<real>, p: Params, n: nat)
    requires n <= |probs| && p.window > 0 && p.threshold <= 0.0 && p.minSilence > 0 && Probabilities(probs)
    ensures Heard(probs, p, n).speeches == [] && (n > 0 ==> Heard(probs, p, n).run.Running?)
  {
    if n > 0 {
      NeverEnds(probs, p, n - 1);
    }
  }

  lemma {:induction false} CoveredIf(probs: seq<real>, p: Params, w: nat)
    requires p.window > 0 && CoversAll(p) && Probabilities(probs) && !Overlong(probs, p, |probs|)
    requires w < |probs| && probs[w] >= p.threshold
    ensures CoveredAt(probs, p, w)
  {
    hide Overlong, Probabilities, Heard, Padded, Closed, FoundOk, NegThreshold, CutFits, PadCovers, ClosedBySilence;
    var t := HeardAll(probs, p);
    FoundOrCut(probs, p, w);
    AllFoundOk(probs, p);
    if WindowInside(t.speeches, p, w) {
      forall s | At(p, w) <= s < At(p, w + 1) ensures Inside(Result(probs, p), s) {
        FoundInside(t.speeches, probs, p, s);
      }
    } else if CutOff(t.speeches, At(p, w)) {
      var k :| 0 <= k < |t.speeches| && t.speeches[k].end == At(p, w);
      CutCovered(probs, p, k, w);
    }
  }

  lemma {:induction false} CutCovered(probs: seq<real>, p: Params, k: nat, w: nat)
    requires p.window > 0 && CoversAll(p) && Probabilities(probs) && !Overlong(probs, p, |probs|)
    requires w < |probs| && probs[w] >= p.threshold && FoundOk(HeardAll(probs, p).speeches, probs, p)
    requires k < |HeardAll(probs, p).speeches| && HeardAll(probs, p).speeches[k].end == At(p, w)
    ensures WindowInside(Result(probs, p), p, w)
  {
    hide Overlong, Heard, Padded, Closed, CutFits, PadCovers, ClosedBySilence, WindowInside, At, OnGrid;
    var t := HeardAll(probs, p);
    AtOrder(p, w, |probs|);
    assert SegmentOk(t.speeches[k], probs, p);
    CutSilent(t.speeches[k], probs, p, w);
    CutMeansFits(t.speeches[k], probs, p);
    if p.threshold <= 0.0 && p.minSilence > 0 {
      NeverEnds(probs, p, |probs|);
    } else {
      CutOffCovered(t.speeches, probs, p, k, w);
    }
  }

  // ---------------------------------------------------------------------------------------------
  // Where a window of speech is missed

  /** m loud windows, then one that is speech and silence at once, then enough silence. */
  ghost predicate LoudThenCut(probs: seq<real>, p: Params) 
    requires p.window > 0
  {
    var m, k := SpeechWindows(p), SilenceWindows(p);
    && |probs| >= m + 1 + k && (forall i :: 0 <= i < m ==> probs[i] == 1.0)
    && p.threshold <= probs[m] < 0.01 && (forall i :: m < i <= m + k ==> probs[i] == 0.0)
  }

  ghost predicate CanCut(p: Params)
    requires p.window > 0
  {
    p.threshold < 0.01 && (p.threshold <= 0.0 ==> p.minSilence == 0) && CutFits(p)
  }

  lemma {:induction false} CutFitsAt(p: Params, n: nat)
    requires p.window > 0 && CutFits(p) && n <= SpeechWindows(p) + SilenceWindows(p)
    ensures At(p, n) <= p.maxSpeech
  {
    AtOrder(p, SpeechWindows(p) + SilenceWindows(p), n);
  }

  /** The run after n of these windows. */
  ghost function LoudRun(p: Params, n: nat): Run
    requires p.window > 0
  {
    if n == 0 then Idle else Running(0, if n <= SpeechWindows(p) then 0 else At(p, SpeechWindows(p)))
  }

  lemma {:induction false} HeardUpTo(probs: seq<real>, p: Params, n: nat)
    requires p.window > 0 && CanCut(p) && LoudThenCut(probs, p) && n <= SpeechWindows(p) + SilenceWindows(p)
    ensures Heard(probs, p, n) == Track([], [], LoudRun(p, n)) && !Overlong(probs, p, n)
  {
    hide SpeechWindows, SilenceWindows, CutFits, At, Next;
    if n > 0 {
      HeardUpTo(probs, p, n - 1);
      OverlongStep(probs, p, n - 1);
      CutFitsAt(p, n - 1);
      StepInside(probs, p, n - 1);
    }
  }

  lemma {:induction false} StepInside(probs: seq<real>, p: Params, n: nat)
    requires p.window > 0 && CanCut(p) && LoudThenCut(probs, p) && n < SpeechWindows(p) + SilenceWindows(p)
    ensures Next(Track([], [], LoudRun(p, n)), probs[n], At(p, n), p) == Track([], [], LoudRun(p, n + 1))
  {
    hide SpeechWindows, SilenceWindows, CutFits, At;
    var m := SpeechWindows(p);
    FewestWindows(p);
    AtZero(p);
    AtOrder(p, 0, m);
    if n >= m {
      AtDiff(p, m, n);
    }
  }

  lemma {:induction false} HeardCut(probs: seq<real>, p: Params)
    requires p.window > 0 && CanCut(p) && LoudThenCut(probs, p)
    ensures var m, n := SpeechWindows(p), SpeechWindows(p) + 1 + SilenceWindows(p);
      Heard(probs, p, n) == Track([Speech(0, At(p, m))], [], Idle) && !Overlong(probs, p, n)
  {
    hide SpeechWindows, SilenceWindows, CutFits, At, Next;
    var n := SpeechWindows(p) + SilenceWindows(p);
    HeardUpTo(probs, p, n);
    OverlongStep(probs, p, n);
    CutFitsAt(p, n);
    StepCut(probs, p);
  }

  lemma {:induction false} StepCut(probs: seq<real>, p: Params)
    requires p.window > 0 && CanCut(p) && LoudThenCut(probs, p)
    ensures var n := SpeechWindows(p) + SilenceWindows(p);
      Next(Track([], [], LoudRun(p, n)), probs[n], At(p, n), p) == Track([Speech(0, At(p, SpeechWindows(p)))], [], Idle)
  {
    hide SpeechWindows, SilenceWindows, CutFits, At;
    var m, n := SpeechWindows(p), SpeechWindows(p) + SilenceWindows(p);
    FewestWindows(p);
    AtZero(p);
    AtOrder(p, 0, m);
    AtDiff(p, m, n);
  }

  /** A value that is speech and silence at once. */
  function Both(p: Params): (v: real)
    requires p.threshold < 0.01
    ensures p.threshold <= v < 0.01 && 0.0 <= v
  {
    if p.threshold > 0.0 then p.threshold else 0.0
  }

  /** Too little padding. */
  lemma {:induction false} MissedBehind(p: Params) returns (probs: seq<real>)
    requires p.window > 0 && CanCut(p) && p.pad < p.window
    ensures Probabilities(probs) && !Covered(probs, p)
    ensures probs == Repeat(1.0, SpeechWindows(p)) + [Both(p)] + Repeat(0.0, SilenceWindows(p))
    ensures Result(probs, p) == [Speech(0, At(p, SpeechWindows(p)) + p.pad)] && HeardAll(probs, p).dropped == []
  {
    hide SpeechWindows, SilenceWindows, CutFits, At, Heard, Overlong, Closed;
    var m := SpeechWindows(p);
    probs := Repeat(1.0, m) + [Both(p)] + Repeat(0.0, SilenceWindows(p));
    HeardCut(probs, p);
    OneClosed(Speech(0, At(p, m)));
    AtNext(p, m);
    AtOrder(p, |probs|, m + 1);
    assert Result(probs, p) == [Speech(0, At(p, m) + p.pad)];
    assert !Inside(Result(probs, p), At(p, m) + p.pad);
    assert !CoveredAt(probs, p, m);
  }

  lemma {:induction false} OneClosed(r: Speech)
    ensures Closed([r]) == [r]
  {
    assert Joined([], r) == [r] && [r][1..] == [];
    assert CloseOn([], [r]) == CloseOn([r], []);
  }

  /** An odd gap of one window is closed from both sides but for its middle. */
  lemma {:induction false} MissedBetween(p: Params) returns (probs: seq<real>)
    requires p.window > 0 && CanCut(p) && p.pad >= p.window && !PadCovers(p)
    ensures Probabilities(probs) && !Covered(probs, p)
    ensures probs == Repeat(1.0, SpeechWindows(p)) + [Both(p)] + Repeat(1.0, SpeechWindows(p))
  {
    hide SpeechWindows, CutFits, At, Heard, Overlong, Closed;
    var m := SpeechWindows(p);
    probs := Repeat(1.0, m) + [Both(p)] + Repeat(1.0, m);
    NoSilence(p);
    LoudAgain(probs, p, m);
    AtNext(p, m);
    AtDiff(p, m + 1, |probs|);
    FewestWindows(p);
    var found := [Speech(0, At(p, m)), Speech(At(p, m + 1), At(p, |probs|))];
    assert HeardAll(probs, p) == Track(found, [], Idle);
    TwoClosed(found);
    assert !Inside(Result(probs, p), At(p, m) + Half(p.window));
    assert !CoveredAt(probs, p, m);
  }

  lemma {:induction false} NoSilence(p: Params)
    requires p.window > 0 && p.minSilence == 0
    ensures SilenceWindows(p) == 0
  {
    Arith.DivUnique(p.window - 1, p.window, 0, p.window - 1);
  }

  lemma {:induction false} LoudAgain(probs: seq<real>, p: Params, j: nat)
    requires p.window > 0 && CanCut(p) && LoudThenCut(probs, p) && p.minSilence == 0 && j <= SpeechWindows(p)
    requires |probs| == 2 * SpeechWindows(p) + 1 && forall i :: SpeechWindows(p) < i < |probs| ==> probs[i] == 1.0
    ensures var m := SpeechWindows(p);
      && Heard(probs, p, m + 1 + j)
           == Track([Speech(0, At(p, m))], [], if j == 0 then Idle else Running(At(p, m + 1), 0))
      && !Overlong(probs, p, m + 1 + j)
  {
    hide SpeechWindows, SilenceWindows, CutFits, At, LoudThenCut, Next, Overlong;
    var m := SpeechWindows(p);
    NoSilence(p);
    if j == 0 {
      HeardCut(probs, p);
    } else {
      LoudAgain(probs, p, j - 1);
      OverlongStep(probs, p, m + j);
      AtDiff(p, m + 1, m + j);
      CutFitsAt(p, j - 1);
      StepLoud(Heard(probs, p, m + j), probs[m + j], At(p, m + j), p);
    }
  }

  lemma {:induction false} StepLoud(t: Track, prob: real, cur: int, p: Params)
    requires p.threshold < 0.01 && prob == 1.0 && (t.run.Running? ==> t.run.silence == 0)
    ensures Next(t, prob, cur, p) == t.(run := if t.run.Running? then t.run else Running(cur, 0))
  {
  }

  lemma {:induction false} TwoClosed(found: seq<Speech>)
    requires |found| == 2 && found[1].start - found[0].end >= MERGE_GAP
    ensures Closed(found) == found
  {
    assert Joined([], found[0]) == [found[0]] && Joined([found[0]], found[1]) == found;
    assert found[1..] == [found[1]];
    assert CloseOn([found[0]], [found[1]]) == CloseOn(found, []);
  }

  /** Whether every window of speech is covered, for all probabilities: a condition on the parameters alone. */
  lemma {:induction false} CoverageExact(p: Params)
    requires p.window > 0
    ensures (forall probs :: Probabilities(probs) ==> Covered(probs, p)) <==> CoversAll(p)
  {
    hide Probabilities, CoveredAt, CutFits, PadCovers, Overlong;
    if CoversAll(p) {
      forall probs | Probabilities(probs) ensures Covered(probs, p) {
        forall w: nat | !Overlong(probs, p, |probs|) && w < |probs| && probs[w] >= p.threshold
          ensures CoveredAt(probs, p, w)
        {
          CoveredIf(probs, p, w);
        }
      }
    } else {
      var probs;
      if p.pad < p.window {
        probs := MissedBehind(p);
      } else {
        probs := MissedBetween(p);
      }
      assert Probabilities(probs) && !Covered(probs, p);
    }
  }

  /** A threshold below 0.01, no padding: the second window is speech, and is lost. */
  lemma {:induction false} LowThresholdMisses()
    ensures var p := Params(0.005, 512, 0, 1600, 480000, 0);
      var probs := [1.0, 0.005, 0.0, 0.0, 0.0, 0.0];
      probs[1] >= p.threshold && Result(probs, p) == [Speech(0, 512)] && HeardAll(probs, p).dropped == []
        && !Covered(probs, p)
  {
    var p := Params(0.005, 512, 0, 1600, 480000, 0);
    hide HeardAll, Result, Covered;
    assert At(p, 1) == 512 && At(p, 5) == 2560;
    var probs := MissedBehind(p);
    assert probs == [1.0, 0.005, 0.0, 0.0, 0.0, 0.0];
  }
}
