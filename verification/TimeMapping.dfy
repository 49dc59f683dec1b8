/** From times in the audio without silence back to the original. */
module TimeMapping {
  import Arith
  import opened Sequences
  import opened VadSegments

  /** A processed time and the original time it stands for. */
  datatype Knot = Knot(processed: int, original: int)

  ghost predicate Rising(table: seq<Knot>) {
    && (forall i, j :: 0 <= i < j < |table| ==> table[i].processed < table[j].processed)
    && (forall i, j :: 0 <= i < j < |table| ==> table[i].original <= table[j].original)
  }

  // ---------------------------------------------------------------------------------------------
  // Between two knots

  /** On the line between two knots, rounded down. */
  function Between(a: Knot, b: Knot, t: int): int
    requires a.processed < b.processed
  {
    a.original + ((t - a.processed) * (b.original - a.original)) / (b.processed - a.processed)
  }

  /** Rounded down from the straight line: by less than one. */
  lemma {:induction false} BetweenExact(a: Knot, b: Knot, t: int)
    requires a.processed < b.processed
    ensures var rise, span, up := b.original - a.original, b.processed - a.processed, Between(a, b, t) - a.original;
      span * up <= (t - a.processed) * rise < span * up + span
  {
    var x, span := (t - a.processed) * (b.original - a.original), b.processed - a.processed;
    assert x == span * (x / span) + x % span;
  }

  lemma {:induction false} BetweenMonotone(a: Knot, b: Knot, s: int, t: int)
    requires a.processed < b.processed && a.original <= b.original && a.processed <= s <= t <= b.processed
    ensures a.original <= Between(a, b, s) <= Between(a, b, t) <= b.original
    ensures Between(a, b, a.processed) == a.original && Between(a, b, b.processed) == b.original
  {
    Arith.ScaleMono(s - a.processed, t - a.processed, b.original - a.original, b.processed - a.processed);
  }

  // ---------------------------------------------------------------------------------------------
  // The map

  /** The piecewise linear map through the knots, constant outside them. */
  function Mapped(table: seq<Knot>, t: int): int
    requires Rising(table)
  {
    if table == [] then t
    else
      var last := table[|table| - 1];
      if t >= last.processed || |table| == 1 then last.original
      else if t >= table[|table| - 2].processed then Between(table[|table| - 2], last, t)
      else Mapped(table[..|table| - 1], t)
  }

  lemma {:induction false} MappedBounds(table: seq<Knot>, t: int)
    requires Rising(table) && table != []
    ensures table[0].original <= Mapped(table, t) <= table[|table| - 1].original
    ensures t <= table[0].processed ==> Mapped(table, t) == table[0].original
    decreases |table|
  {
    if |table| > 1 {
      var a, b := table[|table| - 2], table[|table| - 1];
      if a.processed <= t < b.processed {
        BetweenMonotone(a, b, t, t);
      }
      MappedBounds(table[..|table| - 1], t);
    }
  }

  lemma {:induction false} MappedMonotone(table: seq<Knot>, s: int, t: int)
    requires Rising(table) && s <= t
    ensures Mapped(table, s) <= Mapped(table, t)
    decreases |table|
  {
    if |table| > 1 {
      var front, a, b := table[..|table| - 1], table[|table| - 2], table[|table| - 1];
      if a.processed <= s && t < b.processed {
        BetweenMonotone(a, b, s, t);
      } else if s < a.processed && a.processed <= t < b.processed {
        MappedBounds(front, s);
        BetweenMonotone(a, b, a.processed, t);
      } else if t >= b.processed {
        MappedBounds(table, s);
      } else {
        MappedMonotone(front, s, t);
      }
    }
  }

  /** At a knot the map is exact, and between two knots it is the line through them. */
  lemma {:induction false} MappedExact(table: seq<Knot>, i: nat, t: int)
    requires Rising(table) && i < |table|
    ensures t == table[i].processed ==> Mapped(table, t) == table[i].original
    ensures i + 1 < |table| && table[i].processed <= t < table[i + 1].processed ==>
      Mapped(table, t) == Between(table[i], table[i + 1], t)
    decreases |table|
  {
    if |table| > 1 && i < |table| - 1 {
      MappedExact(table[..|table| - 1], i, t);
      BetweenMonotone(table[i], table[i + 1], table[i].processed, table[i].processed);
    }
  }

  /** The first knot not before t. */
  method LowerBound(table: seq<Knot>, t: int) returns (k: nat)
    requires Rising(table)
    ensures k <= |table| && (k < |table| ==> table[k].processed >= t) && (k > 0 ==> table[k - 1].processed < t)
  {
    var lo, hi := 0, |table|;
    while lo < hi
      invariant 0 <= lo <= hi <= |table|
      invariant (hi < |table| ==> table[hi].processed >= t) && (lo > 0 ==> table[lo - 1].processed < t)
    {
      var mid := (lo + hi) / 2;
      if table[mid].processed < t {
        lo := mid + 1;
      } else {
        hi := mid;
      }
    }
    k := lo;
  }

  method MapProcessedToOriginal(t: int, table: seq<Knot>) returns (original: int)
    requires Rising(table)
    ensures original == Mapped(table, t)
  {
    hide Mapped, Between;
    if |table| == 0 {
      MappedOfNone(t);
      return t;
    }
    if t <= table[0].processed {
      MappedBounds(table, t);
      return table[0].original;
    }
    if t >= table[|table| - 1].processed {
      MappedBeyond(table, t);
      return table[|table| - 1].original;
    }
    var upper := LowerBound(table, t);
    if table[upper].processed == t {
      MappedExact(table, upper, t);
      return table[upper].original;
    }
    var lower := upper - 1;
    MappedExact(table, lower, t);
    original := Between(table[lower], table[upper], t);
  }

  lemma {:induction false} MappedOfNone(t: int)
    ensures Mapped([], t) == t
  {
  }

  lemma {:induction false} MappedBeyond(table: seq<Knot>, t: int)
    requires Rising(table) && table != [] && t >= table[|table| - 1].processed
    ensures Mapped(table, t) == table[|table| - 1].original
  {
  }

  /** A segment's times in the original are in order and at least 100 ms apart. */
  method SegmentTimes(t0: int, t1: int, table: seq<Knot>) returns (orig0: int, orig1: int)
    requires Rising(table)
    ensures orig0 == Mapped(table, t0)
    ensures table == [] ==> orig1 == t1
    ensures table != [] ==>
      orig1 == (if Mapped(table, t1) < orig0 + 10 then orig0 + 10 else Mapped(table, t1)) && orig1 >= orig0 + 10
  {
    orig0 := MapProcessedToOriginal(t0, table);
    orig1 := MapProcessedToOriginal(t1, table);
    if |table| > 0 && orig1 - orig0 < 10 {
      orig1 := orig0 + 10;
    }
  }

  // ---------------------------------------------------------------------------------------------
  // The knots: the ends of every segment and of the silence put behind it, and points in long segments

  const SILENCE: int := 1600       // 0.1 seconds
  const LONG: int := 100
  const INTERVAL: int := 20

  function CsToSamples(cs: int): int {
    cs * 160
  }

  /** Hundredths of a second are the nearest to the samples. */
  lemma {:induction false} CsNearest(samples: int)
    ensures 160 * SamplesToCs(samples) - 80 <= samples < 160 * SamplesToCs(samples) + 80
    ensures forall cs :: SamplesToCs(CsToSamples(cs)) == cs
  {
  }

  /** Points within a segment, the first n of them. */
  function Points(a: Knot, b: Knot, n: nat): seq<Knot>
    requires a.processed < b.processed
  {
    if n == 0 then []
    else
      var t := a.processed + n * INTERVAL;
      Points(a, b, n - 1) + if t < b.processed then [Knot(t, Between(a, b, t))] else []
  }

  /** They are those 200 ms apart, from the first on. */
  lemma {:induction false} PointsExact(a: Knot, b: Knot, n: nat, k: Knot)
    requires a.processed < b.processed
    ensures k in Points(a, b, n) <==>
      && a.processed < k.processed < b.processed && (k.processed - a.processed) % 20 == 0
      && k.processed <= a.processed + 20 * n && k.original == Between(a, b, k.processed)
  {
    hide Between;
    if n > 0 {
      PointsExact(a, b, n - 1, k);
    }
  }

  function SegmentKnots(a: Knot, b: Knot): seq<Knot> {
    var long := b.processed - a.processed;
    [a, b] + if long > LONG then Points(a, b, long / INTERVAL - 1) else []
  }

  /** The ends, and in a segment of more than a second a point every 200 ms, but for the last of them. */
  lemma {:induction false} SegmentKnotsExact(a: Knot, b: Knot, k: Knot)
    ensures k in SegmentKnots(a, b) <==>
      || k == a || k == b
      || (b.processed - a.processed > 100
          && a.processed < k.processed <= a.processed + 20 * ((b.processed - a.processed) / 20 - 1)
          && (k.processed - a.processed) % 20 == 0 && k.original == Between(a, b, k.processed))
  {
    if b.processed - a.processed > 100 {
      PointsExact(a, b, (b.processed - a.processed) / 20 - 1, k);
    }
  }

  /** The sample that the copy of segment i starts with. */
  function CopyFrom(segments: seq<Segment>, samples: int, i: nat): int
    requires i < |segments|
  {
    var start := CsToSamples(segments[i].start);
    if start < samples - 1 then start else samples - 1
  }

  /** How long segment i is once copied, with the overlap into the next. */
  function Copied(segments: seq<Segment>, samples: int, overlap: nat, i: nat): int
    requires i < |segments|
  {
    var end := CsToSamples(segments[i].end) + if i < |segments| - 1 then overlap else 0;
    (if end < samples then end else samples) - CopyFrom(segments, samples, i)
  }

  datatype Progress = Progress(knots: seq<Knot>, offset: int)

  /** The knots from the first n segments, and how much audio they make. */
  function Collected(segments: seq<Segment>, samples: int, overlap: nat, n: nat): Progress
    requires n <= |segments|
  {
    if n == 0 then Progress([], 0)
    else
      var before, i := Collected(segments, samples, overlap, n - 1), n - 1;
      var length := Copied(segments, samples, overlap, i);
      if length <= 0 then before
      else
        var end := before.offset + length;
        var a := Knot(SamplesToCs(before.offset), segments[i].start);
        var b := Knot(SamplesToCs(end), segments[i].end);
        if i < |segments| - 1 then
          Progress(before.knots + SegmentKnots(a, b) + [b, Knot(SamplesToCs(end + SILENCE), segments[i + 1].start)],
                   end + SILENCE)
        else Progress(before.knots + SegmentKnots(a, b), end)
  }

  /** A later processed time never stands for an earlier original one. */
  ghost predicate Consistent(knots: seq<Knot>) {
    forall i, j ::
      0 <= i < |knots| && 0 <= j < |knots| && knots[i].processed < knots[j].processed ==>
        knots[i].original <= knots[j].original
  }

  ghost predicate UpTo(knots: seq<Knot>, k: Knot) {
    forall i :: 0 <= i < |knots| ==> knots[i].processed <= k.processed && knots[i].original <= k.original
  }

  ghost predicate From(knots: seq<Knot>, k: Knot) {
    forall i :: 0 <= i < |knots| ==> knots[i].processed >= k.processed && knots[i].original >= k.original
  }

  lemma {:induction false} Append(a: seq<Knot>, b: seq<Knot>, k: Knot)
    requires Consistent(a) && Consistent(b) && UpTo(a, k) && From(b, k)
    ensures Consistent(a + b)
  {
  }

  ghost predicate SegmentsInOrder(segments: seq<Segment>) {
    && (forall k :: 0 <= k < |segments| ==> 0 <= segments[k].start <= segments[k].end)
    && (forall k :: 0 <= k < |segments| - 1 ==> segments[k].end <= segments[k + 1].start)
  }

  /** Detected segments are in order. */
  lemma {:induction false} DetectedInOrder(speeches: seq<Speech>, bound: int)
    requires InOrder(speeches, bound)
    ensures SegmentsInOrder(ToSegments(speeches))
  {
    SegmentsOrdered(speeches, bound);
    hide InOrder;
  }

  ghost predicate OnLine(knots: seq<Knot>, a: Knot, b: Knot)
    requires a.processed < b.processed
  {
    forall k ::
      0 <= k < |knots| ==>
        a.processed <= knots[k].processed <= b.processed && knots[k].original == Between(a, b, knots[k].processed)
  }

  lemma {:induction false} PointsOnLine(a: Knot, b: Knot, n: nat)
    requires a.processed < b.processed
    ensures OnLine(Points(a, b, n), a, b)
  {
    hide Between;
    if n > 0 {
      PointsOnLine(a, b, n - 1);
    }
  }

  lemma {:induction false} LineConsistent(knots: seq<Knot>, a: Knot, b: Knot)
    requires a.processed < b.processed && a.original <= b.original && OnLine(knots, a, b)
    ensures Consistent(knots) && From(knots, a) && UpTo(knots, b)
  {
    forall i | 0 <= i < |knots| ensures a.original <= knots[i].original <= b.original {
      BetweenMonotone(a, b, knots[i].processed, knots[i].processed);
    }
    forall i, j | 0 <= i < |knots| && 0 <= j < |knots| && knots[i].processed < knots[j].processed
      ensures knots[i].original <= knots[j].original
    {
      BetweenMonotone(a, b, knots[i].processed, knots[j].processed);
    }
  }

  lemma {:induction false} SegmentConsistent(a: Knot, b: Knot)
    requires a.processed <= b.processed && a.original <= b.original
    ensures var knots := SegmentKnots(a, b); Consistent(knots) && From(knots, a) && UpTo(knots, b)
  {
    if b.processed - a.processed > LONG {
      var points := Points(a, b, (b.processed - a.processed) / INTERVAL - 1);
      PointsOnLine(a, b, (b.processed - a.processed) / INTERVAL - 1);
      BetweenMonotone(a, b, a.processed, b.processed);
      assert OnLine([a, b] + points, a, b);
      hide Points, Between, OnLine;
      LineConsistent([a, b] + points, a, b);
    }
  }

  /** Where the knots of the first n segments end. */
  ghost function Reached(segments: seq<Segment>, p: Progress, n: nat): Knot
    requires n <= |segments|
  {
    Knot(SamplesToCs(p.offset), if n < |segments| then segments[n].start else if n == 0 then 0 else segments[n - 1].end)
  }

  lemma {:induction false} SegmentAppended(knots: seq<Knot>, a: Knot, b: Knot)
    requires Consistent(knots) && UpTo(knots, a) && a.processed <= b.processed && a.original <= b.original
    ensures Consistent(knots + SegmentKnots(a, b)) && UpTo(knots + SegmentKnots(a, b), b)
  {
    SegmentConsistent(a, b);
    hide SegmentKnots;
    Append(knots, SegmentKnots(a, b), a);
  }

  lemma {:induction false} SilenceAppended(knots: seq<Knot>, b: Knot, c: Knot)
    requires Consistent(knots) && UpTo(knots, b) && b.processed <= c.processed && b.original <= c.original
    ensures Consistent(knots + [b, c]) && UpTo(knots + [b, c], c)
  {
    Append(knots, [b, c], b);
  }

  lemma {:induction false} UpToMore(knots: seq<Knot>, a: Knot, b: Knot)
    requires UpTo(knots, a) && a.processed <= b.processed && a.original <= b.original
    ensures UpTo(knots, b)
  {
  }

  lemma {:induction false} CollectedConsistent(segments: seq<Segment>, samples: int, overlap: nat, n: nat)
    requires SegmentsInOrder(segments) && n <= |segments|
    ensures var p := Collected(segments, samples, overlap, n);
      p.offset >= 0 && Consistent(p.knots) && UpTo(p.knots, Reached(segments, p, n))
    decreases n
  {
    hide Consistent, UpTo, SegmentKnots, Copied;
    if n == 0 {
      NoKnots(Reached(segments, Progress([], 0), 0));
    } else {
      CollectedConsistent(segments, samples, overlap, n - 1);
      var before, i := Collected(segments, samples, overlap, n - 1), n - 1;
      var length := Copied(segments, samples, overlap, i);
      var a := Knot(SamplesToCs(before.offset), segments[i].start);
      assert Reached(segments, before, i) == a;
      if length > 0 {
        var end := before.offset + length;
        var b := Knot(SamplesToCs(end), segments[i].end);
        SegmentAppended(before.knots, a, b);
        if i < |segments| - 1 {
          SilenceAppended(before.knots + SegmentKnots(a, b), b,
                          Knot(SamplesToCs(end + SILENCE), segments[i + 1].start));
        }
      } else {
        UpToMore(before.knots, a, Reached(segments, before, n));
      }
    }
  }

  lemma {:induction false} NoKnots(k: Knot)
    ensures Consistent([]) && UpTo([], k)
  {
  }

  // ---------------------------------------------------------------------------------------------
  // Where the knots stand in the audio without silence

  /** The input samples that segment i stands for: up to the overlap behind its end, as far as there are samples. */
  ghost function PieceOf(segments: seq<Segment>, input: seq<real>, overlap: nat, i: nat): (piece: (int, int))
    requires i < |segments|
  {
    var end := 160 * segments[i].end + if i + 1 < |segments| then overlap else 0;
    (if 160 * segments[i].start < |input| then 160 * segments[i].start else |input| - 1,
     if end < |input| then end else |input|)
  }

  /** At o the audio is segment i's piece of the input, and but for the last one 1600 zeros; the knots say so. */
  ghost predicate LaidAt(segments: seq<Segment>, input: seq<real>, overlap: nat, audio: seq<real>, knots: seq<Knot>,
                         i: nat, o: int, next: int)
    requires i < |segments|
  {
    var piece := PieceOf(segments, input, overlap, i);
    var length := piece.1 - piece.0;
    if length <= 0 then next == o
    else
      var end := o + length;
      && 0 <= o <= end <= next <= |audio| && 0 <= piece.0 <= piece.1 <= |input|
      && audio[o..end] == input[piece.0..piece.1]
      && Knot(SamplesToCs(o), segments[i].start) in knots && Knot(SamplesToCs(end), segments[i].end) in knots
      && (if i + 1 < |segments| then
            && next == end + 1600 && Zeros(audio, end, next)
            && Knot(SamplesToCs(next), segments[i + 1].start) in knots
          else next == end)
  }

  ghost predicate Zeros(audio: seq<real>, from: int, to: int) {
    0 <= from <= to <= |audio| && forall k :: from <= k < to ==> audio[k] == 0.0
  }

  /** The first n segments stand at these offsets, one right behind the other. */
  ghost predicate Laid(segments: seq<Segment>, input: seq<real>, overlap: nat, audio: seq<real>, knots: seq<Knot>,
                       offsets: seq<int>, n: nat) {
    && n <= |segments| && |offsets| == n + 1 && offsets[0] == 0 && offsets[n] == |audio|
    && forall i :: 0 <= i < n ==> LaidAt(segments, input, overlap, audio, knots, i, offsets[i], offsets[i + 1])
  }

  lemma {:induction false} LaidMore(segments: seq<Segment>, input: seq<real>, overlap: nat, audio: seq<real>,
                                    knots: seq<Knot>, offsets: seq<int>, n: nat, more: seq<real>, moreKnots: seq<Knot>)
    requires Laid(segments, input, overlap, audio, knots, offsets, n) && n < |segments|
    requires LaidAt(segments, input, overlap, audio + more, knots + moreKnots, n, |audio|, |audio| + |more|)
    ensures Laid(segments, input, overlap, audio + more, knots + moreKnots, offsets + [|audio| + |more|], n + 1)
  {
    var offsets' := offsets + [|audio| + |more|];
    forall i | 0 <= i < n + 1
      ensures LaidAt(segments, input, overlap, audio + more, knots + moreKnots, i, offsets'[i], offsets'[i + 1])
    {
      if i < n {
        LaidStays(segments, input, overlap, audio, knots, i, offsets[i], offsets[i + 1], more, moreKnots);
      }
    }
  }

  lemma {:induction false} LaidStays(segments: seq<Segment>, input: seq<real>, overlap: nat, audio: seq<real>,
                                     knots: seq<Knot>, i: nat, o: int, next: int, more: seq<real>,
                                     moreKnots: seq<Knot>)
    requires i < |segments| && LaidAt(segments, input, overlap, audio, knots, i, o, next)
    ensures LaidAt(segments, input, overlap, audio + more, knots + moreKnots, i, o, next)
  {
    hide SamplesToCs;
    var piece := PieceOf(segments, input, overlap, i);
    var end := o + piece.1 - piece.0;
    if o < end {
      assert (audio + more)[o..end] == audio[o..end];
    }
  }

  /** The position that sample d of segment i has in the audio. */
  lemma {:induction false} SamplePlaced(segments: seq<Segment>, input: seq<real>, overlap: nat, audio: seq<real>,
                                        knots: seq<Knot>, offsets: seq<int>, i: nat, d: nat)
    requires Laid(segments, input, overlap, audio, knots, offsets, |segments|) && i < |segments|
    requires segments[i].start >= 0 && 160 * segments[i].start + d < |input|
      && d < 160 * (segments[i].end - segments[i].start) + if i + 1 < |segments| then overlap else 0
    ensures 0 <= offsets[i] && offsets[i] + d < |audio|
    ensures audio[offsets[i] + d] == input[160 * segments[i].start + d]
    ensures Knot(SamplesToCs(offsets[i]), segments[i].start) in knots
  {
    hide SamplesToCs;
    assert LaidAt(segments, input, overlap, audio, knots, i, offsets[i], offsets[i + 1]);
    var piece := PieceOf(segments, input, overlap, i);
    assert audio[offsets[i] + d] == audio[offsets[i]..offsets[i] + piece.1 - piece.0][d];
  }

  // ---------------------------------------------------------------------------------------------
  // Building the table

  method CollectPoints(a: Knot, b: Knot) returns (knots: seq<Knot>)
    requires a.processed <= b.processed
    ensures knots == SegmentKnots(a, b)
  {
    knots := [a, b];
    if b.processed - a.processed > LONG {
      hide Points, Between;
      var count := (b.processed - a.processed) / INTERVAL - 1;
      NoPoints(a, b);
      for j := 1 to count + 1
        invariant knots == [a, b] + Points(a, b, j - 1)
      {
        var t := a.processed + j * INTERVAL;
        MorePoints(a, b, j);
        if t >= b.processed {
          continue;
        }
        knots := knots + [Knot(t, Between(a, b, t))];
      }
    }
  }

  lemma {:induction false} NoPoints(a: Knot, b: Knot)
    requires a.processed < b.processed
    ensures Points(a, b, 0) == []
  {
  }

  lemma {:induction false} MorePoints(a: Knot, b: Knot, n: nat)
    requires a.processed < b.processed && n > 0
    ensures var t := a.processed + n * INTERVAL;
      Points(a, b, n) == Points(a, b, n - 1) + if t < b.processed then [Knot(t, Between(a, b, t))] else []
  {
  }

  /** Goes through the segments and copies them one after another, with silence in between. */
  method Collect(segments: seq<Segment>, input: seq<real>, overlap: nat)
    returns (knots: seq<Knot>, audio: seq<real>, ghost offsets: seq<int>)
    requires SegmentsInOrder(segments) && (segments != [] ==> input != [])
    ensures Progress(knots, |audio|) == Collected(segments, |input|, overlap, |segments|)
    ensures Laid(segments, input, overlap, audio, knots, offsets, |segments|)
  {
    hide SegmentKnots, SamplesToCs, Copied, CopyFrom, LaidAt;
    knots, audio, offsets := [], [], [0];
    for i := 0 to |segments|
      invariant Progress(knots, |audio|) == Collected(segments, |input|, overlap, i)
      invariant Laid(segments, input, overlap, audio, knots, offsets, i)
    {
      var offset := |audio|;
      var start, length := CopyLength(segments, |input|, overlap, i);
      ghost var knots0, audio0 := knots, audio;
      var more, piece := [], [];
      if length > 0 {
        CopyInside(segments, |input|, overlap, i);
        piece := input[start..start + length];
        CsOrder(offset, offset + length);
        var a, b := Knot(SamplesToCs(offset), segments[i].start), Knot(SamplesToCs(offset + length), segments[i].end);
        more := CollectPoints(a, b);
        EndsCollected(a, b);
        if i < |segments| - 1 {
          more := more + [Knot(SamplesToCs(offset + length), segments[i].end),
                          Knot(SamplesToCs(offset + length + SILENCE), segments[i + 1].start)];
          piece := piece + Repeat(0.0, SILENCE);
        }
      }
      LaidNow(segments, input, overlap, audio, knots, i, start, length, piece, more);
      LaidMore(segments, input, overlap, audio, knots, offsets, i, piece, more);
      knots, audio, offsets := knots + more, audio + piece, offsets + [|audio| + |piece|];
    }
  }

  lemma {:induction false} CopyInside(segments: seq<Segment>, samples: nat, overlap: nat, i: nat)
    requires i < |segments| && segments[i].start >= 0 && samples > 0
    ensures 0 <= CopyFrom(segments, samples, i)
      && CopyFrom(segments, samples, i) + Copied(segments, samples, overlap, i) <= samples
  {
  }

  lemma {:induction false} EndsCollected(a: Knot, b: Knot)
    ensures a in SegmentKnots(a, b) && b in SegmentKnots(a, b)
  {
    assert [a, b][0] == a && [a, b][1] == b;
  }

  lemma {:induction false} LaidNow(segments: seq<Segment>, input: seq<real>, overlap: nat, audio: seq<real>,
                                   knots: seq<Knot>, i: nat, start: int, length: int, piece: seq<real>,
                                   more: seq<Knot>)
    requires i < |segments| && segments[i].start >= 0 && input != []
    requires start == CopyFrom(segments, |input|, i) && length == Copied(segments, |input|, overlap, i)
    requires length <= 0 ==> piece == []
    requires length > 0 ==>
      && 0 <= start && start + length <= |input|
      && piece == input[start..start + length] + (if i < |segments| - 1 then Repeat(0.0, SILENCE) else [])
      && Knot(SamplesToCs(|audio|), segments[i].start) in more
      && Knot(SamplesToCs(|audio| + length), segments[i].end) in more
      && (i < |segments| - 1 ==> Knot(SamplesToCs(|audio| + length + SILENCE), segments[i + 1].start) in more)
    ensures LaidAt(segments, input, overlap, audio + piece, knots + more, i, |audio|, |audio| + |piece|)
  {
    hide SamplesToCs;
    if length > 0 {
      var all := audio + piece;
      assert PieceOf(segments, input, overlap, i) == (start, start + length);
      assert all[|audio|..|audio| + length] == input[start..start + length];
    }
  }

  method CopyLength(segments: seq<Segment>, samples: int, overlap: nat, i: nat) returns (start: int, length: int)
    requires i < |segments|
    ensures start == CopyFrom(segments, samples, i) && length == Copied(segments, samples, overlap, i)
  {
    var end;
    start, end := CsToSamples(segments[i].start), CsToSamples(segments[i].end);
    if i < |segments| - 1 {
      end := end + overlap;
    }
    start := if start < samples - 1 then start else samples - 1;
    end := if end < samples then end else samples;
    length := end - start;
  }

  lemma {:induction false} CsOrder(a: int, b: int)
    requires a <= b
    ensures SamplesToCs(a) <= SamplesToCs(b)
  {
  }

  ghost predicate SortedByTime(knots: seq<Knot>) {
    forall i, j :: 0 <= i < j < |knots| ==> knots[i].processed <= knots[j].processed
  }

  ghost predicate SameKnots(a: seq<Knot>, b: seq<Knot>) {
    forall k :: k in a <==> k in b
  }

  method SortByTime(knots: seq<Knot>) returns (sorted: seq<Knot>)
    ensures SortedByTime(sorted) && SameKnots(knots, sorted)
  {
    sorted := [];
    for i := 0 to |knots|
      invariant SortedByTime(sorted) && SameKnots(knots[..i], sorted)
    {
      var k := |sorted|;
      while k > 0 && sorted[k - 1].processed > knots[i].processed
        invariant 0 <= k <= |sorted| && forall l :: k <= l < |sorted| ==> sorted[l].processed > knots[i].processed
      {
        k := k - 1;
      }
      ghost var before := sorted;
      sorted := sorted[..k] + [knots[i]] + sorted[k..];
      Inserted(before, k, knots[i], sorted);
      assert knots[..i + 1] == knots[..i] + [knots[i]];
    }
    assert knots[..|knots|] == knots;
  }

  lemma {:induction false} Inserted(before: seq<Knot>, k: nat, x: Knot, now: seq<Knot>)
    requires SortedByTime(before) && k <= |before| && now == before[..k] + [x] + before[k..]
    requires (forall l :: k <= l < |before| ==> before[l].processed > x.processed)
      && (k > 0 ==> before[k - 1].processed <= x.processed)
    ensures SortedByTime(now) && forall y :: y in now <==> y in before || y == x
  {
    InsertedMembers(before, k, x);
    assert forall l :: 0 <= l < k ==> before[l].processed <= x.processed;
    forall i, j | 0 <= i < j < |now| ensures now[i].processed <= now[j].processed {
      assert now[i] == if i < k then before[i] else if i == k then x else before[i - 1];
      assert now[j] == if j < k then before[j] else if j == k then x else before[j - 1];
    }
  }

  lemma {:induction false} InsertedMembers(before: seq<Knot>, k: nat, x: Knot)
    requires k <= |before|
    ensures forall y :: y in before[..k] + [x] + before[k..] <==> y in before || y == x
  {
    assert before == before[..k] + before[k..];
  }

  /** Of several knots with the same processed time keeps the first. */
  method Unique(knots: seq<Knot>) returns (table: seq<Knot>)
    requires SortedByTime(knots)
    ensures forall i, j :: 0 <= i < j < |table| ==> table[i].processed < table[j].processed
    ensures forall k :: k in table ==> k in knots
    ensures forall k :: k in knots ==> TimeIn(table, k.processed)
  {
    table := [];
    for i := 0 to |knots|
      invariant forall k, l :: 0 <= k < l < |table| ==> table[k].processed < table[l].processed
      invariant
        (forall k :: k in table ==> k in knots) && (forall k :: 0 <= k < i ==> TimeIn(table, knots[k].processed))
      invariant if i == 0 then table == [] else table != [] && table[|table| - 1].processed == knots[i - 1].processed
    {
      ghost var before := table;
      if i == 0 || table[|table| - 1].processed != knots[i].processed {
        table := table + [knots[i]];
      }
      assert table[|table| - 1].processed == knots[i].processed;
      forall k | 0 <= k < i + 1 ensures TimeIn(table, knots[k].processed) {
        if k < i {
          var l :| 0 <= l < |before| && before[l].processed == knots[k].processed;
          assert table[l] == before[l];
        }
      }
    }
  }

  ghost predicate TimeIn(table: seq<Knot>, t: int) {
    exists i :: 0 <= i < |table| && table[i].processed == t
  }

  /** The table rises, whatever order knots with the same processed time are sorted in; it has a knot of those
      collected for each of their processed times. */
  method BuildTable(segments: seq<Segment>, input: seq<real>, overlap: nat)
    returns (table: seq<Knot>, audio: seq<real>, ghost knots: seq<Knot>, ghost offsets: seq<int>)
    requires SegmentsInOrder(segments) && (segments != [] ==> input != [])
    ensures Rising(table) && Laid(segments, input, overlap, audio, knots, offsets, |segments|)
    ensures Progress(knots, |audio|) == Collected(segments, |input|, overlap, |segments|)
    ensures (forall k :: k in table ==> k in knots) && (forall k :: k in knots ==> TimeIn(table, k.processed))
  {
    hide Consistent, SegmentsInOrder, Collected, TimeIn, SortedByTime, Laid;
    var collected;
    collected, audio, offsets := Collect(segments, input, overlap);
    knots := collected;
    var sorted := SortByTime(collected);
    table := Unique(sorted);
    CollectedConsistent(segments, |input|, overlap, |segments|);
    TableRises(table, knots);
  }

  lemma {:induction false} TableRises(table: seq<Knot>, knots: seq<Knot>)
    requires Consistent(knots) && (forall k :: k in table ==> k in knots)
    requires forall i, j :: 0 <= i < j < |table| ==> table[i].processed < table[j].processed
    ensures Rising(table)
  {
    forall i, j | 0 <= i < j < |table| ensures table[i].original <= table[j].original {
      assert table[i] in knots && table[j] in knots;
    }
  }
}
