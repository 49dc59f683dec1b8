/** The text segments of a window, cut at the timestamps. */
module Segments {
  import opened Timestamps

  datatype Token = Token(id: int, tid: int)    // tid is the likeliest timestamp, for a timestamp itself

  datatype Segment = Segment(t0: int, t1: int, text: string, tokens: seq<Token>)

  function Ids(tokens: seq<Token>): (ids: seq<int>)
    ensures |ids| == |tokens|
  {
    seq(|tokens|, k requires 0 <= k < |tokens| => tokens[k].id)
  }

  /** The likeliest timestamp of a timestamp is itself; that of text may be anything, also none. */
  predicate Timed(v: Vocab, t: Token) {
    t.id >= v.beg ==> t.tid == t.id
  }

  ghost predicate TokensTimed(v: Vocab, tokens: seq<Token>) {
    WellTimed(v, Ids(tokens)) && forall k :: 0 <= k < |tokens| ==> Timed(v, tokens[k])
  }

  /** The second timestamp of a pair is passed over. */
  predicate PassedOver(v: Vocab, single: bool, tokens: seq<Token>, k: int)
    requires 0 <= k < |tokens|
  {
    !single && k > 0 && tokens[k - 1].id > v.beg && tokens[k].id > v.beg
  }

  predicate IsShown(v: Vocab, special: bool, t: Token) {
    special || t.id < v.eot
  }

  /** The text of the first n tokens. */
  function Shown(v: Vocab, special: bool, single: bool, str: int -> string, tokens: seq<Token>, n: nat): string
    requires n <= |tokens|
  {
    if n == 0 then ""
    else
      Shown(v, special, single, str, tokens, n - 1)
      + if IsShown(v, special, tokens[n - 1]) && !PassedOver(v, single, tokens,
                                                             n - 1) then str(tokens[n - 1].id) else ""
  }

  function AllText(segments: seq<Segment>): string {
    if segments == [] then "" else AllText(segments[..|segments| - 1]) + segments[|segments| - 1].text
  }

  /** Each segment starts no earlier than the one before ends, and no segment after the first ends before it starts. */
  ghost predicate InOrder(segments: seq<Segment>) {
    && (forall k :: 0 <= k < |segments| - 1 ==> segments[k].t1 <= segments[k + 1].t0)
    && (forall k :: 0 < k < |segments| ==> segments[k].t0 <= segments[k].t1)
  }

  /** What the segments are cut from. */
  datatype Source = Source(v: Vocab, special: bool, single: bool, str: int -> string, tokens: seq<Token>, seek: int,
                           seekDelta: int)

  ghost predicate SourceOk(c: Source) {
    VocabOk(c.v) && TokensTimed(c.v, c.tokens) && 2 * (Stamp(c.v, Ids(c.tokens)) - c.v.beg) <= c.seekDelta
  }

  function ShownUpTo(c: Source, n: nat): string
    requires n <= |c.tokens|
  {
    Shown(c.v, c.special, c.single, c.str, c.tokens, n)
  }

  /** The text of a run of tokens. */
  function TextOf(c: Source, tokens: seq<Token>): string {
    if tokens == [] then ""
    else
      var last := tokens[|tokens| - 1];
      TextOf(c, tokens[..|tokens| - 1]) + if IsShown(c.v, c.special, last) then c.str(last.id) else ""
  }

  /** Each segment's text is that of its tokens. */
  ghost predicate TextsFit(c: Source, segments: seq<Segment>) {
    forall k :: 0 <= k < |segments| ==> segments[k].text == TextOf(c, segments[k].tokens)
  }

  lemma {:induction false} TextMore(c: Source, i0: nat, i: nat)
    requires i0 <= i < |c.tokens|
    ensures TextOf(c, c.tokens[i0..i + 1]) == Extended(c, TextOf(c, c.tokens[i0..i]), i)
  {
    var more := c.tokens[i0..i + 1];
    assert more[..|more| - 1] == c.tokens[i0..i] && more[|more| - 1] == c.tokens[i];
    assert TextOf(c, c.tokens[i0..i]) + "" == TextOf(c, c.tokens[i0..i]);
  }

  lemma {:induction false} TextsClosed(c: Source, segments: seq<Segment>, s: Segment)
    requires TextsFit(c, segments) && s.text == TextOf(c, s.tokens)
    ensures TextsFit(c, Closed(segments, s))
  {
    hide TextOf;
  }

  lemma {:induction false} NoText(c: Source, i: nat)
    requires i <= |c.tokens|
    ensures TextOf(c, c.tokens[i..i]) == "" && TextsFit(c, [])
  {
  }

  /** No segment is empty or ends behind the window's way, and they are in order; only the first may end before it
      starts, or start before the window. */
  ghost predicate Fine(c: Source, segments: seq<Segment>) {
    && InOrder(segments)
    && (forall k :: 0 <= k < |segments| ==> segments[k].t1 <= c.seek + c.seekDelta && segments[k].text != "")
    && (forall k :: 0 < k < |segments| ==> c.seek <= segments[k].t0)
  }

  /** The text of the first i tokens is in the segments, but for the last part. */
  ghost predicate TextKept(c: Source, segments: seq<Segment>, text: string, i: nat) {
    i <= |c.tokens| && AllText(segments) + text == ShownUpTo(c, i)
  }

  /** The segments end by t0, which is the time of token number from. */
  ghost predicate EndBy(c: Source, segments: seq<Segment>, t0: int, from: nat) {
    && from < |c.tokens| && t0 == TimeOf(c, from) && (from > 0 || segments != [] ==> c.tokens[from].id > c.v.beg)
    && Fine(c, segments) && (segments != [] ==> segments[|segments| - 1].t1 <= t0)
  }

  function TimeOf(c: Source, k: nat): int
    requires k < |c.tokens|
  {
    c.seek + 2 * (c.tokens[k].tid - c.v.beg)
  }

  function Extended(c: Source, text: string, i: nat): string
    requires i < |c.tokens|
  {
    if c.special || c.tokens[i].id < c.v.eot then text + c.str(c.tokens[i].id) else text
  }

  function Closed(segments: seq<Segment>, s: Segment): seq<Segment> {
    if s.text != "" then segments + [s] else segments
  }

  lemma {:induction false} KeepMore(c: Source, segments: seq<Segment>, text: string, i: nat)
    requires TextKept(c, segments, text, i) && i < |c.tokens|
    ensures TextKept(c, segments, if PassedOver(c.v, c.single, c.tokens, i) then text else Extended(c, text, i), i + 1)
  {
    hide AllText;
    var more := if IsShown(c.v, c.special, c.tokens[i]) && !PassedOver(c.v, c.single, c.tokens,
        i) then c.str(c.tokens[i].id) else "";
    assert (AllText(segments) + text) + more == AllText(segments) + (text + more);
    assert text + "" == text;
  }

  lemma {:induction false} KeepClosed(c: Source, segments: seq<Segment>, s: Segment, i: nat)
    requires TextKept(c, segments, s.text, i)
    ensures TextKept(c, Closed(segments, s), "", i)
  {
    assert (segments + [s])[..|segments|] == segments;
    assert AllText(segments + [s]) == AllText(segments) + s.text;
    hide AllText, ShownUpTo;
    var all := AllText(Closed(segments, s));
    assert all + "" == all && (s.text == "" ==> all + s.text == all);
  }

  lemma {:induction false} EndByStart(c: Source)
    requires SourceOk(c) && c.tokens != []
    ensures EndBy(c, [], TimeOf(c, 0), 0) && TextKept(c, [], "", 0) && !PassedOver(c.v, c.single, c.tokens, 0)
  {
  }

  /** A timestamp's time is within the window's way, and not before that of an earlier one. */
  lemma {:induction false} TimeInside(c: Source, from: nat, i: nat)
    requires SourceOk(c) && from <= i < |c.tokens|
    ensures c.tokens[from].id >= c.v.beg ==> c.seek <= TimeOf(c, from) <= c.seek + c.seekDelta
    ensures c.tokens[i].id > c.v.beg && c.tokens[from].id >= c.v.beg ==> TimeOf(c, from) <= TimeOf(c, i)
  {
    assert Timed(c.v, c.tokens[from]);
    if c.tokens[i].id > c.v.beg {
      StampsOrdered(c.v, c.tokens, from, i);
    }
    if c.tokens[from].id > c.v.beg {
      StampsOrdered(c.v, c.tokens, from, from);
    }
    hide TokensTimed, Stamp;
  }

  lemma {:induction false} AddFine(c: Source, segments: seq<Segment>, s: Segment, from: nat)
    requires SourceOk(c) && EndBy(c, segments, s.t0, from) && s.t1 <= c.seek + c.seekDelta && s.text != ""
    requires segments != [] ==> s.t0 <= s.t1
    ensures Fine(c, segments + [s])
  {
    TimeInside(c, from, from);
    hide SourceOk, TimeOf;
  }

  lemma {:induction false} EndByNext(c: Source, segments: seq<Segment>, s: Segment, from: nat, i: nat)
    requires SourceOk(c) && EndBy(c, segments, s.t0, from) && from <= i < |c.tokens| && c.tokens[i].id > c.v.beg
      && s.t1 == TimeOf(c, i)
    ensures EndBy(c, Closed(segments, s), s.t1, i)
  {
    TimeInside(c, from, i);
    TimeInside(c, i, i);
    hide SourceOk, TimeOf, Fine;
    if s.text != "" {
      AddFine(c, segments, s, from);
    }
  }

  lemma {:induction false} EndByWindow(c: Source, segments: seq<Segment>, s: Segment, from: nat)
    requires SourceOk(c) && EndBy(c, segments, s.t0, from) && s.t1 == c.seek + c.seekDelta
    ensures Fine(c, Closed(segments, s))
  {
    TimeInside(c, from, from);
    hide SourceOk, TimeOf, Fine;
    if s.text != "" {
      AddFine(c, segments, s, from);
    }
  }

  // ---------------------------------------------------------------------------------------------
  // The segments, as a function of the tokens

  /** A timestamp above the first one ends a segment. */
  predicate Ends(c: Source, i: nat)
    requires i < |c.tokens|
  {
    c.tokens[i].id > c.v.beg && !c.single
  }

  /** The first token from i on that is no such timestamp. */
  function AfterStamps(c: Source, i: nat): (j: nat)
    requires i <= |c.tokens|
    ensures i <= j <= |c.tokens|
    decreases |c.tokens| - i
  {
    if i < |c.tokens| && c.tokens[i].id > c.v.beg then AfterStamps(c, i + 1) else i
  }

  /** The segments still to come at token i, when one with this text has been open since token i0. */
  function SegmentsFrom(c: Source, i0: nat, i: nat, t0: int, text: string): seq<Segment>
    requires i0 <= i <= |c.tokens|
    decreases |c.tokens| - i
  {
    if i == |c.tokens| then Closed([], Segment(t0, c.seek + c.seekDelta, text, c.tokens[i0..]))
    else if Ends(c, i) then
      var next := AfterStamps(c, i + 1);
      Closed([], Segment(t0, TimeOf(c, i), Extended(c, text, i), c.tokens[i0..i + 1])) + SegmentsFrom(c, next, next,
          TimeOf(c, i), "")
    else SegmentsFrom(c, i0, i + 1, t0, Extended(c, text, i))
  }

  function SegmentsOf(c: Source): seq<Segment> {
    if c.tokens == [] then [] else SegmentsFrom(c, 0, 0, TimeOf(c, 0), "")
  }

  /** The first timestamp from i on that ends a segment, or the end of the tokens. */
  function FirstEnd(c: Source, i: nat): (m: nat)
    requires i <= |c.tokens|
    ensures i <= m <= |c.tokens| && (m < |c.tokens| ==> Ends(c, m))
    decreases |c.tokens| - i
  {
    if i == |c.tokens| || Ends(c, i) then i else FirstEnd(c, i + 1)
  }

  /** The text shown up to that timestamp, or the end. */
  function TextFrom(c: Source, i: nat, text: string): string
    requires i <= |c.tokens|
    decreases |c.tokens| - i
  {
    if i == |c.tokens| then text
    else if Ends(c, i) then Extended(c, text, i) else TextFrom(c, i + 1, Extended(c, text, i))
  }

  function EndTime(c: Source, m: nat): int
    requires m <= |c.tokens|
  {
    if m < |c.tokens| then TimeOf(c, m) else c.seek + c.seekDelta
  }

  ghost predicate Forward(segments: seq<Segment>) {
    forall k :: 0 <= k < |segments| ==> segments[k].t0 <= segments[k].t1
  }

  /** All segments start in the window. */
  ghost predicate Inside(c: Source, segments: seq<Segment>) {
    forall k :: 0 <= k < |segments| ==> c.seek <= segments[k].t0
  }

  /** Segments that start at a timestamp are in the window and end no earlier. */
  lemma {:induction false} ForwardFrom(c: Source, i0: nat, i: nat, from: nat, text: string)
    requires SourceOk(c) && from <= i <= |c.tokens| && i0 <= i && from < |c.tokens| && c.tokens[from].id >= c.v.beg
    ensures var all := SegmentsFrom(c, i0, i, TimeOf(c, from), text); Forward(all) && Inside(c, all)
    decreases |c.tokens| - i
  {
    if i == |c.tokens| {
      TimeInside(c, from, from);
    } else {
      TimeInside(c, from, i);
      hide SourceOk, TimeOf, Extended;
      if Ends(c, i) {
        ForwardFrom(c, AfterStamps(c, i + 1), AfterStamps(c, i + 1), i, "");
      } else {
        ForwardFrom(c, i0, i + 1, from, Extended(c, text, i));
      }
    }
  }

  /** What the first segment is, if there is text for it; all others are in the window and go forward. */
  lemma {:induction false} FirstFrom(c: Source, i: nat, text: string) returns (rest: seq<Segment>)
    requires SourceOk(c) && c.tokens != [] && i <= |c.tokens|
    ensures Forward(rest) && Inside(c, rest)
    ensures var first := SegmentsFrom(c, 0, i, TimeOf(c, 0), text);
      && (TextFrom(c, i, text) == "" ==> first == rest)
      && (TextFrom(c, i, text) != "" ==>
           && first != [] && first[1..] == rest
           && first[0].t0 == TimeOf(c, 0) && first[0].t1 == EndTime(c, FirstEnd(c, i))
                && first[0].text == TextFrom(c, i, text))
    decreases |c.tokens| - i
  {
    hide SourceOk, TimeOf, Extended;
    if i == |c.tokens| {
      rest := [];
    } else if Ends(c, i) {
      var next := AfterStamps(c, i + 1);
      rest := SegmentsFrom(c, next, next, TimeOf(c, i), "");
      ForwardFrom(c, next, next, i, "");
    } else {
      rest := FirstFrom(c, i + 1, Extended(c, text, i));
    }
  }

  /** Every segment ends no earlier than it starts if and only if there is no text before the first timestamp that
      ends a segment, or that timestamp, or without one the window's way, is not before the time of the first token. */
  lemma {:induction false} ForwardExact(c: Source)
    requires SourceOk(c) && c.tokens != []
    ensures var m := FirstEnd(c, 0);
      Forward(SegmentsOf(c)) <==>
        || TextFrom(c, 0, "") == ""
        || (if m < |c.tokens| then c.tokens[0].tid <= c.tokens[m].tid
            else 2 * (c.tokens[0].tid - c.v.beg) <= c.seekDelta)
  {
    hide SourceOk;
    var rest := FirstFrom(c, 0, "");
    var all := SegmentsOf(c);
    forall k | 0 < k < |all| && TextFrom(c, 0, "") != "" ensures all[k].t0 <= all[k].t1 {
      assert all[k] == rest[k - 1];
    }
  }

  /** Every segment starts in the window if and only if there is no text before the first timestamp that ends a
      segment, or the first token has a likeliest timestamp. */
  lemma {:induction false} InsideExact(c: Source)
    requires SourceOk(c) && c.tokens != []
    ensures Inside(c, SegmentsOf(c)) <==> TextFrom(c, 0, "") == "" || c.tokens[0].tid >= c.v.beg
  {
    hide SourceOk;
    var rest := FirstFrom(c, 0, "");
    var all := SegmentsOf(c);
    forall k | 0 < k < |all| && TextFrom(c, 0, "") != "" ensures c.seek <= all[k].t0 {
      assert all[k] == rest[k - 1];
    }
  }

  function Letter(id: int): string {
    "a"
  }

  /** A text token with a late likeliest timestamp, then an early timestamp: the segment from 18 to 4. */
  lemma {:induction false} FirstBackward()
    ensures var c := Source(Vocab(20, 5, 10, 1, [], 6), false, false, Letter, [Token(2, 19), Token(12, 12)], 0, 4);
      SourceOk(c) && SegmentsOf(c) == [Segment(18, 4, "a", c.tokens)]
  {
    var c := Source(Vocab(20, 5, 10, 1, [], 6), false, false, Letter, [Token(2, 19), Token(12, 12)], 0, 4);
    var ids := Ids(c.tokens);
    assert ids == [2, 12] && StepOk(c.v, ids, 1);
    assert Stamp(c.v, ids) == 12;
    assert SegmentsFrom(c, 2, 2, 4, "") == [];
    assert Extended(c, "", 0) == "a" && Extended(c, "a", 1) == "a";
    assert SegmentsFrom(c, 0, 1, 18, "a") == [Segment(18, 4, "a", c.tokens[0..2])];
    assert c.tokens[0..2] == c.tokens;
  }

  /** A text token for which all timestamps were masked: the segment from 20 before the window. */
  lemma {:induction false} FirstBefore()
    ensures var c := Source(Vocab(20, 5, 10, 1, [], 6), false, false, Letter, [Token(2, 0)], 0, 30);
      SourceOk(c) && SegmentsOf(c) == [Segment(-20, 30, "a", c.tokens)]
  {
    var c := Source(Vocab(20, 5, 10, 1, [], 6), false, false, Letter, [Token(2, 0)], 0, 30);
    assert Ids(c.tokens) == [2] && Ids(c.tokens)[..0] == [];
    assert Extended(c, "", 0) == "a";
    assert SegmentsFrom(c, 0, 1, -20, "a") == [Segment(-20, 30, "a", c.tokens[0..])];
    assert c.tokens[0..] == c.tokens;
  }

  /** No text is lost, and the segments are in order of time and not beyond where the window moves to. */
  method Emit(c: Source) returns (segments: seq<Segment>)
    requires SourceOk(c)
    ensures segments == SegmentsOf(c)
    ensures AllText(segments) == ShownUpTo(c, |c.tokens|) && Fine(c, segments) && TextsFit(c, segments)
  {
    segments := [];
    if |c.tokens| == 0 {
      return;
    }
    segments := EmitSome(c);
  }

  method EmitSome(c: Source) returns (segments: seq<Segment>)
    requires SourceOk(c) && |c.tokens| > 0
    ensures segments == SegmentsOf(c)
    ensures AllText(segments) == ShownUpTo(c, |c.tokens|) && Fine(c, segments) && TextsFit(c, segments)
  {
    hide SourceOk, Fine, AllText, ShownUpTo, TextKept, EndBy, Extended, Closed, TimeOf, PassedOver, TextOf, TextsFit;
    segments := [];
    EndByStart(c);
    NoText(c, 0);
    var i0, i, t0, text := 0, 0, TimeOf(c, 0), "";
    ghost var from := 0;
    while i < |c.tokens|
      invariant 0 <= i0 <= i <= |c.tokens| && from <= i
      invariant SegmentsOf(c) == segments + SegmentsFrom(c, i0, i, t0, text)
      invariant TextKept(c, segments, text, i) && EndBy(c, segments, t0, from)
      invariant TextsFit(c, segments) && text == TextOf(c, c.tokens[i0..i])
      invariant i < |c.tokens| ==> !PassedOver(c.v, c.single, c.tokens, i)
    {
      KeepMore(c, segments, text, i);
      TextMore(c, i0, i);
      text := Extended(c, text, i);
      if c.tokens[i].id > c.v.beg && !c.single {
        var s := Segment(t0, TimeOf(c, i), text, c.tokens[i0..i + 1]);
        KeepClosed(c, segments, s, i + 1);
        EndByNext(c, segments, s, from, i);
        TextsClosed(c, segments, s);
        ClosedMore(segments, s, SegmentsFrom(c, AfterStamps(c, i + 1), AfterStamps(c, i + 1), s.t1, ""));
        segments, text, t0, from := Closed(segments, s), "", s.t1, i;
        i := SkipStamps(c, i, segments);
        i0 := i;
        NoText(c, i0);
      } else {
        NotPassedOver(c, i);
        i := i + 1;
      }
    }
    var s := Segment(t0, c.seek + c.seekDelta, text, c.tokens[i0..]);
    KeepClosed(c, segments, s, i);
    EndByWindow(c, segments, s, from);
    assert c.tokens[i0..i] == c.tokens[i0..];
    TextsClosed(c, segments, s);
    ClosedMore(segments, s, []);
    segments := Closed(segments, s);
    AllKept(c, segments);
  }

  lemma {:induction false} ClosedMore(segments: seq<Segment>, s: Segment, rest: seq<Segment>)
    ensures segments + (Closed([], s) + rest) == Closed(segments, s) + rest
    ensures rest == [] ==> segments + Closed([], s) == Closed(segments, s)
  {
  }

  lemma {:induction false} AllKept(c: Source, segments: seq<Segment>)
    requires TextKept(c, segments, "", |c.tokens|)
    ensures AllText(segments) == ShownUpTo(c, |c.tokens|)
  {
    assert AllText(segments) + "" == AllText(segments);
  }

  lemma {:induction false} NotPassedOver(c: Source, i: nat)
    requires i < |c.tokens| && (c.tokens[i].id <= c.v.beg || c.single)
    ensures i + 1 < |c.tokens| ==> !PassedOver(c.v, c.single, c.tokens, i + 1)
  {
  }

  /** Goes on to the token behind the timestamp at i and those that follow it directly. */
  method SkipStamps(c: Source, i: nat, ghost segments: seq<Segment>) returns (next: nat)
    requires i < |c.tokens| && !c.single && c.tokens[i].id > c.v.beg && TextKept(c, segments, "", i + 1)
    ensures next == AfterStamps(c, i + 1) && TextKept(c, segments, "", next)
    ensures next < |c.tokens| ==> !PassedOver(c.v, c.single, c.tokens, next)
  {
    hide TextKept;
    next := i + 1;
    while next < |c.tokens| && c.tokens[next].id > c.v.beg
      invariant
        i < next <= |c.tokens| && AfterStamps(c, i + 1) == AfterStamps(c, next) && c.tokens[next - 1].id > c.v.beg
        && TextKept(c, segments, "", next)
    {
      KeepMore(c, segments, "", next);
      next := next + 1;
    }
  }

  /** A later timestamp is no smaller than an earlier one, and none is larger than the last. */
  lemma {:induction false} StampsOrdered(v: Vocab, tokens: seq<Token>, a: nat, b: nat)
    requires TokensTimed(v, tokens) && a <= b < |tokens| && tokens[b].id > v.beg
    ensures tokens[a].id >= v.beg ==> tokens[a].tid <= tokens[b].tid
    ensures tokens[b].tid <= Stamp(v, Ids(tokens))
  {
    var ids := Ids(tokens);
    assert ids[a] == tokens[a].id && ids[b] == tokens[b].id;
    StampIsLargest(v, ids);
  }
}
