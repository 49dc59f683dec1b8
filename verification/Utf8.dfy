/** The UTF-8 decoder for texts cut in the middle of characters. */
module Utf8 {
  import Arith
  import opened Bits
  import opened Grammar
  import opened GrammarAccept
  import opened GrammarFilter

  type Bytes = seq<nat>    // a C string's bytes: between 1 and 255

  /** How many bytes a character has, by the high four bits of its first byte; 0 for a continuation byte. */
  function Length(b: nat): nat {
    var high := b / 16;
    if high < 8 then 1 else if high < 12 then 0 else if high < 14 then 2 else if high == 14 then 3 else 4
  }

  predicate IsContinuation(b: nat) {
    b / 64 == 2
  }

  /** A continuation byte starts nothing, and the leading ones of the others are their number of bytes. */
  lemma {:induction false} LengthExact(b: nat)
    requires b < 256
    ensures Length(b) == 0 <==> IsContinuation(b)
    ensures (Length(b) == 1 <==> b < 0x80) && (Length(b) == 2 <==> 0xC0 <= b < 0xE0)
    ensures (Length(b) == 3 <==> 0xE0 <= b < 0xF0) && (Length(b) == 4 <==> 0xF0 <= b)
  {
  }

  /** The value bits of a first byte when n more bytes follow: `first & ((1 << (7 - n)) - 1)`. */
  function FirstBits(b: nat, n: int): nat {
    if n == 0 then b % 128 else if n == 1 then b % 64 else if n == 2 then b % 32 else b % 16
  }

  /** `(value << 6) + (b & 0x3F)` on 32 bits. */
  function MoreBits(value: nat, b: nat): nat {
    (value * 64) % 0x1_0000_0000 + b % 64
  }

  // ---------------------------------------------------------------------------------------------
  // Byte by byte

  datatype Fed = Fed(codePoints: seq<nat>, state: PartialUtf8)

  function FeedByte(s: PartialUtf8, b: nat): Fed {
    var next := if s.nRemain > 0 then PartialUtf8(MoreBits(s.value, b), s.nRemain - 1)
                else PartialUtf8(FirstBits(b, Length(b) - 1), Length(b) - 1);
    Fed(if next.nRemain == 0 then [next.value] else [], next)
  }

  ghost function Feed(s: PartialUtf8, src: Bytes): Fed
    decreases |src|
  {
    if src == [] then Fed([], s)
    else
      var first := FeedByte(s, src[0]);
      var rest := Feed(first.state, src[1..]);
      Fed(first.codePoints + rest.codePoints, rest.state)
  }

  lemma {:induction false} FeedConcat(s: PartialUtf8, a: Bytes, b: Bytes)
    ensures Feed(s, a + b).codePoints == Feed(s, a).codePoints + Feed(Feed(s, a).state, b).codePoints
    ensures Feed(s, a + b).state == Feed(Feed(s, a).state, b).state
    decreases |a|
  {
    if a == [] {
      assert a + b == b;
    } else {
      FeedConcat(FeedByte(s, a[0]).state, a[1..], b);
      assert (a + b)[1..] == a[1..] + b;
    }
  }

  /** The first n bytes, as far as there are any, are continuation bytes. */
  ghost predicate Pending(src: Bytes, n: int) {
    forall i :: 0 <= i < |src| && i < n ==> IsContinuation(src[i])
  }

  /** Every character starts with a byte that can start one; what follows is not looked at. */
  ghost predicate Starts(src: Bytes) {
    src == [] || (Length(src[0]) > 0 && Starts(src[if Length(src[0]) <= |src| then Length(src[0]) else |src|..]))
  }

  ghost function After(src: Bytes, n: int): Bytes {
    if n <= 0 then src else if n <= |src| then src[n..] else []
  }

  /** The decoder takes the text: the bytes a started character still misses are checked, the others only where
      characters start. */
  ghost predicate Taken(src: Bytes, n: int) {
    Pending(src, n) && Starts(After(src, n))
  }

  // ---------------------------------------------------------------------------------------------

  /** The bytes up to pos have been fed; codePoints are the complete characters. */
  ghost predicate FedTo(start: PartialUtf8, src: Bytes, pos: nat, codePoints: seq<nat>, value: nat, nRemain: int) {
    pos <= |src| && Feed(start, src[..pos]) == Fed(codePoints, PartialUtf8(value, nRemain))
  }

  lemma {:induction false} FedMore(start: PartialUtf8, src: Bytes, pos: nat, codePoints: seq<nat>, value: nat,
                                   nRemain: int)
    requires pos < |src| && FedTo(start, src, pos, codePoints, value, nRemain)
    ensures nRemain > 0 ==>
      FedTo(start, src, pos + 1, codePoints + if nRemain == 1 then [MoreBits(value, src[pos])] else [],
            MoreBits(value, src[pos]), nRemain - 1)
    ensures nRemain <= 0 ==> var n := Length(src[pos]) - 1;
      FedTo(start, src, pos + 1, codePoints + if n == 0 then [FirstBits(src[pos], n)] else [], FirstBits(src[pos], n),
            n)
  {
    hide Feed, MoreBits, FirstBits, Length;
    FeedNext(start, src, pos);
  }

  /** Takes up to nRemain more bytes of a character, unchecked. */
  method RestOfCharacter(ghost start: PartialUtf8, src: Bytes, pos0: nat, codePoints0: seq<nat>, value0: nat,
                         nRemain0: nat)
    returns (codePoints: seq<nat>, pos: nat, value: nat, nRemain: nat)
    requires nRemain0 > 0 && FedTo(start, src, pos0, codePoints0, value0, nRemain0)
    ensures FedTo(start, src, pos, codePoints, value, nRemain) && pos0 <= pos && (nRemain > 0 ==> pos == |src|)
    ensures nRemain == nRemain0 - (pos - pos0)
  {
    hide FedTo, MoreBits;
    codePoints, pos, value, nRemain := codePoints0, pos0, value0, nRemain0;
    assert FedTo(start, src, pos, codePoints + if nRemain == 0 then [value] else [], value, nRemain) by {
      assert codePoints + [] == codePoints;
    }
    assert pos <= |src| by { FedInText(start, src, pos, codePoints, value, nRemain); }
    while pos < |src| && nRemain > 0
      invariant pos0 <= pos <= |src| && nRemain == nRemain0 - (pos - pos0)
      invariant FedTo(start, src, pos, codePoints + if nRemain == 0 then [value] else [], value, nRemain)
    {
      assert codePoints + [] == codePoints;
      FedMore(start, src, pos, codePoints, value, nRemain);
      value := MoreBits(value, src[pos]);
      pos := pos + 1;
      nRemain := nRemain - 1;
    }
    assert codePoints + [] == codePoints;
    if nRemain == 0 {
      codePoints := codePoints + [value];
    }
  }

  lemma {:induction false} FedInText(start: PartialUtf8, src: Bytes, pos: nat, codePoints: seq<nat>, value: nat,
                                     nRemain: int)
    requires FedTo(start, src, pos, codePoints, value, nRemain)
    ensures pos <= |src|
  {
  }

  lemma {:induction false} StartsStep(src: Bytes, pos: nat)
    requires pos < |src|
    ensures var n := Length(src[pos]);
      Starts(src[pos..]) <==> n > 0 && Starts(src[if pos + n <= |src| then pos + n else |src|..])
  {
    var n := Length(src[pos]);
    if pos + n <= |src| {
      assert src[pos..][n..] == src[pos + n..];
    } else {
      assert src[pos..][|src| - pos..] == src[|src|..];
    }
  }

  lemma {:induction false} StartsNone()
    ensures Starts([])
  {
  }

  /** Decodes the characters that start from pos0 on. */
  method DecodeCharacters(ghost start: PartialUtf8, src: Bytes, pos0: nat, codePoints0: seq<nat>, value0: nat,
                          nRemain0: int)
    returns (ok: bool, codePoints: seq<nat>, value: nat, nRemain: int)
    requires FedTo(start, src, pos0, codePoints0, value0, nRemain0) && (pos0 < |src| ==> nRemain0 <= 0)
    ensures pos0 <= |src| && ok == Starts(src[pos0..])
    ensures ok ==> FedTo(start, src, |src|, codePoints, value, nRemain)
  {
    FedInText(start, src, pos0, codePoints0, value0, nRemain0);
    hide FedTo, MoreBits, FirstBits, Length, Starts;
    StartsNone();
    var pos := pos0;
    codePoints, value, nRemain := codePoints0, value0, nRemain0;
    while pos < |src|
      invariant pos0 <= pos <= |src| && FedTo(start, src, pos, codePoints, value, nRemain)
      invariant Starts(src[pos..]) <==> Starts(src[pos0..])
      invariant pos < |src| ==> nRemain <= 0
    {
      StartsStep(src, pos);
      if Length(src[pos]) - 1 < 0 {
        return false, [], 0, 0;
      }
      codePoints, pos, value, nRemain := DecodeCharacter(start, src, pos, codePoints, value, nRemain);
    }
    assert src[pos..] == [];
    ok := true;
  }

  /** Decodes one character. */
  method DecodeCharacter(ghost start: PartialUtf8, src: Bytes, pos0: nat, codePoints0: seq<nat>, ghost value0: nat,
                         ghost nRemain0: int)
    returns (codePoints: seq<nat>, pos: nat, value: nat, nRemain: int)
    requires
      FedTo(start, src, pos0, codePoints0, value0, nRemain0) && pos0 < |src| && nRemain0 <= 0 && Length(src[pos0]) > 0
    ensures FedTo(start, src, pos, codePoints, value, nRemain)
    ensures pos == (if pos0 + Length(src[pos0]) <= |src| then pos0 + Length(src[pos0]) else |src|)
      && (pos < |src| ==> nRemain <= 0)
  {
    hide FedTo, MoreBits, FirstBits, Length;
    FedMore(start, src, pos0, codePoints0, value0, nRemain0);
    nRemain := Length(src[pos0]) - 1;
    value := FirstBits(src[pos0], nRemain);
    codePoints, pos := codePoints0, pos0 + 1;
    if nRemain == 0 {
      codePoints := codePoints + [value];
    } else {
      assert codePoints + [] == codePoints;
      codePoints, pos, value, nRemain := RestOfCharacter(start, src, pos, codePoints, value, nRemain);
      FedInText(start, src, pos, codePoints, value, nRemain);
    }
  }

  /** Completes the character the text starts in the middle of. */
  method FinishCharacter(src: Bytes, start: PartialUtf8)
    returns (ok: bool, codePoints: seq<nat>, pos: nat, value: nat, nRemain: int)
    ensures ok <==> Pending(src, start.nRemain)
    ensures ok ==> FedTo(start, src, pos, codePoints, value, nRemain) && pos <= |src|
    ensures ok ==> src[pos..] == After(src, start.nRemain) && (pos < |src| ==> nRemain <= 0)
  {
    hide FedTo, MoreBits;
    pos, value, nRemain, codePoints := 0, start.value, start.nRemain, [];
    FedStart(start, src);
    while pos < |src| && nRemain > 0
      invariant 0 <= pos <= |src| && nRemain == start.nRemain - pos && (start.nRemain > 0 ==> nRemain >= 0)
      invariant pos > 0 ==> start.nRemain > 0
      invariant forall i :: 0 <= i < pos ==> IsContinuation(src[i])
      invariant FedTo(start, src, pos, if pos > 0 && nRemain == 0 then [value] else [], value, nRemain)
    {
      if src[pos] / 64 != 2 {
        return false, [], 0, 0, 0;
      }
      FedMore(start, src, pos, [], value, nRemain);
      assert forall x: seq<nat> :: [] + x == x;
      value := MoreBits(value, src[pos]);
      pos := pos + 1;
      nRemain := nRemain - 1;
    }
    if start.nRemain > 0 && nRemain == 0 {
      codePoints := codePoints + [value];
      assert codePoints == [value];
    }
    ok := true;
  }

  lemma {:induction false} FedStart(start: PartialUtf8, src: Bytes)
    ensures FedTo(start, src, 0, [], start.value, start.nRemain)
  {
  }

  lemma {:induction false} FedAll(start: PartialUtf8, src: Bytes, codePoints: seq<nat>, value: nat, nRemain: int)
    requires FedTo(start, src, |src|, codePoints, value, nRemain)
    ensures Feed(start, src) == Fed(codePoints, PartialUtf8(value, nRemain))
  {
    assert src[..|src|] == src;
  }

  /** What one call yields, without the terminating 0. */
  ghost function Decoded(src: Bytes, start: PartialUtf8): Fed {
    if Taken(src, start.nRemain) then Feed(start, src) else Fed([], PartialUtf8(0, -1))
  }

  /** The decoder: the text's code points with a terminating 0, and what remains of a character cut off at its end. */
  method DecodeUtf8(src: Bytes, start: PartialUtf8) returns (codePoints: seq<nat>, partial: PartialUtf8)
    ensures codePoints == Decoded(src, start).codePoints + [0] && partial == Decoded(src, start).state
  {
    var ok, pos, value, nRemain;
    ok, codePoints, pos, value, nRemain := FinishCharacter(src, start);
    hide FedTo, Feed, Starts, Pending, After;
    if !ok {
      return [0], PartialUtf8(0, -1);
    }
    ok, codePoints, value, nRemain := DecodeCharacters(start, src, pos, codePoints, value, nRemain);
    if !ok {
      return [0], PartialUtf8(0, -1);
    }
    FedAll(start, src, codePoints, value, nRemain);
    codePoints := codePoints + [0];
    partial := PartialUtf8(value, nRemain);
  }

  lemma {:induction false} FeedNext(s: PartialUtf8, src: Bytes, pos: nat)
    requires pos < |src|
    ensures var before, step := Feed(s, src[..pos]), FeedByte(Feed(s, src[..pos]).state, src[pos]);
      Feed(s, src[..pos + 1]) == Fed(before.codePoints + step.codePoints, step.state)
  {
    assert src[..pos + 1] == src[..pos] + [src[pos]];
    FeedConcat(s, src[..pos], [src[pos]]);
    var state := Feed(s, src[..pos]).state;
    assert Feed(state, [src[pos]]).codePoints == FeedByte(state, src[pos]).codePoints;
  }

  // ---------------------------------------------------------------------------------------------
  // Pieces and encoding

  /** A text the decoder takes in one call can be cut anywhere: the pieces give the same code points
      and the same final state, exactly if the second goes on with the continuation bytes the first
      still misses; in one call those are not checked. */
  lemma {:induction false} CutExact(a: Bytes, b: Bytes, s: PartialUtf8)
    requires Taken(a + b, s.nRemain)
    ensures var one, first := Decoded(a + b, s), Decoded(a, s);
      var second := Decoded(b, first.state);
      one == Fed(first.codePoints + second.codePoints, second.state) <==> Pending(b, first.state.nRemain)
  {
    PiecesTaken(a, b, s);
    FeedConcat(s, a, b);
    if !Pending(b, Feed(s, a).state.nRemain) {
      EndsBetween(a + b, s);
    }
  }

  lemma {:induction false} EndsBetween(src: Bytes, s: PartialUtf8)
    requires src != [] && Taken(src, s.nRemain)
    ensures Feed(s, src).state.nRemain >= 0
    decreases |src|
  {
    hide Feed, Length, Taken, Starts, MoreBits, FirstBits, IsContinuation;
    if s.nRemain > 0 {
      PendingStep(src, s.nRemain);
      FeedFirst(s, src);
      if |src| > 1 {
        EndsBetween(src[1..], FeedByte(s, src[0]).state);
      } else {
        FeedNone(FeedByte(s, src[0]).state, src[1..]);
      }
    } else {
      var n := Length(src[0]);
      TakenStart(src, s.nRemain);
      if n < |src| {
        FeedCharacter(s, src[..n]);
        FeedConcat(s, src[..n], src[n..]);
        assert src[..n] + src[n..] == src;
        EndsBetween(src[n..], Feed(s, src[..n]).state);
      } else {
        FeedCharacter(s, src);
      }
    }
  }

  lemma {:induction false} FeedFirst(s: PartialUtf8, src: Bytes)
    requires src != []
    ensures Feed(s, src).state == Feed(FeedByte(s, src[0]).state, src[1..]).state
  {
  }

  /** Between characters, text is taken if its first character has a first byte and the rest is taken. */
  lemma {:induction false} TakenStart(src: Bytes, m: int)
    requires src != [] && m <= 0
    ensures Taken(src, m) <==> Length(src[0]) > 0 && (Length(src[0]) < |src| ==> Taken(src[Length(src[0])..], 0))
  {
    StartsNone();
    assert src[|src|..] == [];
    hide IsContinuation, Length;
  }

  lemma {:induction false} PiecesTaken(a: Bytes, b: Bytes, s: PartialUtf8)
    requires Taken(a + b, s.nRemain)
    ensures Taken(a, s.nRemain)
    ensures Taken(b, Feed(s, a).state.nRemain) <==> Pending(b, Feed(s, a).state.nRemain)
    decreases |a|
  {
    if a == [] {
      assert a + b == b;
    } else if s.nRemain > 0 {
      assert (a + b)[1..] == a[1..] + b;
      PendingStep(a + b, s.nRemain);
      PendingStep(a, s.nRemain);
      PiecesTaken(a[1..], b, FeedByte(s, a[0]).state);
    } else {
      StartStep(a, b, s);
    }
  }

  lemma {:induction false} PendingStep(src: Bytes, n: int)
    requires src != [] && n > 0
    ensures Taken(src, n) <==> IsContinuation(src[0]) && Taken(src[1..], n - 1)
  {
    if Pending(src, n) {
      forall i | 0 <= i < |src[1..]| && i < n - 1 ensures IsContinuation(src[1..][i]) {
        assert IsContinuation(src[i + 1]);
      }
    }
    if IsContinuation(src[0]) && Pending(src[1..], n - 1) {
      forall i | 0 <= i < |src| && i < n ensures IsContinuation(src[i]) {
        assert i > 0 ==> IsContinuation(src[1..][i - 1]);
      }
    }
    if n <= |src| {
      assert src[n..] == src[1..][n - 1..];
    }
  }

  lemma {:induction false} StartStep(a: Bytes, b: Bytes, s: PartialUtf8)
    requires a != [] && s.nRemain <= 0 && Taken(a + b, s.nRemain)
    ensures Taken(a, s.nRemain)
    ensures Taken(b, Feed(s, a).state.nRemain) <==> Pending(b, Feed(s, a).state.nRemain)
    decreases |a|
  {
    var n := Length(a[0]);
    assert (a + b)[0] == a[0];
    TakenStart(a + b, s.nRemain);
    TakenStart(a, s.nRemain);
    hide Taken, Starts, Length, Feed, Pending;
    if n < |a| {
      // the first character ends inside a
      var c := a[..n];
      FeedCharacter(s, c);
      FeedConcat(s, c, a[n..]);
      DropInside(a, b, n);
      assert c + a[n..] == a;
      StartStep(a[n..], b, Feed(s, c).state);
    } else {
      FeedCharacter(s, a);
      if n < |a + b| {
        DropJoin(a, b, n);
      }
      TakenRest(a, b, n);
    }
  }

  /** A character that ends in b, or behind it. */
  lemma {:induction false} TakenRest(a: Bytes, b: Bytes, n: nat)
    requires |a| <= n && (n < |a + b| ==> Taken(b[n - |a|..], 0))
    ensures Taken(b, n - |a|) <==> Pending(b, n - |a|)
  {
    StartsNone();
    assert n == |a| ==> b[0..] == b;
    assert b[|b|..] == [];
    hide IsContinuation;
  }

  lemma {:induction false} DropInside(a: Bytes, b: Bytes, n: nat)
    requires n <= |a|
    ensures (a + b)[n..] == a[n..] + b
  {
  }

  lemma {:induction false} DropJoin(a: Bytes, b: Bytes, n: nat)
    requires |a| <= n <= |a + b|
    ensures (a + b)[n..] == b[n - |a|..]
  {
  }

  /** Inside its first character the decoder only counts. */
  lemma {:induction false} FeedCharacter(s: PartialUtf8, c: Bytes)
    requires c != [] && s.nRemain <= 0 && 0 < |c| <= Length(c[0])
    ensures Feed(s, c).state.nRemain == Length(c[0]) - |c|
  {
    FeedRest(FeedByte(s, c[0]).state, c[1..]);
  }

  lemma {:induction false} FeedRest(s: PartialUtf8, c: Bytes)
    requires |c| <= s.nRemain
    ensures Feed(s, c).state.nRemain == s.nRemain - |c|
    decreases |c|
  {
    if c != [] {
      FeedRest(FeedByte(s, c[0]).state, c[1..]);
    }
  }

  /** The encoding of a code point (section 3 of RFC 3629). */
  function Encode(c: nat): Bytes
    requires 0 < c < 0x11_0000
  {
    if c < 0x80 then [c]
    else if c < 0x800 then [0xC0 + c / 64, 0x80 + c % 64]
    else if c < 0x1_0000 then [0xE0 + c / 64 / 64, 0x80 + c / 64 % 64, 0x80 + c % 64]
    else [0xF0 + c / 64 / 64 / 64, 0x80 + c / 64 / 64 % 64, 0x80 + c / 64 % 64, 0x80 + c % 64]
  }

  function EncodeAll(text: seq<nat>): Bytes
    requires forall i :: 0 <= i < |text| ==> 0 < text[i] < 0x11_0000
  {
    if text == [] then [] else Encode(text[0]) + EncodeAll(text[1..])
  }

  /** A continuation byte completes or extends the value by its six bits. */
  lemma {:induction false} FeedContinuation(s: PartialUtf8, c: nat)
    requires s.nRemain > 0 && s.value == c / 64 && c < 0x1_0000_0000
    ensures FeedByte(s, 0x80 + c % 64) == Fed(if s.nRemain == 1 then [c] else [], PartialUtf8(c, s.nRemain - 1))
  {
  }

  lemma {:induction false} FeedPair(s: PartialUtf8, b: nat, rest: Bytes)
    ensures Feed(s, [b] + rest) == Fed(FeedByte(s, b).codePoints + Feed(FeedByte(s, b).state, rest).codePoints,
                                 Feed(FeedByte(s, b).state, rest).state)
  {
    assert ([b] + rest)[1..] == rest;
  }

  /** The last n continuation bytes of c. */
  function Tail(c: nat, n: nat): Bytes {
    if n == 0 then [] else Tail(c / 64, n - 1) + [0x80 + c % 64]
  }

  lemma {:induction false} FeedTail(s: PartialUtf8, c: nat, n: nat)
    requires 0 < n <= 3 && s.nRemain == n && c < 0x1_0000_0000
    requires s.value == if n == 1 then c / 64 else if n == 2 then c / 64 / 64 else c / 64 / 64 / 64
    ensures Feed(s, Tail(c, n)) == Fed([c], PartialUtf8(c, 0))
  {
    FeedTailMost(s, c / 64, n - 1, n);
    FeedConcat(s, Tail(c / 64, n - 1), [0x80 + c % 64]);
    FeedContinuation(PartialUtf8(c / 64, 1), c);
    FeedOne(PartialUtf8(c / 64, 1), 0x80 + c % 64);
  }

  lemma {:induction false} FeedTailMost(s: PartialUtf8, c: nat, k: nat, n: nat)
    requires k < n <= 3 && s.nRemain == n && c < 0x1_0000_0000
    requires s.value == if k == 0 then c else if k == 1 then c / 64 else c / 64 / 64
    ensures Feed(s, Tail(c, k)) == Fed([], PartialUtf8(c, n - k))
    decreases k
  {
    if k > 0 {
      FeedTailMost(s, c / 64, k - 1, n);
      FeedConcat(s, Tail(c / 64, k - 1), [0x80 + c % 64]);
      FeedContinuation(PartialUtf8(c / 64, n - k + 1), c);
      FeedOne(PartialUtf8(c / 64, n - k + 1), 0x80 + c % 64);
    }
  }

  lemma {:induction false} EncodeIsTail(c: nat)
    requires 0 < c < 0x11_0000
    ensures var n := Length(Encode(c)[0]) - 1;
      && 0 <= n <= 3 && |Encode(c)| == n + 1 && Encode(c) == [Encode(c)[0]] + Tail(c, n)
      && FirstBits(Encode(c)[0], n)
           == if n == 0 then c else if n == 1 then c / 64 else if n == 2 then c / 64 / 64 else c / 64 / 64 / 64
  {
    TailUnrolled(c);
    hide Tail;
    var first := Encode(c)[0];
    if c < 0x80 {
      assert Length(first) == 1 && Tail(c, 0) == [];
    } else if c < 0x800 {
      assert Length(first) == 2 && Encode(c) == [first] + Tail(c, 1);
    } else if c < 0x1_0000 {
      assert Length(first) == 3 && Encode(c) == [first] + Tail(c, 2);
    } else {
      assert Length(first) == 4 && Encode(c) == [first] + Tail(c, 3);
    }
  }

  lemma {:induction false} TailUnrolled(c: nat)
    ensures Tail(c, 0) == [] && Tail(c, 1) == [0x80 + c % 64] && Tail(c, 2) == [0x80 + c / 64 % 64, 0x80 + c % 64]
    ensures Tail(c, 3) == [0x80 + c / 64 / 64 % 64, 0x80 + c / 64 % 64, 0x80 + c % 64]
  {
    assert Tail(c / 64 / 64, 1) == [0x80 + c / 64 / 64 % 64];
    assert Tail(c / 64, 2) == Tail(c / 64 / 64, 1) + [0x80 + c / 64 % 64];
    assert Tail(c, 3) == Tail(c / 64, 2) + [0x80 + c % 64];
    assert Tail(c / 64, 1) == [0x80 + c / 64 % 64];
    assert Tail(c, 2) == Tail(c / 64, 1) + [0x80 + c % 64];
  }

  lemma {:induction false} EncodeDecodes(s: PartialUtf8, c: nat)
    requires 0 < c < 0x11_0000 && s.nRemain == 0
    ensures Feed(s, Encode(c)) == Fed([c], PartialUtf8(c, 0)) && Length(Encode(c)[0]) == |Encode(c)|
  {
    EncodeIsTail(c);
    hide Encode, Tail, FirstBits, Length;
    var first, n := Encode(c)[0], Length(Encode(c)[0]) - 1;
    FeedPair(s, first, Tail(c, n));
    if n > 0 {
      FeedTail(FeedByte(s, first).state, c, n);
    } else {
      assert |Tail(c, 0)| == 0;
      FeedNone(FeedByte(s, first).state, Tail(c, 0));
    }
  }

  lemma {:induction false} FeedNone(s: PartialUtf8, src: Bytes)
    requires |src| == 0
    ensures Feed(s, src) == Fed([], s)
  {
  }

  lemma {:induction false} FeedOne(s: PartialUtf8, b: nat)
    ensures Feed(s, [b]) == FeedByte(s, b)
  {
    assert [b][1..] == [];
  }

  /** Decoding undoes encoding. */
  lemma {:induction false} RoundTrip(s: PartialUtf8, text: seq<nat>)
    requires s.nRemain == 0 && forall i :: 0 <= i < |text| ==> 0 < text[i] < 0x11_0000
    ensures Taken(EncodeAll(text), 0) && Decoded(EncodeAll(text), s).codePoints == text
      && Decoded(EncodeAll(text), s).state.nRemain == 0
    decreases |text|
  {
    if text != [] {
      var first, rest := Encode(text[0]), EncodeAll(text[1..]);
      EncodeDecodes(s, text[0]);
      RoundTrip(PartialUtf8(text[0], 0), text[1..]);
      FeedConcat(s, first, rest);
      assert (first + rest)[|first|..] == rest;
    }
  }

  // ---------------------------------------------------------------------------------------------
  // Well-formed text in any number of pieces

  /** Well-formed so far: n continuation bytes, then characters, each a first byte and its continuation bytes. */
  ghost predicate Formed(src: Bytes, n: int)
    decreases |src|
  {
    src == []
    || (if n > 0 then IsContinuation(src[0]) && Formed(src[1..], n - 1)
        else Length(src[0]) > 0 && Formed(src[1..], Length(src[0]) - 1))
  }

  lemma {:induction false} TakenLater(src: Bytes, n: int)
    requires 0 <= n < |src| && Taken(src, n)
    ensures Taken(src[n..], 0)
  {
  }

  lemma {:induction false} TakenNone(n: int)
    ensures Taken([], n)
  {
  }

  lemma {:induction false} FormedTaken(src: Bytes, n: int)
    requires Formed(src, n)
    ensures Taken(src, n)
    decreases |src|
  {
    hide Taken, Length, IsContinuation;
    if src == [] {
      TakenNone(n);
    } else if n > 0 {
      FormedTaken(src[1..], n - 1);
      PendingStep(src, n);
    } else {
      var m := Length(src[0]) - 1;
      FormedTaken(src[1..], m);
      TakenStart(src, n);
      if m < |src[1..]| {
        TakenLater(src[1..], m);
        assert src[1..][m..] == src[m + 1..];
      }
    }
  }

  lemma {:induction false} FormedCut(a: Bytes, b: Bytes, s: PartialUtf8)
    requires Formed(a + b, s.nRemain)
    ensures Formed(a, s.nRemain) && Formed(b, Feed(s, a).state.nRemain)
    decreases |a|
  {
    if a == [] {
      assert a + b == b;
    } else {
      assert (a + b)[1..] == a[1..] + b && (a + b)[0] == a[0];
      FormedCut(a[1..], b, FeedByte(s, a[0]).state);
    }
  }

  /** Each piece is decoded from where the one before left off. */
  ghost function DecodePieces(pieces: seq<Bytes>, s: PartialUtf8): Fed {
    if pieces == [] then Fed([], s)
    else
      var before := DecodePieces(pieces[..|pieces| - 1], s);
      var last := Decoded(pieces[|pieces| - 1], before.state);
      Fed(before.codePoints + last.codePoints, last.state)
  }

  ghost function Joined(pieces: seq<Bytes>): Bytes {
    if pieces == [] then [] else Joined(pieces[..|pieces| - 1]) + pieces[|pieces| - 1]
  }

  /** Well-formed text, cut at any bytes into any number of pieces, gives the same code points and final state as
      in one call. */
  lemma {:induction false} PiecesExact(pieces: seq<Bytes>, s: PartialUtf8)
    requires Formed(Joined(pieces), s.nRemain)
    ensures DecodePieces(pieces, s) == Decoded(Joined(pieces), s) == Feed(s, Joined(pieces))
    decreases |pieces|
  {
    FormedTaken(Joined(pieces), s.nRemain);
    hide Formed, Taken, Feed;
    if pieces == [] {
      FeedNone(s, []);
    } else {
      var front, last := pieces[..|pieces| - 1], pieces[|pieces| - 1];
      FormedCut(Joined(front), last, s);
      PiecesExact(front, s);
      FormedTaken(last, Feed(s, Joined(front)).state.nRemain);
      FeedConcat(s, Joined(front), last);
    }
  }

  lemma {:induction false} FormedConcat(a: Bytes, b: Bytes, s: PartialUtf8)
    requires Formed(a, s.nRemain) && Formed(b, Feed(s, a).state.nRemain)
    ensures Formed(a + b, s.nRemain)
    decreases |a|
  {
    if a == [] {
      assert a + b == b;
    } else {
      assert (a + b)[1..] == a[1..] + b && (a + b)[0] == a[0];
      FormedConcat(a[1..], b, FeedByte(s, a[0]).state);
    }
  }

  lemma {:induction false} TailFormed(c: nat, n: nat)
    ensures Formed(Tail(c, n), n) && |Tail(c, n)| == n
    decreases n
  {
    if n > 0 {
      TailFormed(c / 64, n - 1);
      assert IsContinuation(0x80 + c % 64);
      FormedOne(Tail(c / 64, n - 1), 0x80 + c % 64, n - 1);
    }
  }

  lemma {:induction false} FormedOne(a: Bytes, b: nat, n: nat)
    requires Formed(a, n) && |a| == n && IsContinuation(b)
    ensures Formed(a + [b], n + 1)
    decreases |a|
  {
    if a == [] {
      assert (a + [b])[1..] == [];
    } else {
      assert (a + [b])[1..] == a[1..] + [b];
      FormedOne(a[1..], b, n - 1);
    }
  }

  lemma {:induction false} EncodeFormed(text: seq<nat>)
    requires forall i :: 0 <= i < |text| ==> 0 < text[i] < 0x11_0000
    ensures Formed(EncodeAll(text), 0)
    decreases |text|
  {
    if text != [] {
      var c := text[0];
      EncodeFormed(text[1..]);
      EncodeIsTail(c);
      EncodeDecodes(PartialUtf8(0, 0), c);
      hide Encode, Tail, FirstBits, Length, Feed;
      TailFormed(c, Length(Encode(c)[0]) - 1);
      FirstFormed(Encode(c)[0], Tail(c, Length(Encode(c)[0]) - 1));
      FormedConcat(Encode(c), EncodeAll(text[1..]), PartialUtf8(0, 0));
    }
  }

  lemma {:induction false} FirstFormed(b: nat, rest: Bytes)
    requires Length(b) > 0 && Formed(rest, Length(b) - 1)
    ensures Formed([b] + rest, 0)
  {
    assert ([b] + rest)[1..] == rest;
  }

  /** Encoded text, however its bytes are cut, decodes to the text, and nothing remains. */
  lemma {:induction false} EncodedPieces(text: seq<nat>, pieces: seq<Bytes>, s: PartialUtf8)
    requires
      (forall i :: 0 <= i < |text| ==> 0 < text[i] < 0x11_0000) && Joined(pieces) == EncodeAll(text) && s.nRemain == 0
    ensures DecodePieces(pieces, s).codePoints == text && DecodePieces(pieces, s).state.nRemain == 0
  {
    EncodeFormed(text);
    PiecesExact(pieces, s);
    RoundTrip(s, text);
  }

  // ---------------------------------------------------------------------------------------------
  // What a partial character can become

  ghost predicate Continuations(bytes: Bytes, n: int) {
    |bytes| == n && forall i :: 0 <= i < |bytes| ==> IsContinuation(bytes[i])
  }

  /** The missing continuation bytes can make it the code point c. */
  ghost predicate CanBecome(p: PartialUtf8, c: nat) {
    exists bytes :: Continuations(bytes, p.nRemain) && Feed(p, bytes).codePoints == [c]
  }

  /** c is encoded in fewer bytes: in one rather than two, or than a character has that has no value bits in all bytes
      before the last n. */
  predicate TooSmall(p: PartialUtf8, c: nat) {
    if p.nRemain == 1 then c < 0x80
    else p.value == 0 && ((p.nRemain == 2 && c < 0x800) || (p.nRemain == 3 && c < 0x1_0000))
  }

  /** The bits of c above its last n groups of six. */
  function Above(c: nat, n: nat): nat {
    if n == 0 then c else Above(c / 64, n - 1)
  }

  lemma {:induction false} AboveNext(c: nat, n: nat)
    ensures Above(c, n + 1) == Above(c, n) / 64
    decreases n
  {
    if n > 0 {
      AboveNext(c / 64, n - 1);
    }
  }

  lemma {:induction false} AboveShort(c: nat)
    ensures Above(c, 1) == c / 64 && Above(c, 2) == c / 64 / 64 && Above(c, 3) == c / 64 / 64 / 64
  {
    assert Above(c / 64 / 64, 1) == Above(c / 64 / 64 / 64, 0);
    assert Above(c / 64, 2) == Above(c / 64 / 64, 1);
    assert Above(c / 64, 1) == Above(c / 64 / 64, 0);
    assert Above(c, 1) == Above(c / 64, 0);
  }

  /** Values for which n more groups of six bits fit a word. */
  function Room(n: int): nat {
    if n <= 1 then 0x400_0000 else if n == 2 then 0x10_0000 else 0x4000
  }

  lemma {:induction false} TailContinues(c: nat, n: nat)
    ensures Continuations(Tail(c, n), n)
    decreases n
  {
    if n > 0 {
      TailContinues(c / 64, n - 1);
      assert IsContinuation(0x80 + c % 64);
    }
  }

  /** Continuation bytes add six bits each below the value. */
  lemma {:induction false} FedAbove(p: PartialUtf8, bytes: Bytes, c: nat)
    requires 0 < p.nRemain <= 3 && Continuations(bytes, p.nRemain) && Feed(p, bytes).codePoints == [c]
      && p.value < Room(p.nRemain)
    ensures Above(c, p.nRemain) == p.value
    decreases p.nRemain
  {
    var next := FeedByte(p, bytes[0]);
    AboveNext(c, p.nRemain - 1);
    assert next.state.value / 64 == p.value;
    if p.nRemain == 1 {
      FeedNone(next.state, bytes[1..]);
      assert Feed(p, bytes).codePoints[0] == next.state.value;
    } else {
      assert [] + Feed(next.state, bytes[1..]).codePoints == Feed(next.state, bytes[1..]).codePoints;
      FedAbove(next.state, bytes[1..], c);
    }
  }

  lemma {:induction false} BlockAbove(v: nat, c: nat, d: nat)
    requires d > 0
    ensures v * d <= c < v * d + d <==> c / d == v
  {
    if v * d <= c < v * d + d {
      Arith.DivUnique(c, d, v, c - v * d);
    }
  }

  lemma {:induction false} Quotients(c: nat)
    ensures c / 64 / 64 == c / 4096 && c / 64 / 64 / 64 == c / 0x4_0000
  {
  }

  lemma {:induction false} IntervalAbove(p: PartialUtf8, c: nat)
    requires 0 < p.nRemain <= 3
    ensures Shl(p.value, p.nRemain * 6) <= c <= Highest(p) <==> Above(c, p.nRemain) == p.value
  {
    var d := Pow2(p.nRemain * 6);
    ShlTimes(p.value, p.nRemain * 6);
    AboveIs(c, p.nRemain);
    hide Shl, Above, Pow2;
    BlockAbove(p.value, c, d);
  }

  lemma {:induction false} AboveIs(c: nat, n: nat)
    requires 0 < n <= 3
    ensures Above(c, n) == c / Pow2(n * 6)
  {
    assert Pow2(6) == 64;
    assert Pow2(12) == 4096;
    assert Pow2(18) == 0x4_0000;
    AboveShort(c);
    Quotients(c);
    hide Above, Pow2;
  }

  /** The range the filter tests is that of the code points the missing bytes can make, without those that would be
      encoded too long. */
  lemma {:induction false} CompletionsExact(p: PartialUtf8, c: nat)
    requires 0 < p.nRemain <= 3 && p.value < Room(p.nRemain)
    ensures Completes(p, c) <==> CanBecome(p, c) && !TooSmall(p, c)
  {
    IntervalAbove(p, c);
    ZeroLow(p);
    hide Feed, Shl, Highest;
    if Above(c, p.nRemain) == p.value {
      TailContinues(c, p.nRemain);
      AboveShort(c);
      FeedTail(p, c, p.nRemain);
      assert CanBecome(p, c);
    }
    if CanBecome(p, c) {
      var bytes :| Continuations(bytes, p.nRemain) && Feed(p, bytes).codePoints == [c];
      FedAbove(p, bytes, c);
    }
  }

  /** The value fits the bytes read so far; so it does for every state that decoding leaves. */
  predicate InRoom(p: PartialUtf8) {
    p.nRemain <= 3 && p.value < Room(p.nRemain)
      && (p.nRemain > 0 ==> p.value < if p.nRemain == 3 then 16 else if p.nRemain == 2 then 1024 else 0x1_0000)
  }

  lemma {:induction false} FeedInRoom(s: PartialUtf8, src: Bytes)
    requires InRoom(s)
    ensures InRoom(Feed(s, src).state)
    decreases |src|
  {
    if src != [] {
      FeedInRoom(FeedByte(s, src[0]).state, src[1..]);
    }
  }

  /** The filter's test of a partial character in terms of the decoder: an ordinary class passes it exactly if some
      bytes make a character of the class of it, and a negated one if some make any and all are accepted. */
  lemma {:induction false} PartialExact(rule: Rule, i: nat, p: PartialUtf8)
    requires i < |rule| && rule[i].kind in {CHAR, CHAR_NOT} && Ordered(rule, i)
    requires p.nRemain != 0 && p.nRemain <= 3 && p.value < Room(p.nRemain)
    ensures rule[i].kind == CHAR ==>
      (PartialAccepted(rule, i, p) <==> exists c: nat :: CanBecome(p, c) && !TooSmall(p, c) && Accepts(rule, i, c))
    ensures rule[i].kind == CHAR_NOT ==>
      (PartialAccepted(rule, i, p) <==>
        && (exists c: nat :: CanBecome(p, c) && !TooSmall(p, c))
        && forall c: nat :: CanBecome(p, c) && !TooSmall(p, c) ==> Accepts(rule, i, c))
  {
    forall c: nat ensures Completes(p, c) <==> CanBecome(p, c) && !TooSmall(p, c) {
      if p.nRemain > 0 {
        CompletionsExact(p, c);
      } else {
        assert !CanBecome(p, c);
      }
    }
    hide Completes, CanBecome, TooSmall, PartialAccepted, Accepts, Ordered;
    if rule[i].kind == CHAR {
      PositivePartialExact(rule, i, p);
    } else {
      NegatedPartialAll(rule, i, p);
    }
  }

  lemma {:induction false} ZeroLow(p: PartialUtf8)
    requires 0 < p.nRemain <= 3
    ensures Shl(p.value, p.nRemain * 6) == 0 <==> p.value == 0
  {
    ShlTimes(p.value, p.nRemain * 6);
    if p.value > 0 {
      assert p.value * Pow2(p.nRemain * 6) > 0;
    }
  }
}
