/** Several decoders over one attention cache: each sees its own text. */
module BeamDecoding {
  import opened KvCaches

  const MAX_DECODERS: nat := 8

  /** A set of (position, token) pairs. */
  type View = set<(int, int)>

  ghost function Prefix(text: seq<int>, p: int): View
    requires p < |text|
  {
    set q | 0 <= q <= p :: (q, text[q])
  }

  /** What the attention mask lets sequence id see up to a position. */
  ghost function Exposed(cells: seq<Cell>, tok: seq<int>, id: int, pos: int): View
    requires |cells| == |tok|
  {
    set c | 0 <= c < |cells| && id in cells[c].seqIds && cells[c].pos <= pos :: (cells[c].pos, tok[c])
  }

  /** The cells of sequence id are its text: one for each position, holding the token there, and
      evaluated when exactly the text up to there was in sight. */
  ghost predicate Holds(cells: seq<Cell>, tok: seq<int>, seen: seq<View>, id: int, text: seq<int>)
    requires |cells| == |tok| == |seen|
  {
    && (forall c :: 0 <= c < |cells| && id in cells[c].seqIds ==> CellHolds(cells[c], tok[c], seen[c], text))
    && (forall p :: 0 <= p < |text| ==> Reached(cells, id, p))
    && (forall c, d, p :: HasPos(cells, c, id, p) && HasPos(cells, d, id, p) ==> c == d)
  }

  ghost predicate CellHolds(c: Cell, token: int, seen: View, text: seq<int>) {
    0 <= c.pos < |text| && token == text[c.pos] && seen == Prefix(text, c.pos)
  }

  ghost predicate HasPos(cells: seq<Cell>, c: int, id: int, p: int) {
    0 <= c < |cells| && id in cells[c].seqIds && cells[c].pos == p
  }

  ghost predicate Reached(cells: seq<Cell>, id: int, p: int) {
    exists c :: HasPos(cells, c, id, p)
  }

  /** One cell per position, with the right token: Holds without what the cells saw. */
  ghost predicate HoldsTokens(cells: seq<Cell>, tok: seq<int>, id: int, text: seq<int>)
    requires |cells| == |tok|
  {
    && (forall c ::
          0 <= c < |cells| && id in cells[c].seqIds ==> 0 <= cells[c].pos < |text| && tok[c] == text[cells[c].pos])
    && (forall p :: 0 <= p < |text| ==> Reached(cells, id, p))
    && (forall c, d, p :: HasPos(cells, c, id, p) && HasPos(cells, d, id, p) ==> c == d)
  }

  lemma {:induction false} TokensExposed(cells: seq<Cell>, tok: seq<int>, id: int, text: seq<int>, p: int)
    requires |cells| == |tok| && HoldsTokens(cells, tok, id, text) && 0 <= p < |text|
    ensures Exposed(cells, tok, id, p) == Prefix(text, p)
  {
    forall x | x in Prefix(text, p) ensures x in Exposed(cells, tok, id, p) {
      assert Reached(cells, id, x.0);
      var c :| HasPos(cells, c, id, x.0);
    }
  }

  /** A sequence that holds its text sees all of it and nothing else. */
  lemma {:induction false} HoldsSees(cells: seq<Cell>, tok: seq<int>, seen: seq<View>, id: int, text: seq<int>, p: int)
    requires |cells| == |tok| == |seen| && Holds(cells, tok, seen, id, text) && 0 <= p < |text|
    ensures Exposed(cells, tok, id, p) == Prefix(text, p)
  {
    forall c | 0 <= c < |cells| && id in cells[c].seqIds
      ensures 0 <= cells[c].pos < |text| && tok[c] == text[cells[c].pos]
    {
      assert CellHolds(cells[c], tok[c], seen[c], text);
    }
    assert HoldsTokens(cells, tok, id, text);
    TokensExposed(cells, tok, id, text, p);
  }

  // ---------------------------------------------------------------------------------------------
  // Handing sequences on: decoder j takes over the cells of decoder src[j], all at once

  ghost predicate Decoders(live: seq<bool>, src: seq<int>) {
    && |live| == |src| <= MAX_DECODERS
    && forall j :: 0 <= j < |live| && live[j] ==> 0 <= src[j] < |live| && live[src[j]]
  }

  /** A cell's owners once they are handed on. */
  ghost function HandedOn(ids: set<int>, live: seq<bool>, src: seq<int>): set<int>
    requires Decoders(live, src)
  {
    (set x | x in ids && !(0 <= x < |live| && live[x])) + (set j | 0 <= j < |live| && live[j] && src[j] in ids)
  }

  /** ... while the first k new owners wait under the ids behind the decoders'. */
  ghost function Staged(ids: set<int>, live: seq<bool>, src: seq<int>, k: nat): set<int>
    requires Decoders(live, src) && k <= |live|
  {
    ids + set j | 0 <= j < k && live[j] && src[j] in ids :: MAX_DECODERS + j
  }

  /** ... and when the first k of them have taken their places. */
  ghost function Mixed(ids: set<int>, live: seq<bool>, src: seq<int>, k: nat): set<int>
    requires Decoders(live, src) && k <= |live|
  {
    (set x | x in ids && !(0 <= x < k && live[x]))
    + (set j | 0 <= j < k && live[j] && src[j] in ids)
    + (set j | k <= j < |live| && live[j] && src[j] in ids :: MAX_DECODERS + j)
  }

  lemma {:induction false} StageStep(ids: set<int>, live: seq<bool>, src: seq<int>, k: nat)
    requires Decoders(live, src) && k < |live| && (forall x :: x in ids ==> x < MAX_DECODERS)
    ensures Staged(ids, live, src, k + 1)
         == if live[k] && src[k] in Staged(ids, live, src, k) then Staged(ids, live, src, k) + {MAX_DECODERS + k}
            else Staged(ids, live, src, k)
  {
  }

  lemma {:induction false} MixStep(ids: set<int>, live: seq<bool>, src: seq<int>, k: nat)
    requires Decoders(live, src) && k < |live| && (forall x :: x in ids ==> 0 <= x < MAX_DECODERS)
    ensures !live[k] ==> Mixed(ids, live, src, k + 1) == Mixed(ids, live, src, k)
    ensures live[k] ==>
      var without := Mixed(ids, live, src, k) - {k};
      Mixed(ids, live, src, k + 1)
      == (if MAX_DECODERS + k in without then without + {k} else without) - {MAX_DECODERS + k}
  {
    hide InMixed;
    MixedMembers(ids, live, src, k);
    MixedMembers(ids, live, src, k + 1);
    hide Mixed;
    forall x ensures InMixed(ids, live, src, k + 1, x) <==> MovesTo(ids, live, src, k, x) {
      MixedMoves(ids, live, src, k, x);
    }
  }

  ghost predicate MovesTo(ids: set<int>, live: seq<bool>, src: seq<int>, k: nat, x: int)
    requires Decoders(live, src) && k < |live|
  {
    if live[k] then x != MAX_DECODERS + k && InMixed(ids, live, src, k, if x == k then MAX_DECODERS + k else x)
    else InMixed(ids, live, src, k, x)
  }

  lemma {:induction false} MixedMoves(ids: set<int>, live: seq<bool>, src: seq<int>, k: nat, x: int)
    requires Decoders(live, src) && k < |live| && (forall x :: x in ids ==> 0 <= x < MAX_DECODERS)
    ensures InMixed(ids, live, src, k + 1, x) <==> MovesTo(ids, live, src, k, x)
  {
  }

  ghost predicate InMixed(ids: set<int>, live: seq<bool>, src: seq<int>, k: nat, x: int)
    requires Decoders(live, src)
  {
    || (x in ids && !(0 <= x < k && x < |live| && live[x]))
    || (0 <= x < k && x < |live| && live[x] && src[x] in ids)
    || (k <= x - MAX_DECODERS < |live| && live[x - MAX_DECODERS] && src[x - MAX_DECODERS] in ids)
  }

  lemma {:induction false} MixedMembers(ids: set<int>, live: seq<bool>, src: seq<int>, k: nat)
    requires Decoders(live, src) && k <= |live|
    ensures forall x :: x in Mixed(ids, live, src, k) <==> InMixed(ids, live, src, k, x)
  {
    forall x ensures x in Mixed(ids, live, src, k) <==> InMixed(ids, live, src, k, x) {
      if k <= x - MAX_DECODERS < |live| && live[x - MAX_DECODERS] && src[x - MAX_DECODERS] in ids {
        assert x == MAX_DECODERS + (x - MAX_DECODERS);
      }
    }
  }

  /** A cell whose owners have become ids: it keeps its position, or is free if there are none. */
  ghost predicate Became(c: Cell, before: Cell, ids: set<int>) {
    c.seqIds == ids && (ids != {} ==> c.pos == before.pos) && CellOk(c)
  }

  lemma {:induction false} StageCell(c: Cell, before: Cell, live: seq<bool>, src: seq<int>, k: nat)
    requires Decoders(live, src) && k < |live| && live[k] && CellOk(before)
      && (forall x :: x in before.seqIds ==> x < MAX_DECODERS)
    requires Became(c, before, Staged(before.seqIds, live, src, k))
    ensures Became(Copied(c, src[k], MAX_DECODERS + k, -1, -1), before, Staged(before.seqIds, live, src, k + 1))
  {
    StageStep(before.seqIds, live, src, k);
    hide Staged;
  }

  lemma {:induction false} MixCell(c: Cell, before: Cell, live: seq<bool>, src: seq<int>, k: nat)
    requires Decoders(live, src) && k < |live| && live[k] && CellOk(before)
      && (forall x :: x in before.seqIds ==> 0 <= x < MAX_DECODERS)
    requires Became(c, before, Mixed(before.seqIds, live, src, k))
    ensures
      Became(Removed(Copied(Removed(c, k, -1, -1), MAX_DECODERS + k, k, -1, -1), MAX_DECODERS + k, -1, -1), before,
                   Mixed(before.seqIds, live, src, k + 1))
  {
    MixStep(before.seqIds, live, src, k);
    hide Mixed;
    var c1 := Removed(c, k, -1, -1);
    assert c1.seqIds == c.seqIds - {k};
    var c2 := Copied(c1, MAX_DECODERS + k, k, -1, -1);
    assert c2.seqIds == if MAX_DECODERS + k in c1.seqIds then c1.seqIds + {k} else c1.seqIds;
    assert Removed(c2, MAX_DECODERS + k, -1, -1).seqIds == c2.seqIds - {MAX_DECODERS + k};
  }

  lemma {:induction false} MixEnds(ids: set<int>, live: seq<bool>, src: seq<int>)
    requires Decoders(live, src) && (forall x :: x in ids ==> 0 <= x < MAX_DECODERS)
    ensures Mixed(ids, live, src, 0) == Staged(ids, live, src, |live|)
    ensures Mixed(ids, live, src, |live|) == HandedOn(ids, live, src)
    ensures Staged(ids, live, src, 0) == ids
  {
  }

  /** The caches that the beam search leaves behind are those of the chosen sources, whatever permutation
      or duplication of the beams that is: no cell is lost that anyone still needs. */
  method HandOn(cache: KvCache, live: seq<bool>, src: seq<int>)
    requires cache.Valid() && Decoders(live, src)
    requires forall i, x :: 0 <= i < cache.size && x in cache.cells[i].seqIds ==> 0 <= x < MAX_DECODERS
    modifies cache, cache.cells
    ensures cache.Valid()
    ensures forall i :: 0 <= i < cache.size ==>
      Became(cache.cells[i], old(cache.cells[i]), HandedOn(old(cache.cells[i]).seqIds, live, src))
    ensures forall top: nat :: old(cache.UsedBelow(top)) ==> cache.UsedBelow(top)
  {
    ghost var cells := cache.cells[..];
    forall i | 0 <= i < cache.size {
      MixEnds(cells[i].seqIds, live, src);
    }
    for j := 0 to |live|
      invariant cache.Valid() && forall top: nat :: old(cache.UsedBelow(top)) ==> cache.UsedBelow(top)
      invariant
        forall i :: 0 <= i < cache.size ==> Became(cache.cells[i], cells[i], Staged(cells[i].seqIds, live, src, j))
    {
      if live[j] {
        forall i | 0 <= i < cache.size {
          StageCell(cache.cells[i], cells[i], live, src, j);
        }
        cache.SeqCp(src[j], MAX_DECODERS + j, -1, -1);
      } else {
        assert forall i ::
          0 <= i < cache.size ==> Staged(cells[i].seqIds, live, src, j + 1) == Staged(cells[i].seqIds, live, src, j);
      }
    }
    for j := 0 to |live|
      invariant cache.Valid() && forall top: nat :: old(cache.UsedBelow(top)) ==> cache.UsedBelow(top)
      invariant
        forall i :: 0 <= i < cache.size ==> Became(cache.cells[i], cells[i], Mixed(cells[i].seqIds, live, src, j))
    {
      if live[j] {
        forall i | 0 <= i < cache.size {
          MixCell(cache.cells[i], cells[i], live, src, j);
        }
        cache.SeqRm(j, -1, -1);
        cache.SeqCp(MAX_DECODERS + j, j, -1, -1);
        cache.SeqRm(MAX_DECODERS + j, -1, -1);
      } else {
        forall i | 0 <= i < cache.size {
          MixStep(cells[i].seqIds, live, src, j);
        }
      }
    }
  }
}
