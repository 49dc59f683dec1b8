/** The decode loop over the shared cache: prompt, beams, evaluation. */
module BeamStates {
  import Arith
  import opened KvCaches
  import opened BeamDecoding

  // ---------------------------------------------------------------------------------------------
  // Evaluating a batch extends the texts its items belong to

  /** The batch's items of sequence id are the tokens of text from position n on, each once. */
  ghost predicate Continues(batch: seq<BatchItem>, id: int, text: seq<int>, n: nat) {
    && (forall k :: 0 <= k < |batch| ==> |batch[k].seqIds| == 1)
    && (forall k :: ItemOf(batch, k, id) ==> n <= batch[k].pos < |text| && batch[k].token == text[batch[k].pos])
    && (forall k, m :: ItemOf(batch, k, id) && ItemOf(batch, m, id) && batch[k].pos == batch[m].pos ==> k == m)
    && (forall p :: n <= p < |text| ==> HasItem(batch, id, p))
  }

  ghost predicate ItemOf(batch: seq<BatchItem>, k: int, id: int) {
    0 <= k < |batch| && id in batch[k].seqIds
  }

  ghost predicate HasItem(batch: seq<BatchItem>, id: int, p: int) {
    exists k :: ItemOf(batch, k, id) && batch[k].pos == p
  }

  ghost function Tokens(tok: seq<int>, head: nat, batch: seq<BatchItem>): (r: seq<int>)
    ensures |r| == |tok|
  {
    seq(|tok|, i requires 0 <= i < |tok| => if head <= i < head + |batch| then batch[i - head].token else tok[i])
  }

  /** Each new cell remembers what its token could see. */
  ghost function Views(seen: seq<View>, head: nat, batch: seq<BatchItem>, cells: seq<Cell>,
                       tok: seq<int>): (r: seq<View>)
    requires |cells| == |tok| && forall k :: 0 <= k < |batch| ==> |batch[k].seqIds| == 1
    ensures |r| == |seen|
  {
    seq(|seen|, i requires 0 <= i < |seen| =>
      if head <= i < head + |batch| then Exposed(cells, tok, batch[i - head].seqIds[0], batch[i - head].pos)
      else seen[i])
  }

  lemma {:induction false} PrefixGrows(text: seq<int>, longer: seq<int>, p: int)
    requires 0 <= p < |text| <= |longer| && longer[..|text|] == text
    ensures Prefix(longer, p) == Prefix(text, p)
  {
    forall q | 0 <= q <= p ensures longer[q] == text[q] {
      assert longer[..|text|][q] == text[q];
    }
  }

  lemma {:induction false} PlacedTokens(cells: seq<Cell>, tok: seq<int>, seen: seq<View>, batch: seq<BatchItem>,
                                        head: nat, id: int, text: seq<int>, n: nat)
    requires
      |cells| == |tok| == |seen| && FreeRun(cells, head, |batch|) && (forall c :: 0 <= c < |cells| ==> CellOk(cells[c]))
    requires n <= |text| && Holds(cells, tok, seen, id, text[..n]) && Continues(batch, id, text, n)
    ensures HoldsTokens(Placed(cells, head, batch), Tokens(tok, head, batch), id, text)
  {
    var cells', tok' := Placed(cells, head, batch), Tokens(tok, head, batch);
    forall c | 0 <= c < |cells'| && id in cells'[c].seqIds
      ensures 0 <= cells'[c].pos < |text| && tok'[c] == text[cells'[c].pos]
    {
      if head <= c < head + |batch| {
        assert ItemOf(batch, c - head, id);
      } else {
        assert CellHolds(cells[c], tok[c], seen[c], text[..n]);
      }
    }
    forall p | 0 <= p < |text| ensures Reached(cells', id, p) {
      if p < n {
        assert Reached(cells, id, p);
        var c :| HasPos(cells, c, id, p);
        assert HasPos(cells', c, id, p);
      } else {
        assert HasItem(batch, id, p);
        var k :| ItemOf(batch, k, id) && batch[k].pos == p;
        assert HasPos(cells', head + k, id, p);
      }
    }
    forall c, d, p | HasPos(cells', c, id, p) && HasPos(cells', d, id, p) ensures c == d {
      PlacedOnce(cells, tok, seen, batch, head, id, text, n, c, d, p);
    }
  }

  lemma {:induction false} PlacedOnce(cells: seq<Cell>, tok: seq<int>, seen: seq<View>, batch: seq<BatchItem>,
                                      head: nat, id: int, text: seq<int>, n: nat,
                                      c: int, d: int, p: int)
    requires
      |cells| == |tok| == |seen| && FreeRun(cells, head, |batch|) && (forall c :: 0 <= c < |cells| ==> CellOk(cells[c]))
    requires n <= |text| && Holds(cells, tok, seen, id, text[..n]) && Continues(batch, id, text, n)
    requires HasPos(Placed(cells, head, batch), c, id, p) && HasPos(Placed(cells, head, batch), d, id, p)
    ensures c == d
  {
    PlacedSide(cells, tok, seen, batch, head, id, text, n, c, p);
    PlacedSide(cells, tok, seen, batch, head, id, text, n, d, p);
    if p >= n {
      assert c - head == d - head;
    }
  }

  /** A cell that has position p is a new one exactly if p is behind the old text. */
  lemma {:induction false} PlacedSide(cells: seq<Cell>, tok: seq<int>, seen: seq<View>, batch: seq<BatchItem>,
                                      head: nat, id: int, text: seq<int>, n: nat,
                                      c: int, p: int)
    requires
      |cells| == |tok| == |seen| && FreeRun(cells, head, |batch|) && (forall c :: 0 <= c < |cells| ==> CellOk(cells[c]))
    requires n <= |text| && Holds(cells, tok, seen, id, text[..n]) && Continues(batch, id, text, n)
    requires HasPos(Placed(cells, head, batch), c, id, p)
    ensures if p >= n then head <= c < head + |batch| && ItemOf(batch, c - head, id) && batch[c - head].pos == p
      else HasPos(cells, c, id, p)
  {
    if head <= c < head + |batch| {
      assert ItemOf(batch, c - head, id);
    } else {
      assert CellHolds(cells[c], tok[c], seen[c], text[..n]);
    }
  }

  /** After the batch each sequence it continues holds its longer text. */
  lemma {:induction false} BatchHolds(cells: seq<Cell>, tok: seq<int>, seen: seq<View>, batch: seq<BatchItem>,
                                      head: nat, id: int, text: seq<int>, n: nat)
    requires
      |cells| == |tok| == |seen| && FreeRun(cells, head, |batch|) && (forall c :: 0 <= c < |cells| ==> CellOk(cells[c]))
    requires n <= |text| && Holds(cells, tok, seen, id, text[..n]) && Continues(batch, id, text, n)
    ensures var cells', tok' := Placed(cells, head, batch), Tokens(tok, head, batch);
      Holds(cells', tok', Views(seen, head, batch, cells', tok'), id, text)
  {
    var cells', tok' := Placed(cells, head, batch), Tokens(tok, head, batch);
    var seen' := Views(seen, head, batch, cells', tok');
    PlacedTokens(cells, tok, seen, batch, head, id, text, n);
    forall c | 0 <= c < |cells'| && id in cells'[c].seqIds ensures CellHolds(cells'[c], tok'[c], seen'[c], text) {
      if head <= c < head + |batch| {
        assert ItemOf(batch, c - head, id);
        assert batch[c - head].seqIds[0] == id;
        TokensExposed(cells', tok', id, text, cells'[c].pos);
      } else {
        assert CellHolds(cells[c], tok[c], seen[c], text[..n]);
        PrefixGrows(text[..n], text, cells[c].pos);
      }
    }
  }

  /** Handing the cells on hands the texts on. */
  lemma {:induction false} HandedOnHolds(before: seq<Cell>, cells: seq<Cell>, tok: seq<int>, seen: seq<View>,
                                         live: seq<bool>, src: seq<int>, j: nat, text: seq<int>)
    requires |before| == |cells| == |tok| == |seen| && Decoders(live, src) && j < |live| && live[j]
    requires forall i :: 0 <= i < |cells| ==> Became(cells[i], before[i], HandedOn(before[i].seqIds, live, src))
    requires Holds(before, tok, seen, src[j], text)
    ensures Holds(cells, tok, seen, j, text)
  {
    forall i | 0 <= i < |cells| ensures j in cells[i].seqIds <==> src[j] in before[i].seqIds {
      assert Became(cells[i], before[i], HandedOn(before[i].seqIds, live, src));
    }
    SameHolds(before, src[j], cells, j, tok, seen, text);
  }

  lemma {:induction false} SameHolds(before: seq<Cell>, from: int, cells: seq<Cell>, to: int, tok: seq<int>,
                                     seen: seq<View>, text: seq<int>)
    requires |before| == |cells| == |tok| == |seen| && Holds(before, tok, seen, from, text)
    requires forall i :: 0 <= i < |cells| ==> (to in cells[i].seqIds <==> from in before[i].seqIds)
    requires forall i :: 0 <= i < |cells| && to in cells[i].seqIds ==> cells[i].pos == before[i].pos
    ensures Holds(cells, tok, seen, to, text)
  {
    forall c, p ensures HasPos(cells, c, to, p) <==> HasPos(before, c, from, p) {
    }
    forall p | 0 <= p < |text| ensures Reached(cells, to, p) {
      assert Reached(before, from, p);
      var c :| HasPos(before, c, from, p);
      assert HasPos(cells, c, to, p);
    }
    forall c | 0 <= c < |cells| && to in cells[c].seqIds ensures CellHolds(cells[c], tok[c], seen[c], text) {
      assert CellHolds(before[c], tok[c], seen[c], text);
    }
  }

  // ---------------------------------------------------------------------------------------------

  datatype Beam = Beam(decoder: int, sequence: seq<int>)    // a candidate: whose it is, its tokens with the new one

  /** How a window ends: the prompt does not fit the cache; a round does not fit the decoders; all of them are done;
      no room is left for their tokens; or after all rounds. */
  datatype WindowEnd = PromptTooLong | Misfit | AllFinished | CacheFull | RoundsOver

  /** How many of the first j decoders are still running. */
  function StillRunning(done: seq<bool>, j: nat): nat
    requires j <= |done|
  {
    if j == 0 then 0 else StillRunning(done, j - 1) + if done[j - 1] then 0 else 1
  }

  ghost predicate HasRoom(cells: seq<Cell>, n: nat) {
    exists s: nat :: FreeRun(cells, s, n)
  }

  /** One round of the loop: the tokens sampled, or the candidates chosen, and which decoders are then finished. */
  datatype Round = Greedy(sampled: seq<int>, finished: seq<bool>) | Search(candidates: seq<Beam>, finished: seq<bool>)

  /** A candidate is a running decoder's tokens and one more. */
  predicate CandidateOk(c: Beam, done: seq<bool>, tokens: seq<seq<int>>) {
    && 0 <= c.decoder < |done| == |tokens| && !done[c.decoder]
    && |c.sequence| == |tokens[c.decoder]| + 1 && c.sequence[..|tokens[c.decoder]|] == tokens[c.decoder]
  }

  predicate CandidatesOk(candidates: seq<Beam>, done: seq<bool>, tokens: seq<seq<int>>) {
    forall c :: 0 <= c < |candidates| ==> CandidateOk(candidates[c], done, tokens)
  }

  /** Candidates with the same tokens stand together. */
  ghost predicate Grouped(candidates: seq<Beam>) {
    forall a, b, c :: 0 <= a < b < c < |candidates| && candidates[a].sequence == candidates[c].sequence
      ==> candidates[a].sequence == candidates[b].sequence
  }

  /** Candidate c's tokens have been given to one of the first j decoders. */
  ghost predicate Taken(c: Beam, chosen: seq<Beam>, done: seq<bool>) {
    exists k :: 0 <= k < |chosen| && k < |done| && !done[k] && chosen[k].sequence == c.sequence
  }

  /** The candidate that decoder j gets has only candidates before it whose tokens were given away before. */
  ghost predicate BestFirst(candidates: seq<Beam>, done: seq<bool>, chosen: seq<Beam>, j: nat)
    requires j < |chosen|
  {
    exists c :: 0 <= c < |candidates| && chosen[j] == candidates[c] && AllTaken(candidates[..c], chosen[..j], done)
  }

  ghost predicate AllTaken(candidates: seq<Beam>, chosen: seq<Beam>, done: seq<bool>) {
    forall c :: 0 <= c < |candidates| ==> Taken(candidates[c], chosen, done)
  }

  /** The best candidates go first. But in the first round no two decoders get the same tokens, as long as there are
      others; in the first round they get the candidates as they come. */
  ghost predicate Picked(candidates: seq<Beam>, done: seq<bool>, chosen: seq<Beam>, wrapped: bool, skip: bool) {
    && |chosen| == |done| && (forall j :: 0 <= j < |done| && !done[j] ==> BestFirst(candidates, done, chosen, j))
    && (skip && Grouped(candidates) && !wrapped ==>
          forall j, k :: 0 <= j < k < |done| && !done[j] && !done[k] ==> chosen[j].sequence != chosen[k].sequence)
    && (wrapped ==> AllTaken(candidates, chosen, done))
    && (!skip && !wrapped ==> InTurn(candidates, done, chosen))
  }

  ghost predicate InTurn(candidates: seq<Beam>, done: seq<bool>, chosen: seq<Beam>) {
    forall j :: 0 <= j < |chosen| && j < |done| ==> InTurnAt(candidates, done, chosen[j], j)
  }

  ghost predicate InTurnAt(candidates: seq<Beam>, done: seq<bool>, c: Beam, j: nat)
    requires j < |done|
  {
    !done[j] ==> StillRunning(done, j) < |candidates| && c == candidates[StillRunning(done, j)]
  }

  ghost predicate Different(done: seq<bool>, chosen: seq<Beam>) {
    forall j, k :: 0 <= j < k < |chosen| && k < |done| && !done[j] && !done[k] ==>
      chosen[j].sequence != chosen[k].sequence
  }

  /** No candidate from next on has tokens that are given away. */
  ghost predicate Left(candidates: seq<Beam>, done: seq<bool>, chosen: seq<Beam>, next: nat) {
    forall k, c :: 0 <= k < |chosen| && k < |done| && !done[k] && next <= c < |candidates| ==>
      candidates[c].sequence != chosen[k].sequence
  }

  /** Where the picking stands. */
  ghost predicate Picking(candidates: seq<Beam>, done: seq<bool>, chosen: seq<Beam>, wrapped: bool, skip: bool,
                          next: nat) {
    && |chosen| <= |done| && next <= |candidates|
    && (!skip && !wrapped ==> next == StillRunning(done, |chosen|) && InTurn(candidates, done, chosen))
    && (forall k :: 0 <= k < |chosen| && !done[k] ==> BestFirst(candidates, done, chosen, k))
    && (forall c :: 0 <= c < |candidates| && (c < next || wrapped) ==> Taken(candidates[c], chosen, done))
    && (skip && Grouped(candidates) && !wrapped ==> Different(done, chosen) && Left(candidates, done, chosen, next))
  }

  /** Each running decoder gets a candidate, the best first and, but in the first round, none with tokens
      that are already given away; only once all are given away the list starts over. */
  method PickBeams(candidates: seq<Beam>, done: seq<bool>, skip: bool) returns (chosen: seq<Beam>, wrapped: bool)
    requires candidates != [] || forall j :: 0 <= j < |done| ==> done[j]
    ensures Picked(candidates, done, chosen, wrapped, skip)
    ensures forall j :: 0 <= j < |done| && !done[j] ==> chosen[j] in candidates
  {
    hide Picking, Picked;
    chosen, wrapped := [], false;
    var next := 0;
    NothingPicked(candidates, done, skip);
    for j := 0 to |done|
      invariant |chosen| == j && next <= |candidates| && Picking(candidates, done, chosen, wrapped, skip, next)
      invariant forall k :: 0 <= k < j && !done[k] ==> chosen[k] in candidates
    {
      if done[j] {
        PickingOn(candidates, done, chosen, wrapped, skip, next);
        chosen := chosen + [Beam(j, [])];
        continue;
      }
      ghost var wrapped0, next0 := wrapped, next;
      if next >= |candidates| {
        next, wrapped := 0, true;
      }
      var picked := next;
      next := NextOther(candidates, picked, skip);
      PickingNext(candidates, done, chosen, wrapped0, skip, next0, picked, next);
      chosen := chosen + [candidates[picked]];
    }
    PickingEnds(candidates, done, chosen, wrapped, skip, next);
  }

  lemma {:induction false} NothingPicked(candidates: seq<Beam>, done: seq<bool>, skip: bool)
    ensures Picking(candidates, done, [], false, skip, 0)
  {
  }

  lemma {:induction false} PickingEnds(candidates: seq<Beam>, done: seq<bool>, chosen: seq<Beam>, wrapped: bool,
                                       skip: bool, next: nat)
    requires Picking(candidates, done, chosen, wrapped, skip, next) && |chosen| == |done|
    ensures Picked(candidates, done, chosen, wrapped, skip)
  {
    hide Taken, BestFirst, Grouped, InTurn;
  }

  /** A decoder that is done gets nothing. */
  lemma {:induction false} PickingOn(candidates: seq<Beam>, done: seq<bool>, before: seq<Beam>, wrapped: bool,
                                     skip: bool, next: nat)
    requires Picking(candidates, done, before, wrapped, skip, next) && |before| < |done| && done[|before|]
    ensures Picking(candidates, done, before + [Beam(|before|, [])], wrapped, skip, next)
  {
    hide Taken, BestFirst, Grouped, Different, Left, InTurn;
    var chosen := before + [Beam(|before|, [])];
    StillTaken(candidates, before, chosen, done);
    StillFirst(candidates, done, before, chosen);
    NoneMore(candidates, done, before, chosen, next);
  }

  lemma {:induction false} NoneMore(candidates: seq<Beam>, done: seq<bool>, before: seq<Beam>, chosen: seq<Beam>,
                                    next: nat)
    requires |before| < |done| && done[|before|] && |chosen| == |before| + 1 && chosen[..|before|] == before
    ensures InTurn(candidates, done, before) ==> InTurn(candidates, done, chosen)
    ensures Different(done, before) ==> Different(done, chosen)
    ensures Left(candidates, done, before, next) ==> Left(candidates, done, chosen, next)
  {
    hide StillRunning;
    forall k | 0 <= k < |before| ensures chosen[k] == before[k] {
    }
    assert InTurnAt(candidates, done, chosen[|before|], |before|);
    hide InTurnAt;
  }

  /** The next decoder gets the candidate picked. */
  lemma {:induction false} PickingNext(candidates: seq<Beam>, done: seq<bool>, before: seq<Beam>, wrapped: bool,
                                       skip: bool, next0: nat, picked: nat, next: nat)
    requires Picking(candidates, done, before, wrapped, skip, next0) && |before| < |done| && !done[|before|]
    requires candidates != [] && picked == if next0 >= |candidates| then 0 else next0
    requires picked < next <= |candidates| && (!skip ==> next == picked + 1)
      && (forall c :: picked <= c < next ==> candidates[c].sequence == candidates[picked].sequence)
      && (skip && next < |candidates| ==> candidates[next].sequence != candidates[picked].sequence)
    ensures Picking(candidates, done, before + [candidates[picked]], wrapped || next0 >= |candidates|, skip, next)
  {
    hide Taken, BestFirst, Grouped, Different, Left, InTurn;
    var chosen := before + [candidates[picked]];
    StillTaken(candidates, before, chosen, done);
    StillFirst(candidates, done, before, chosen);
    PickedFirst(candidates, done, before, chosen, picked);
    TakenLast(candidates, chosen, done);
    if !wrapped && next0 < |candidates| {
      if skip && Grouped(candidates) {
        LeftNext(candidates, done, before, picked, next);
      } else if !skip {
        InTurnNext(candidates, done, before);
      }
    }
  }

  lemma {:induction false} InTurnNext(candidates: seq<Beam>, done: seq<bool>, before: seq<Beam>)
    requires |before| < |done| && !done[|before|] && StillRunning(done, |before|) < |candidates|
    requires InTurn(candidates, done, before)
    ensures InTurn(candidates, done, before + [candidates[StillRunning(done, |before|)]])
    ensures StillRunning(done, |before| + 1) == StillRunning(done, |before|) + 1
  {
    assert InTurnAt(candidates, done, candidates[StillRunning(done, |before|)], |before|);
    hide InTurnAt, StillRunning;
  }

  lemma {:induction false} LeftNext(candidates: seq<Beam>, done: seq<bool>, before: seq<Beam>, picked: nat, next: nat)
    requires Grouped(candidates) && Different(done, before) && Left(candidates, done, before, picked)
    requires |before| < |done| && !done[|before|] && picked < next <= |candidates|
    requires next < |candidates| ==> candidates[next].sequence != candidates[picked].sequence
    ensures var chosen := before + [candidates[picked]];
      Different(done, chosen) && Left(candidates, done, chosen, next)
  {
    var chosen := before + [candidates[picked]];
    forall k, c | 0 <= k < |chosen| && k < |done| && !done[k] && next <= c < |candidates|
      ensures candidates[c].sequence != chosen[k].sequence
    {
      if k == |before| && c > next {
        NotBack(candidates, picked, next, c);
      }
    }
  }

  lemma {:induction false} NotBack(candidates: seq<Beam>, a: nat, b: nat, c: nat)
    requires Grouped(candidates) && a < b < c < |candidates| && candidates[a].sequence != candidates[b].sequence
    ensures candidates[a].sequence != candidates[c].sequence
  {
  }

  /** Goes on past the candidate picked and, if they are to be skipped, those with the same tokens behind it. */
  method NextOther(candidates: seq<Beam>, picked: nat, skip: bool) returns (next: nat)
    requires picked < |candidates|
    ensures picked < next <= |candidates| && (!skip ==> next == picked + 1)
    ensures forall c :: picked <= c < next ==> candidates[c].sequence == candidates[picked].sequence
    ensures skip && next < |candidates| ==> candidates[next].sequence != candidates[picked].sequence
  {
    next := picked + 1;
    while next < |candidates| && candidates[next].sequence == candidates[picked].sequence && skip
      invariant picked < next <= |candidates| && (!skip ==> next == picked + 1)
        && forall c :: picked <= c < next ==> candidates[c].sequence == candidates[picked].sequence
    {
      next := next + 1;
    }
  }

  lemma {:induction false} StillFirst(candidates: seq<Beam>, done: seq<bool>, before: seq<Beam>, chosen: seq<Beam>)
    requires |chosen| == |before| + 1 && chosen[..|before|] == before
    ensures forall k ::
      0 <= k < |before| && BestFirst(candidates, done, before, k) ==> BestFirst(candidates, done, chosen, k)
  {
    forall k | 0 <= k < |before| && BestFirst(candidates, done, before, k)
      ensures BestFirst(candidates, done, chosen, k)
    {
      assert chosen[..k] == before[..k] && chosen[k] == before[k];
    }
  }

  lemma {:induction false} PickedAll(candidates: seq<Beam>, done: seq<bool>, chosen: seq<Beam>, wrapped: bool,
                                     skip: bool)
    requires Picked(candidates, done, chosen, wrapped, skip)
    ensures |chosen| == |done|
  {
  }

  lemma {:induction false} PickedFirst(candidates: seq<Beam>, done: seq<bool>, before: seq<Beam>, chosen: seq<Beam>,
                                       picked: nat)
    requires picked < |candidates| && chosen == before + [candidates[picked]]
    requires forall c :: 0 <= c < picked ==> Taken(candidates[c], before, done)
    ensures BestFirst(candidates, done, chosen, |before|)
  {
    assert chosen[..|before|] == before;
    assert AllTaken(candidates[..picked], chosen[..|before|], done);
  }

  /** A candidate is fit exactly if it is a running decoder's tokens and any one more. */
  lemma {:induction false} CandidateExact(c: Beam, done: seq<bool>, tokens: seq<seq<int>>)
    requires |done| == |tokens|
    ensures CandidateOk(c, done, tokens) <==>
      exists d: nat, id: int :: d < |done| && !done[d] && c == Beam(d, tokens[d] + [id])
  {
    if CandidateOk(c, done, tokens) {
      var d: nat, id := c.decoder, c.sequence[|tokens[c.decoder]|];
      assert c.sequence == tokens[d] + [id];
      assert d < |done| && !done[d] && c == Beam(d, tokens[d] + [id]);
    }
  }

  lemma {:induction false} StillTaken(candidates: seq<Beam>, before: seq<Beam>, chosen: seq<Beam>, done: seq<bool>)
    requires |chosen| == |before| + 1 && chosen[..|before|] == before
    ensures
      forall c :: 0 <= c < |candidates| && Taken(candidates[c], before, done) ==> Taken(candidates[c], chosen, done)
  {
    forall c | 0 <= c < |candidates| && Taken(candidates[c], before, done) ensures Taken(candidates[c], chosen, done) {
      var k :| 0 <= k < |before| && k < |done| && !done[k] && before[k].sequence == candidates[c].sequence;
      assert chosen[k] == before[k];
    }
  }

  lemma {:induction false} TakenLast(candidates: seq<Beam>, chosen: seq<Beam>, done: seq<bool>)
    requires 0 < |chosen| <= |done| && !done[|chosen| - 1]
    ensures forall c ::
      0 <= c < |candidates| && candidates[c].sequence == chosen[|chosen| - 1].sequence ==>
        Taken(candidates[c], chosen, done)
  {
  }

  /** Decoder j has n tokens, of which k are evaluated: the cells with its id are the prompt and those tokens. */
  ghost predicate HoldsPart(cells: seq<Cell>, tok: seq<int>, seen: seq<View>, j: nat, prompt: seq<int>,
                            tokens: seq<seq<int>>, n: nat, k: nat)
    requires |cells| == |tok| == |seen| && j < |tokens|
  {
    |tokens[j]| == n >= k && Holds(cells, tok, seen, j, prompt + tokens[j][..k])
  }

  /** Every decoder that is still running is so far. */
  ghost predicate AllInStep(cells: seq<Cell>, tok: seq<int>, seen: seq<View>, prompt: seq<int>, done: seq<bool>,
                            tokens: seq<seq<int>>, n: nat, k: nat)
    requires |cells| == |tok| == |seen|
  {
    |done| == |tokens|
      && forall j :: 0 <= j < |done| && !done[j] ==> HoldsPart(cells, tok, seen, j, prompt, tokens, n, k)
  }

  function RoundUp(x: nat, n: nat): (r: nat)
    requires n > 0
    ensures x <= r
  {
    (x + n - 1) / n * n
  }

  /** Which decoders are done, and what each has sampled. */
  datatype Held = Held(done: seq<bool>, tokens: seq<seq<int>>)

  /** One round: every running decoder goes on with what is sampled for it, or with the candidate it is given; then
      those finished are done. */
  ghost predicate RoundFrom(round: Round, before: Held, now: Held, skip: bool) {
    && |before.done| == |before.tokens| == |now.done| == |now.tokens| && GoneOn(round, before, now.tokens, skip)
    && forall j :: 0 <= j < |now.done| ==>
      now.done[j] == (before.done[j] || (j < |round.finished| && round.finished[j]))
  }

  ghost predicate GoneOn(round: Round, before: Held, tokens: seq<seq<int>>, skip: bool)
    requires |before.done| == |before.tokens| == |tokens|
  {
    if round.Greedy? then
      && |round.sampled| == |tokens|
      && forall j :: 0 <= j < |tokens| ==>
        tokens[j] == if before.done[j] then before.tokens[j] else before.tokens[j] + [round.sampled[j]]
    else exists chosen: seq<Beam>, wrapped: bool ::
      && Picked(round.candidates, before.done, chosen, wrapped, skip)
      && forall j :: 0 <= j < |tokens| ==>
        tokens[j] == if before.done[j] then before.tokens[j] else chosen[j].sequence
  }

  /** From the start on each round leads from one state to the next. */
  ghost predicate History(rounds: seq<Round>, held: seq<Held>, n: nat, i: nat) {
    && i <= |rounds| && |held| == i + 1 && held[0] == Held(seq(n, _ => false), seq(n, _ => []))
    && forall r :: 0 <= r < i ==> RoundFrom(rounds[r], held[r], held[r + 1], r > 0)
  }

  lemma {:induction false} HistoryStarts(rounds: seq<Round>, held: seq<Held>, n: nat)
    requires held == [Held(seq(n, _ => false), seq(n, _ => []))]
    ensures History(rounds, held, n, 0)
  {
  }

  lemma {:induction false} HistoryNow(rounds: seq<Round>, held: seq<Held>, n: nat, i: nat)
    requires History(rounds, held, n, i)
    ensures |held| == i + 1
  {
  }

  lemma {:induction false} HistoryMore(rounds: seq<Round>, held: seq<Held>, n: nat, i: nat, now: Held)
    requires History(rounds, held, n, i) && i < |rounds| && RoundFrom(rounds[i], held[i], now, i > 0)
    ensures History(rounds, held + [now], n, i + 1)
  {
    hide RoundFrom;
  }

  class BeamState {
    const cache: KvCache
    const pad: nat
    var prompt: seq<int>
    var tokens: seq<seq<int>>    // what each decoder has sampled
    var done: seq<bool>          // completed or failed
    ghost var tok: seq<int>
    ghost var seen: seq<View>

    ghost predicate Consistent()
      reads this, cache, cache.cells
    {
      && cache.Valid() && cache.size > 0 && pad > 0 && |tok| == |seen| == cache.size
      && |tokens| == |done| <= MAX_DECODERS
      && forall i, x :: 0 <= i < cache.size && x in cache.cells[i].seqIds ==> 0 <= x < MAX_DECODERS
    }

    ghost predicate InStep(n: nat, k: nat)
      reads this, cache, cache.cells
    {
      Consistent() && AllInStep(cache.cells[..], tok, seen, prompt, done, tokens, n, k)
    }

    constructor (size: nat, pad: nat)
      requires size > 0 && pad > 0
      ensures Consistent() && fresh(cache) && fresh(cache.cells) && cache.size == size
    {
      cache := new KvCache(size);
      this.pad, prompt, tokens, done := pad, [], [], [];
      tok, seen := seq(size, _ => 0), seq(size, _ => {});
    }

    /** The mask: entry [k][i] hides cell i from item k. */
    method BuildMask(batch: seq<BatchItem>, nKv: nat) returns (mask: seq<seq<bool>>)
      requires cache.Valid() && nKv <= cache.size && forall k :: 0 <= k < |batch| ==> |batch[k].seqIds| == 1
      ensures |mask| == |batch|
      ensures forall k :: 0 <= k < |batch| ==> |mask[k]| == nKv && forall i :: 0 <= i < nKv ==>
        (mask[k][i] <==> batch[k].seqIds[0] !in cache.cells[i].seqIds || cache.cells[i].pos > batch[k].pos)
    {
      mask := [];
      for k := 0 to |batch|
        invariant |mask| == k
        invariant forall m :: 0 <= m < k ==> |mask[m]| == nKv && forall i :: 0 <= i < nKv ==>
          (mask[m][i] <==> batch[m].seqIds[0] !in cache.cells[i].seqIds || cache.cells[i].pos > batch[m].pos)
      {
        var row := [];
        for i := 0 to nKv
          invariant |row| == i
          invariant forall j :: 0 <= j < i ==>
            (row[j] <==> batch[k].seqIds[0] !in cache.cells[j].seqIds || cache.cells[j].pos > batch[k].pos)
        {
          row := row + [batch[k].seqIds[0] !in cache.cells[i].seqIds || cache.cells[i].pos > batch[k].pos];
        }
        mask := mask + [row];
      }
    }

    /** Evaluates a batch: finds it a slot, and lets each token see what the mask leaves open. */
    method EvalBatch(batch: seq<BatchItem>) returns (ok: bool)
      requires Consistent() && BatchOk(batch)
        && forall k :: 0 <= k < |batch| ==> |batch[k].seqIds| == 1 && 0 <= batch[k].seqIds[0] < MAX_DECODERS
      modifies cache, cache.cells, this`tok, this`seen
      ensures Consistent() && (ok <==> exists s: nat :: FreeRun(old(cache.cells[..]), s, |batch|))
      ensures ok ==> FreeRun(old(cache.cells[..]), cache.head, |batch|)
      ensures ok ==>
        cache.cells[..] == Placed(old(cache.cells[..]), cache.head, batch) && tok == Tokens(old(tok), cache.head, batch)
      ensures ok ==> seen == Views(old(seen), cache.head, batch, cache.cells[..], tok)
      ensures !ok ==> cache.cells[..] == old(cache.cells[..]) && tok == old(tok) && seen == old(seen)
      ensures forall top: nat ::
        old(cache.UsedBelow(top)) && top + |batch| <= cache.size ==> ok && cache.UsedBelow(top + |batch|)
    {
      ghost var cells := cache.cells[..];
      ok := cache.FindSlot(batch);
      if !ok {
        return;
      }
      PlacedIds(cells, cache.head, batch);
      var used := cache.CellMax();
      var wanted := if pad > RoundUp(used, pad) then pad else RoundUp(used, pad);
      var nKv := if cache.size < wanted then cache.size else wanted;
      var mask := BuildMask(batch, nKv);
      tok := Tokens(tok, cache.head, batch);
      MaskExposes(cache.cells[..], tok, batch, nKv, mask);
      ghost var seen0, tok1, head, placed := seen, tok, cache.head, cache.cells[..];
      seen := seq(|seen0|, i requires 0 <= i < |seen0| =>
        if head <= i < head + |batch| then Unmasked(placed, tok1, mask[i - head]) else seen0[i]);
    }

    /** Clears the cache, evaluates the prompt for decoder 0 and shares its cells with the others. */
    method StartPrompt(prompt: seq<int>, n: nat) returns (ok: bool)
      requires Consistent() && 0 < n <= MAX_DECODERS && |prompt| < MAX_POS
      modifies this, cache, cache.cells
      ensures Consistent() && this.prompt == prompt && (ok <==> |prompt| <= cache.size)
      ensures ok ==> InStep(0, 0) && |done| == n && forall j :: 0 <= j < n ==> !done[j]
      ensures done == seq(n, _ => false) && tokens == seq(n, _ => [])
      ensures ok ==> cache.UsedBelow(|prompt|)
    {
      hide Holds, Continues, Placed, Tokens, Views;
      this.prompt := prompt;
      tokens, done := seq(n, _ => []), seq(n, _ => false);
      cache.Clear();
      var batch := seq(|prompt|, i requires 0 <= i < |prompt| => BatchItem(prompt[i], i, [0]));
      ghost var cells, tok0, seen0 := cache.cells[..], tok, seen;
      assert |prompt| <= cache.size ==> FreeRun(cells, 0, |prompt|);
      ok := EvalBatch(batch);
      if !ok {
        return;
      }
      PromptHolds(cells, tok0, seen0, batch, cache.head, prompt);
      ShareCells(n);
      assert prompt + [] == prompt;
    }

    method ShareCells(n: nat)
      requires Consistent() && 0 < n <= MAX_DECODERS && Holds(cache.cells[..], tok, seen, 0, prompt)
      requires forall i, x :: 0 <= i < cache.size && x in cache.cells[i].seqIds ==> x == 0
      modifies cache, cache.cells
      ensures Consistent() && forall k :: 0 <= k < n ==> Holds(cache.cells[..], tok, seen, k, prompt)
      ensures forall top: nat :: old(cache.UsedBelow(top)) ==> cache.UsedBelow(top)
    {
      hide Holds;
      for j := 1 to n
        invariant Consistent() && (forall i, x :: 0 <= i < cache.size && x in cache.cells[i].seqIds ==> 0 <= x < j)
        invariant forall k :: 0 <= k < j ==> Holds(cache.cells[..], tok, seen, k, prompt)
        invariant forall top: nat :: old(cache.UsedBelow(top)) ==> cache.UsedBelow(top)
      {
        ghost var before := cache.cells[..];
        cache.SeqCp(0, j, -1, -1);
        assert forall i :: 0 <= i < cache.size ==> CellOk(before[i]);
        CopiedHolds(before, cache.cells[..], j, tok, seen, prompt);
      }
    }

    /** Greedy sampling: each running decoder goes on with its own token. */
    method SampleGreedy(sampled: seq<int>, ghost n: nat)
      requires InStep(n, n) && |sampled| == |tokens|
      modifies this`tokens
      ensures InStep(n + 1, n) && |tokens| == |old(tokens)|
      ensures
        forall j :: 0 <= j < |tokens| ==> tokens[j] == if done[j] then old(tokens)[j] else old(tokens)[j] + [sampled[j]]
    {
      for j := 0 to |tokens|
        invariant |tokens| == |old(tokens)|
        invariant forall k :: 0 <= k < |tokens| ==>
          tokens[k] == if k >= j || done[k] then old(tokens)[k] else old(tokens)[k] + [sampled[k]]
      {
        if !done[j] {
          tokens := tokens[j := tokens[j] + [sampled[j]]];
        }
      }
      SampledInStep(cache.cells[..], tok, seen, prompt, done, sampled, old(tokens), tokens, n);
    }

    /** Beam search: each running decoder takes over one of the candidates, from whichever running
        decoder that came. */
    method TakeBeams(candidates: seq<Beam>, n: nat) returns (ghost chosen: seq<Beam>, ghost wrapped: bool)
      requires InStep(n, n) && (forall c :: 0 <= c < |candidates| ==> CandidateOk(candidates[c], done, tokens))
      requires candidates != [] || forall j :: 0 <= j < |done| ==> done[j]
      modifies this`tokens, cache, cache.cells
      ensures InStep(n + 1, n) && |tokens| == |old(tokens)|
      ensures forall j :: 0 <= j < |tokens| && done[j] ==> tokens[j] == old(tokens)[j]
      ensures Picked(candidates, done, chosen, wrapped, n > 0)
      ensures forall j :: 0 <= j < |tokens| && !done[j] ==> tokens[j] == chosen[j].sequence
      ensures forall top: nat :: old(cache.UsedBelow(top)) ==> cache.UsedBelow(top)
    {
      hide Holds, HandedOn, Grouped, Taken, CandidateOk, AllInStep, Moved, Decoders, Picked;
      var fin, before := done, tokens;
      var picked, overrun := PickBeams(candidates, fin, n > 0);
      chosen, wrapped := picked, overrun;
      PickedAll(candidates, fin, picked, overrun, n > 0);
      forall j | 0 <= j < |fin| && !fin[j] ensures CandidateOk(chosen[j], fin, before) {
        var c :| 0 <= c < |candidates| && chosen[j] == candidates[c];
      }
      ghost var cells := cache.cells[..];
      var src := MoveCells(picked);
      AssignTokens(picked);
      TakenInStep(cells, cache.cells[..], tok, seen, prompt, fin, src, chosen, before, tokens, n);
    }

    method MoveCells(chosen: seq<Beam>) returns (src: seq<int>)
      requires Consistent() && |chosen| == |done|
        && forall j :: 0 <= j < |done| && !done[j] ==> CandidateOk(chosen[j], done, tokens)
      modifies cache, cache.cells
      ensures Consistent() && |src| == |done| && Decoders(Running(done), src)
      ensures forall j :: 0 <= j < |done| ==> src[j] == chosen[j].decoder
      ensures Moved(old(cache.cells[..]), cache.cells[..], Running(done), src)
      ensures forall top: nat :: old(cache.UsedBelow(top)) ==> cache.UsedBelow(top)
    {
      hide HandedOn, Became;
      var fin := done;
      var live := Running(fin);
      src := seq(|fin|, j requires 0 <= j < |fin| => chosen[j].decoder);
      ghost var cells := cache.cells[..];
      HandOn(cache, live, src);
      HandedOnIds(cells, cache.cells[..], live, src);
    }

    method AssignTokens(chosen: seq<Beam>)
      requires |chosen| == |done| == |tokens|
      modifies this`tokens
      ensures |tokens| == |old(tokens)|
      ensures forall k :: 0 <= k < |tokens| ==> tokens[k] == if done[k] then old(tokens)[k] else chosen[k].sequence
    {
      for j := 0 to |tokens|
        invariant |tokens| == |old(tokens)|
        invariant forall k ::
          0 <= k < |tokens| ==> tokens[k] == if k >= j || done[k] then old(tokens)[k] else chosen[k].sequence
      {
        if !done[j] {
          tokens := tokens[j := chosen[j].sequence];
        }
      }
    }

    /** Evaluates the last token of every running decoder, if that many cells in a row are free. */
    method EvalTokens(n: nat) returns (ok: bool)
      requires InStep(n + 1, n) && |prompt| + n < MAX_POS
      modifies cache, cache.cells, this`tok, this`seen
      ensures ok <==> HasRoom(old(cache.cells[..]), StillRunning(done, |done|))
      ensures !ok ==> cache.cells[..] == old(cache.cells[..])
      ensures ok ==> InStep(n + 1, n + 1)
      ensures !ok ==> InStep(n + 1, n)
      ensures forall top: nat :: old(cache.UsedBelow(top)) && top + StillRunning(done, |done|) <= cache.size ==>
        ok && cache.UsedBelow(top + StillRunning(done, |done|))
    {
      var batch := LastTokens(n);
      ghost var cells, tok0, seen0 := cache.cells[..], tok, seen;
      assert forall top: nat :: old(cache.UsedBelow(top)) ==> cache.UsedBelow(top);
      ok := EvalBatch(batch);
      if ok {
        EvaluatedInStep(cells, tok0, seen0, prompt, done, tokens, batch, cache.head, n);
      }
    }

    method LastTokens(n: nat) returns (batch: seq<BatchItem>)
      requires
        Consistent() && |prompt| + n < MAX_POS && forall j :: 0 <= j < |done| && !done[j] ==> |tokens[j]| == n + 1
      ensures |batch| == StillRunning(done, |done|)
      ensures
        BatchOk(batch) && forall k :: 0 <= k < |batch| ==> |batch[k].seqIds| == 1 && 0 <= batch[k].seqIds[0] < |done|
      ensures forall j :: 0 <= j < |done| && !done[j] ==> Continues(batch, j, prompt + tokens[j], |prompt| + n)
    {
      hide Latest, Continues;
      batch := [];
      ghost var texts := Texts(prompt, tokens);
      NothingLatest(done, texts, |prompt| + n);
      for j := 0 to |done|
        invariant |texts| == |done| && Latest(batch, done, texts, j, |prompt| + n) && |batch| == StillRunning(done, j)
      {
        LatestStep(batch, done, texts, j, |prompt| + n);
        if !done[j] {
          assert texts[j][|prompt| + n] == tokens[j][|tokens[j]| - 1];
          batch := batch + [BatchItem(tokens[j][|tokens[j]| - 1], |prompt| + n, [j])];
        }
      }
      LatestEnds(batch, done, texts, |prompt| + n);
      assert forall j :: 0 <= j < |done| && !done[j] ==> texts[j] == prompt + tokens[j];
    }

    /** What is sampled is there for every decoder, or the candidates continue running decoders. */
    predicate Fits(round: Round)
      reads this
    {
      if round.Greedy? then |round.sampled| == |tokens|
      else round.candidates != [] && CandidatesOk(round.candidates, done, tokens)
    }

    /** Nothing changes for a round that does not fit the decoders. */
    method Sample(round: Round, n: nat) returns (ok: bool)
      requires InStep(n, n)
      modifies this`tokens, cache, cache.cells
      ensures ok == old(Fits(round))
      ensures if ok then InStep(n + 1, n) else InStep(n, n) && tokens == old(tokens)
      ensures |tokens| == |old(tokens)| == |done| && (ok ==> GoneOn(round, Held(done, old(tokens)), tokens, n > 0))
      ensures forall top: nat :: old(cache.UsedBelow(top)) ==> cache.UsedBelow(top)
    {
      hide AllInStep, Picked;
      ok := true;
      assert |tokens| == |done|;
      if round.Greedy? && |round.sampled| == |tokens| {
        SampleGreedy(round.sampled, n);
      } else if round.Search? && round.candidates != [] && CandidatesOk(round.candidates, done, tokens) {
        ghost var chosen, wrapped := TakeBeams(round.candidates, n);
        assert Picked(round.candidates, done, chosen, wrapped, n > 0);
      } else {
        ok := false;
      }
    }

    /** Sampling, and what follows from it for the decoders. */
    method PlayRound(round: Round, n: nat) returns (ok: bool)
      requires InStep(n, n)
      modifies this`tokens, this`done, cache, cache.cells
      ensures ok == old(Fits(round)) && |done| == |tokens| == old(|done|)
      ensures if ok then InStep(n + 1, n) && RoundFrom(round, Held(old(done), old(tokens)), Held(done, tokens), n > 0)
        else InStep(n, n) && tokens == old(tokens) && done == old(done)
      ensures forall top: nat :: old(cache.UsedBelow(top)) ==> cache.UsedBelow(top)
    {
      hide AllInStep, GoneOn, CandidatesOk;
      ok := Sample(round, n);
      if ok {
        Finish(round.finished, n);
      }
    }

    /** The loop over one window: whatever is sampled and however the beams are picked, at the start of
        every round each running decoder's cells are exactly the prompt and all its tokens. It ends only when it
        must, and each time the texts and cells are in step. */
    method DecodeWindow(prompt: seq<int>, n: nat, rounds: seq<Round>)
      returns (end: WindowEnd, i: nat, ghost held: seq<Held>)
      requires Consistent() && 0 < n <= MAX_DECODERS && |prompt| + |rounds| < MAX_POS
      modifies this, cache, cache.cells
      ensures Consistent() && i <= |rounds| && this.prompt == prompt
      ensures end != PromptTooLong ==> |held| == i + 1 && History(rounds, held, n, i)
      ensures end == RoundsOver || end == Misfit ==> held[i] == Held(done, tokens)
      ensures end == AllFinished || end == CacheFull ==>
        i < |rounds| && RoundFrom(rounds[i], held[i], Held(done, tokens), i > 0)
      ensures end == PromptTooLong <==> |prompt| > cache.size
      ensures end == RoundsOver ==> i == |rounds| && InStep(i, i)
      ensures end == Misfit ==> i < |rounds| && InStep(i, i) && !Fits(rounds[i])
      ensures end == AllFinished ==> i < |rounds| && InStep(i + 1, i) && forall j :: 0 <= j < |done| ==> done[j]
      ensures end == CacheFull ==>
        i < |rounds| && InStep(i + 1, i) && (exists j :: 0 <= j < |done| && !done[j])
          && !HasRoom(cache.cells[..], StillRunning(done, |done|))
      ensures |prompt| + n * |rounds| <= cache.size ==> end != CacheFull
    {
      hide AllInStep, FreeRun, CandidatesOk, RoundFrom, History;
      i, held := 0, [];
      var ok := StartPrompt(prompt, n);
      if !ok {
        return PromptTooLong, 0, [];
      }
      held := [Held(done, tokens)];
      HistoryStarts(rounds, held, n);
      while i < |rounds|
        invariant i <= |rounds| && InStep(i, i) && this.prompt == prompt && |prompt| <= cache.size && |done| == n
        invariant |prompt| + n * |rounds| <= cache.size ==> cache.UsedBelow(|prompt| + n * i)
        invariant History(rounds, held, n, i) && |held| == i + 1 && held[i] == Held(done, tokens)
      {
        HistoryNow(rounds, held, n, i);
        var taken := PlayRound(rounds[i], i);
        if !taken {
          return Misfit, i, held;
        }
        if AllDone() {
          return AllFinished, i, held;
        }
        RoomLeft(prompt, done, n, i, |rounds|);
        ghost var top := |prompt| + n * i;
        assert |prompt| + n * |rounds| <= cache.size ==> cache.UsedBelow(top);
        ok := EvalTokens(i);
        if !ok {
          return CacheFull, i, held;
        }
        assert |prompt| + n * |rounds| <= cache.size ==> cache.UsedBelow(top + StillRunning(done, |done|));
        HistoryMore(rounds, held, n, i, Held(done, tokens));
        i, held := i + 1, held + [Held(done, tokens)];
      }
      end := RoundsOver;
    }

    predicate AllDone()
      reads this
    {
      forall j :: 0 <= j < |done| ==> done[j]
    }

    /** Marks decoders as completed or failed; their cells stay behind. */
    method Finish(finished: seq<bool>, ghost n: nat)
      requires InStep(n + 1, n)
      modifies this`done
      ensures InStep(n + 1, n) && |done| == |old(done)|
      ensures forall j :: 0 <= j < |done| ==> done[j] == (old(done)[j] || (j < |finished| && finished[j]))
    {
      for j := 0 to |done|
        invariant |done| == |old(done)|
        invariant forall k :: 0 <= k < |done| ==> done[k] == (old(done)[k] || (k < j && k < |finished| && finished[k]))
      {
        if j < |finished| && finished[j] {
          done := done[j := true];
        }
      }
    }
  }

  /** After i of the rounds there is room for one more. */
  lemma {:induction false} RoomLeft(prompt: seq<int>, done: seq<bool>, n: nat, i: nat, rounds: nat)
    requires |done| == n && i < rounds
    ensures StillRunning(done, |done|) <= n
    ensures |prompt| + n * i + n == |prompt| + n * (i + 1) <= |prompt| + n * rounds
  {
    RunningAtMost(done, |done|);
    Arith.MulMono(n, i + 1, rounds);
    Arith.MulDistribute(n, i, 1);
  }

  /** The longest prompt: half the context from earlier, behind its mark, and up to four tokens for the task. */
  function LongestPrompt(textContext: nat): nat {
    1 + textContext / 2 + 4
  }

  function MostRounds(textContext: nat): nat {
    if textContext / 2 < 4 then 0 else textContext / 2 - 4
  }

  /** How large a cache is made for n decoders. */
  function CacheSize(textContext: nat, n: nat): nat {
    RoundUp(textContext, 256) * (if n > 1 then n + 2 else 1)
  }

  /** The cache has room for every window of n decoders, unless there is just one and its context is not rounded up. */
  lemma {:induction false} RoomExact(textContext: nat, n: nat)
    requires textContext > 0 && n > 0
    ensures LongestPrompt(textContext) + n * MostRounds(textContext) <= CacheSize(textContext, n)
      <==> n > 1 || textContext % 256 != 0
  {
    hide RoundUp;
    RoundedUp(textContext);
    var padded := RoundUp(textContext, 256);
    if n > 1 {
      Arith.MulMono(n, MostRounds(textContext), padded);
      Arith.MulDistribute(padded, n, 2);
      assert n * padded == padded * n;
    } else {
      assert n * MostRounds(textContext) == MostRounds(textContext);
    }
  }

  lemma {:induction false} RoundedUp(x: nat)
    requires x > 0
    ensures RoundUp(x, 256) >= 256 && if x % 256 == 0 then RoundUp(x, 256) == x else RoundUp(x, 256) > x
  {
  }

  lemma {:induction false} RunningAtMost(done: seq<bool>, j: nat)
    requires j <= |done|
    ensures StillRunning(done, j) <= j
  {
    if j > 0 {
      RunningAtMost(done, j - 1);
    }
  }

  lemma {:induction false} PlacedIds(cells: seq<Cell>, head: nat, batch: seq<BatchItem>)
    requires forall k :: 0 <= k < |batch| ==> |batch[k].seqIds| == 1 && 0 <= batch[k].seqIds[0] < MAX_DECODERS
    requires forall i, x :: 0 <= i < |cells| && x in cells[i].seqIds ==> 0 <= x < MAX_DECODERS
    ensures forall i, x :: 0 <= i < |cells| && x in Placed(cells, head, batch)[i].seqIds ==> 0 <= x < MAX_DECODERS
  {
  }

  /** The cells a row of the mask leaves open. */
  ghost function Unmasked(cells: seq<Cell>, tok: seq<int>, row: seq<bool>): View
    requires |row| <= |cells| == |tok|
  {
    set i | 0 <= i < |row| && !row[i] :: (cells[i].pos, tok[i])
  }

  /** The mask is cut off behind the last cell in use, and so hides nothing that should be seen. */
  lemma {:induction false} MaskExposes(cells: seq<Cell>, tok: seq<int>, batch: seq<BatchItem>, nKv: nat,
                                       mask: seq<seq<bool>>)
    requires |cells| == |tok| && nKv <= |cells| && |mask| == |batch|
    requires
      (forall i :: 0 <= i < |cells| ==> CellOk(cells[i])) && (forall i :: nKv <= i < |cells| ==> cells[i].pos < 0)
    requires forall k :: 0 <= k < |batch| ==> |batch[k].seqIds| == 1 && |mask[k]| == nKv && forall i :: 0 <= i < nKv ==>
      (mask[k][i] <==> batch[k].seqIds[0] !in cells[i].seqIds || cells[i].pos > batch[k].pos)
    ensures forall k ::
      0 <= k < |batch| ==> Unmasked(cells, tok, mask[k]) == Exposed(cells, tok, batch[k].seqIds[0], batch[k].pos)
  {
    forall k | 0 <= k < |batch|
      ensures Unmasked(cells, tok, mask[k]) == Exposed(cells, tok, batch[k].seqIds[0], batch[k].pos)
    {
      forall x | x in Exposed(cells, tok, batch[k].seqIds[0], batch[k].pos) ensures x in Unmasked(cells, tok, mask[k]) {
        var c :|
          0 <= c < |cells| && batch[k].seqIds[0] in cells[c].seqIds && cells[c].pos <= batch[k].pos
            && x == (cells[c].pos, tok[c]);
        assert CellOk(cells[c]);
        assert !mask[k][c];
      }
    }
  }

  lemma {:induction false} PromptContinues(prompt: seq<int>, batch: seq<BatchItem>)
    requires |batch| == |prompt| && forall i :: 0 <= i < |prompt| ==> batch[i] == BatchItem(prompt[i], i, [0])
    ensures Continues(batch, 0, prompt, 0)
  {
    forall p | 0 <= p < |prompt| ensures HasItem(batch, 0, p) {
      assert ItemOf(batch, p, 0);
    }
  }

  lemma {:induction false} PromptHolds(cells: seq<Cell>, tok: seq<int>, seen: seq<View>, batch: seq<BatchItem>,
                                       head: nat, prompt: seq<int>)
    requires
      |cells| == |tok| == |seen| && (forall i :: 0 <= i < |cells| ==> cells[i] == FREE) && head + |batch| <= |cells|
    requires |batch| == |prompt| && forall i :: 0 <= i < |prompt| ==> batch[i] == BatchItem(prompt[i], i, [0])
    ensures var cells', tok' := Placed(cells, head, batch), Tokens(tok, head, batch);
      && Holds(cells', tok', Views(seen, head, batch, cells', tok'), 0, prompt)
      && forall i, x :: 0 <= i < |cells| && x in cells'[i].seqIds ==> x == 0
  {
    PromptContinues(prompt, batch);
    assert prompt[..0] == [];
    BatchHolds(cells, tok, seen, batch, head, 0, prompt, 0);
  }

  lemma {:induction false} CopiedHolds(before: seq<Cell>, cells: seq<Cell>, j: nat, tok: seq<int>, seen: seq<View>,
                                       text: seq<int>)
    requires |before| == |cells| == |tok| == |seen| && (forall i :: 0 <= i < |before| ==> CellOk(before[i]))
    requires forall i :: 0 <= i < |cells| ==> cells[i] == Copied(before[i], 0, j, -1, -1)
    requires forall i :: 0 <= i < |cells| ==> j !in before[i].seqIds
    requires 0 < j && forall k :: 0 <= k < j ==> Holds(before, tok, seen, k, text)
    ensures forall k :: 0 <= k < j + 1 ==> Holds(cells, tok, seen, k, text)
  {
    forall k | 0 <= k < j + 1 ensures Holds(cells, tok, seen, k, text) {
      SameHolds(before, if k < j then k else 0, cells, k, tok, seen, text);
    }
  }

  function Running(done: seq<bool>): (r: seq<bool>)
    ensures |r| == |done| && forall j :: 0 <= j < |done| ==> r[j] == !done[j]
  {
    seq(|done|, j requires 0 <= j < |done| => !done[j])
  }

  ghost predicate Moved(before: seq<Cell>, cells: seq<Cell>, live: seq<bool>, src: seq<int>)
    requires Decoders(live, src)
  {
    |before| == |cells|
      && forall i :: 0 <= i < |cells| ==> Became(cells[i], before[i], HandedOn(before[i].seqIds, live, src))
  }

  lemma {:induction false} SampledInStep(cells: seq<Cell>, tok: seq<int>, seen: seq<View>, prompt: seq<int>,
                                         done: seq<bool>,
                                         sampled: seq<int>, before: seq<seq<int>>, tokens: seq<seq<int>>, n: nat)
    requires |cells| == |tok| == |seen| && AllInStep(cells, tok, seen, prompt, done, before, n, n)
      && |sampled| == |tokens| == |before|
    requires forall j :: 0 <= j < |tokens| && !done[j] ==> tokens[j] == before[j] + [sampled[j]]
    ensures AllInStep(cells, tok, seen, prompt, done, tokens, n + 1, n)
  {
    hide Holds;
    forall j | 0 <= j < |done| && !done[j] ensures HoldsPart(cells, tok, seen, j, prompt, tokens, n + 1, n) {
      assert HoldsPart(cells, tok, seen, j, prompt, before, n, n);
      assert tokens[j][..n] == before[j][..n];
    }
  }

  lemma {:induction false} EvaluatedInStep(cells: seq<Cell>, tok: seq<int>, seen: seq<View>, prompt: seq<int>,
                                           done: seq<bool>, tokens: seq<seq<int>>,
                                           batch: seq<BatchItem>, head: nat, n: nat)
    requires
      |cells| == |tok| == |seen| && FreeRun(cells, head, |batch|) && (forall c :: 0 <= c < |cells| ==> CellOk(cells[c]))
    requires AllInStep(cells, tok, seen, prompt, done, tokens, n + 1, n)
      && (forall k :: 0 <= k < |batch| ==> |batch[k].seqIds| == 1)
    requires forall j :: 0 <= j < |done| && !done[j] ==> Continues(batch, j, prompt + tokens[j], |prompt| + n)
    ensures var cells', tok' := Placed(cells, head, batch), Tokens(tok, head, batch);
      AllInStep(cells', tok', Views(seen, head, batch, cells', tok'), prompt, done, tokens, n + 1, n + 1)
  {
    hide Holds, Continues, CellOk, FreeRun, Placed, Tokens, Views, Exposed;
    var cells', tok' := Placed(cells, head, batch), Tokens(tok, head, batch);
    forall j | 0 <= j < |done| && !done[j]
      ensures HoldsPart(cells', tok', Views(seen, head, batch, cells', tok'), j, prompt, tokens, n + 1, n + 1)
    {
      assert HoldsPart(cells, tok, seen, j, prompt, tokens, n + 1, n);
      var text := prompt + tokens[j];
      assert text[..|prompt| + n] == prompt + tokens[j][..n] && tokens[j][..n + 1] == tokens[j];
      BatchHolds(cells, tok, seen, batch, head, j, text, |prompt| + n);
    }
  }

  lemma {:induction false} TakenInStep(before: seq<Cell>, cells: seq<Cell>, tok: seq<int>, seen: seq<View>,
                                       prompt: seq<int>, done: seq<bool>, src: seq<int>,
                                       chosen: seq<Beam>, earlier: seq<seq<int>>, tokens: seq<seq<int>>, n: nat)
    requires |before| == |cells| == |tok| == |seen| && AllInStep(before, tok, seen, prompt, done, earlier, n, n)
    requires Decoders(Running(done), src) && |src| == |chosen| == |done| == |tokens|
      && Moved(before, cells, Running(done), src)
    requires forall j :: 0 <= j < |done| ==> src[j] == chosen[j].decoder
    requires forall j ::
      0 <= j < |done| && !done[j] ==> CandidateOk(chosen[j], done, earlier) && tokens[j] == chosen[j].sequence
    ensures AllInStep(cells, tok, seen, prompt, done, tokens, n + 1, n)
  {
    hide Holds, HandedOn, Became, Decoders;
    forall j | 0 <= j < |done| && !done[j] ensures HoldsPart(cells, tok, seen, j, prompt, tokens, n + 1, n) {
      var d := chosen[j].decoder;
      assert CandidateOk(chosen[j], done, earlier) && HoldsPart(before, tok, seen, d, prompt, earlier, n, n);
      assert earlier[d][..n] == earlier[d] && tokens[j][..n] == earlier[d];
      HandedOnHolds(before, cells, tok, seen, Running(done), src, j, prompt + earlier[d]);
    }
  }

  lemma {:induction false} HandedOnIds(before: seq<Cell>, cells: seq<Cell>, live: seq<bool>, src: seq<int>)
    requires |before| == |cells| && Decoders(live, src)
    requires forall i :: 0 <= i < |cells| ==> Became(cells[i], before[i], HandedOn(before[i].seqIds, live, src))
    requires forall i, x :: 0 <= i < |before| && x in before[i].seqIds ==> 0 <= x < MAX_DECODERS
    ensures forall i, x :: 0 <= i < |cells| && x in cells[i].seqIds ==> 0 <= x < MAX_DECODERS
  {
    forall i, x | 0 <= i < |cells| && x in cells[i].seqIds ensures 0 <= x < MAX_DECODERS {
      assert Became(cells[i], before[i], HandedOn(before[i].seqIds, live, src));
    }
  }

  ghost function Texts(prompt: seq<int>, tokens: seq<seq<int>>): seq<seq<int>> {
    seq(|tokens|, j requires 0 <= j < |tokens| => prompt + tokens[j])
  }

  /** The batch continues the texts of the running ones among the first j decoders. */
  ghost predicate Latest(batch: seq<BatchItem>, done: seq<bool>, texts: seq<seq<int>>, j: nat, n: nat) {
    && j <= |done| == |texts| && BatchOk(batch)
    && (forall k :: 0 <= k < |batch| ==> |batch[k].seqIds| == 1 && 0 <= batch[k].seqIds[0] < j)
    && (forall i :: 0 <= i < j && !done[i] ==> Continues(batch, i, texts[i], n))
  }

  lemma {:induction false} NothingLatest(done: seq<bool>, texts: seq<seq<int>>, n: nat)
    requires |done| == |texts|
    ensures Latest([], done, texts, 0, n)
  {
  }

  lemma {:induction false} LatestEnds(batch: seq<BatchItem>, done: seq<bool>, texts: seq<seq<int>>, n: nat)
    requires Latest(batch, done, texts, |done|, n)
    ensures
      BatchOk(batch) && forall k :: 0 <= k < |batch| ==> |batch[k].seqIds| == 1 && 0 <= batch[k].seqIds[0] < |done|
    ensures forall i :: 0 <= i < |done| && !done[i] ==> Continues(batch, i, texts[i], n)
  {
    hide Continues;
  }

  lemma {:induction false} LatestStep(batch: seq<BatchItem>, done: seq<bool>, texts: seq<seq<int>>, j: nat, n: nat)
    requires Latest(batch, done, texts, j, n) && j < |done| && n < MAX_POS && (!done[j] ==> |texts[j]| == n + 1)
    ensures if done[j] then Latest(batch, done, texts, j + 1, n)
      else Latest(batch + [BatchItem(texts[j][n], n, [j])], done, texts, j + 1, n)
  {
    hide Continues;
    if !done[j] {
      var longer := batch + [BatchItem(texts[j][n], n, [j])];
      forall i | 0 <= i < j + 1 && !done[i] ensures Continues(longer, i, texts[i], n) {
        if i < j {
          KeepsContinuing(batch, longer, i, texts[i], n);
        } else {
          StartsContinuing(batch, longer, j, texts[j], n);
        }
      }
    }
  }

  lemma {:induction false} StartsContinuing(before: seq<BatchItem>, batch: seq<BatchItem>, id: int, text: seq<int>,
                                            n: nat)
    requires |text| == n + 1 && batch == before + [BatchItem(text[n], n, [id])]
    requires forall k :: 0 <= k < |before| ==> |before[k].seqIds| == 1 && before[k].seqIds[0] != id
    ensures Continues(batch, id, text, n)
  {
    forall k | ItemOf(batch, k, id) ensures k == |before| {
    }
    assert ItemOf(batch, |before|, id);
    assert HasItem(batch, id, n);
  }

  lemma {:induction false} KeepsContinuing(before: seq<BatchItem>, batch: seq<BatchItem>, id: int, text: seq<int>,
                                           n: nat)
    requires Continues(before, id, text, n) && |batch| == |before| + 1 && batch[..|before|] == before
    requires |batch[|before|].seqIds| == 1 && id !in batch[|before|].seqIds
    ensures Continues(batch, id, text, n)
  {
    forall k ensures ItemOf(batch, k, id) <==> ItemOf(before, k, id) {
      assert 0 <= k < |before| ==> batch[k] == before[k];
    }
    forall k | 0 <= k < |batch| ensures |batch[k].seqIds| == 1 {
      assert k < |before| ==> batch[k] == before[k];
    }
    forall p | n <= p < |text| ensures HasItem(batch, id, p) {
      assert HasItem(before, id, p);
      var k :| ItemOf(before, k, id) && before[k].pos == p;
      assert batch[k] == before[k];
      assert ItemOf(batch, k, id);
    }
  }
}
