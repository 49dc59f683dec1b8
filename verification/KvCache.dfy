/** The attention cache: cells tagged with sequence ids. */
module KvCaches {
  const MAX_POS: int := 0x7FFF_FFFF    // the largest position; a negative upper bound stands for it

  datatype Cell = Cell(pos: int, seqIds: set<int>)

  const FREE := Cell(-1, {})

  datatype BatchItem = BatchItem(token: int, pos: int, seqIds: seq<int>)

  ghost predicate BatchOk(batch: seq<BatchItem>) {
    forall i :: 0 <= i < |batch| ==> 0 <= batch[i].pos < MAX_POS && batch[i].seqIds != []
  }

  /** A cell has a position exactly if some sequence owns it. */
  ghost predicate CellOk(c: Cell) {
    (c.pos >= 0 <==> c.seqIds != {}) && c.pos < MAX_POS
  }

  /** n cells from s on are free. */
  ghost predicate FreeRun(cells: seq<Cell>, s: nat, n: nat) {
    s + n <= |cells| && forall i :: s <= i < s + n ==> cells[i].pos < 0
  }

  function IdSet(ids: seq<int>): set<int> {
    set x | x in ids
  }

  /** The batch put into the cells from head on. */
  ghost function Placed(cells: seq<Cell>, head: nat, batch: seq<BatchItem>): (r: seq<Cell>)
    ensures |r| == |cells|
  {
    seq(|cells|, i requires 0 <= i < |cells| =>
      if head <= i < head + |batch| then Cell(batch[i - head].pos, cells[i].seqIds + IdSet(batch[i - head].seqIds))
      else cells[i])
  }

  predicate InRange(c: Cell, p0: int, p1: int) {
    (if p0 < 0 then 0 else p0) <= c.pos < if p1 < 0 then MAX_POS else p1
  }

  /** What is left of a cell when a sequence, or with a negative id every sequence, gives it up. */
  function Removed(c: Cell, id: int, p0: int, p1: int): Cell {
    if !InRange(c, p0, p1) || (id >= 0 && id !in c.seqIds) then c
    else
      var ids := if id < 0 then {} else c.seqIds - {id};
      Cell(if ids == {} then -1 else c.pos, ids)
  }

  function Copied(c: Cell, src: int, dst: int, p0: int, p1: int): Cell {
    if src in c.seqIds && InRange(c, p0, p1) then c.(seqIds := c.seqIds + {dst}) else c
  }

  /** The first cell that gets freed, or the number of cells. */
  ghost function FirstFreed(cells: seq<Cell>, id: int, p0: int, p1: int): (n: nat)
    ensures n <= |cells|
  {
    if cells == [] then 0
    else
      var k := FirstFreed(cells[..|cells| - 1], id, p0, p1);
      if k < |cells| - 1 then k else if Frees(cells[|cells| - 1], id, p0, p1) then k else |cells|
  }

  ghost predicate Frees(c: Cell, id: int, p0: int, p1: int) {
    Removed(c, id, p0, p1).seqIds == {} && Removed(c, id, p0, p1) != c
  }

  /** The position is one of those from p0 up to p1; a negative bound is none. */
  predicate Between(c: Cell, p0: int, p1: int) {
    c.pos >= 0 && (p0 < 0 || p0 <= c.pos) && (p1 < 0 || c.pos < p1)
  }

  /** The cell loses this owner, or with a negative id all of them, if its position is in the range; without owners it
      is free, and else its position stays. */
  lemma {:induction false} RemovedExact(c: Cell, id: int, p0: int, p1: int)
    requires CellOk(c)
    ensures var r := Removed(c, id, p0, p1);
      && (forall x :: x in r.seqIds <==> x in c.seqIds && !(Between(c, p0, p1) && (id < 0 || x == id)))
      && CellOk(r) && (r.seqIds != {} ==> r.pos == c.pos)
      && (Frees(c, id, p0, p1) <==> c.pos >= 0 && r.pos < 0)
  {
    var r := Removed(c, id, p0, p1);
    assert r == c || r.seqIds == if id < 0 then {} else c.seqIds - {id};
  }

  lemma {:induction false} CopiedExact(c: Cell, src: int, dst: int, p0: int, p1: int)
    requires CellOk(c)
    ensures var r := Copied(c, src, dst, p0, p1);
      && (forall x :: x in r.seqIds <==> x in c.seqIds || (x == dst && src in c.seqIds && Between(c, p0, p1)))
      && r.pos == c.pos
  {
  }

  lemma {:induction false} FirstFreedExact(cells: seq<Cell>, id: int, p0: int, p1: int)
    ensures var n := FirstFreed(cells, id, p0, p1);
      && (n < |cells| ==> Frees(cells[n], id, p0, p1))
      && forall k :: 0 <= k < n ==> !Frees(cells[k], id, p0, p1)
  {
    hide Frees;
    if cells != [] {
      FirstFreedExact(cells[..|cells| - 1], id, p0, p1);
    }
  }

  class KvCache {
    var head: nat
    const size: nat
    const cells: array<Cell>

    ghost predicate Valid()
      reads this, cells
    {
      && head <= size == cells.Length
      && forall i :: 0 <= i < size ==> CellOk(cells[i])
    }

    /** The head and all cells in use are below top. */
    ghost predicate UsedBelow(top: nat)
      reads this, cells
    {
      head <= top <= size == cells.Length && forall i :: top <= i < size ==> cells[i].pos < 0
    }

    constructor (size: nat)
      ensures Valid() && fresh(cells) && this.size == size && head == 0
      ensures forall i :: 0 <= i < size ==> cells[i] == FREE
    {
      this.size, head := size, 0;
      cells := new Cell[size](_ => FREE);
    }

    /** Finds room for the batch, from wherever the head is, whenever there is a long enough run of
        free cells; otherwise no cell changes. */
    method FindSlot(batch: seq<BatchItem>) returns (ok: bool)
      requires Valid() && BatchOk(batch)
      modifies this, cells
      ensures Valid()
      ensures ok <==> exists s: nat :: FreeRun(old(cells[..]), s, |batch|)
      ensures ok ==> FreeRun(old(cells[..]), head, |batch|) && cells[..] == Placed(old(cells[..]), head, batch)
      ensures !ok ==> cells[..] == old(cells[..])
      ensures forall top: nat :: old(UsedBelow(top)) && top + |batch| <= size ==> ok && UsedBelow(top + |batch|)
    {
      ok := FindRun(|batch|);
      assert cells[..] == old(cells[..]);
      if ok {
        FillSlot(batch);
      }
    }

    method FindRun(n: nat) returns (ok: bool)
      requires Valid()
      modifies this`head
      ensures Valid()
      ensures ok <==> exists s: nat :: FreeRun(cells[..], s, n)
      ensures ok ==> FreeRun(cells[..], head, n)
      ensures forall top: nat :: old(UsedBelow(top)) && top + n <= size ==> ok && head <= top
    {
      forall top: nat | UsedBelow(top) && top + n <= size ensures FreeRun(cells[..], top, n) {
      }
      if n > size {
        return false;
      }
      ghost var h0, round := head, 0;
      var tested := 0;
      while true
        invariant Valid() && 0 <= round <= 2 && 0 <= tested <= 2 * size
        invariant forall top: nat :: old(UsedBelow(top)) && top + n <= size ==> head <= top
        invariant round == 0 ==> h0 <= head && tested == head - h0 && NoRun(h0, head, n)
        invariant round == 1 ==> tested == size - h0 + head && NoRun(h0, size, n) && NoRun(0, head, n) && head <= h0
        invariant round == 2 ==> tested >= size && NoRun(0, size, n) && head == 0
        decreases 3 * size - tested, if head + n > size then 1 else 0
      {
        if head + n > size {
          tested := tested + (size - head);
          head := 0;
          round := if round == 0 then 1 else 2;
          continue;
        }
        var i := 0;
        while i < n && cells[head + i].pos < 0
          invariant 0 <= i <= n && forall k :: head <= k < head + i ==> cells[k].pos < 0
        {
          i := i + 1;
        }
        if i == n {
          assert FreeRun(cells[..], head, n);
          return true;
        }
        assert NoRun(head, head + i + 1, n);
        head := head + i + 1;
        tested := tested + i + 1;
        if tested >= size {
          return false;
        }
      }
    }

    /** No run of n free cells starts in this range. */
    ghost predicate NoRun(from: nat, to: nat, n: nat)
      reads this, cells
    {
      forall s: nat :: from <= s < to ==> !FreeRun(cells[..], s, n)
    }

    method FillSlot(batch: seq<BatchItem>)
      requires Valid() && BatchOk(batch) && FreeRun(cells[..], head, |batch|)
      modifies cells
      ensures Valid() && cells[..] == Placed(old(cells[..]), head, batch)
    {
      for i := 0 to |batch|
        invariant cells[..] == Placed(old(cells[..]), head, batch[..i])
      {
        var ids := cells[head + i].seqIds;
        for j := 0 to |batch[i].seqIds|
          invariant ids == cells[head + i].seqIds + IdSet(batch[i].seqIds[..j])
        {
          ids := ids + {batch[i].seqIds[j]};
        }
        assert batch[i].seqIds[..|batch[i].seqIds|] == batch[i].seqIds;
        cells[head + i] := Cell(batch[i].pos, ids);
      }
      assert batch[..|batch|] == batch;
      forall i | 0 <= i < size ensures CellOk(cells[i]) {
        if head <= i < head + |batch| {
          assert batch[i - head].seqIds[0] in IdSet(batch[i - head].seqIds);
        }
      }
    }

    /** One past the last cell in use, at least 1. */
    method CellMax() returns (n: nat)
      requires Valid() && size > 0
      ensures 1 <= n <= size && forall i :: n <= i < size ==> cells[i].pos < 0
      ensures n > 1 ==> cells[n - 1].pos >= 0
    {
      var i := size - 1;
      while i > 0
        invariant 0 <= i < size && forall k :: i < k < size ==> cells[k].pos < 0
      {
        if cells[i].pos >= 0 && cells[i].seqIds != {} {
          return i + 1;
        }
        assert CellOk(cells[i]);
        i := i - 1;
      }
      return 1;
    }

    method Clear()
      requires Valid()
      modifies this, cells
      ensures Valid() && UsedBelow(0) && forall i :: 0 <= i < size ==> cells[i] == FREE
    {
      for i := 0 to size
        invariant Valid() && forall k :: 0 <= k < i ==> cells[k] == FREE
      {
        cells[i] := FREE;
      }
      head := 0;
    }

    /** Takes a sequence, or all of them, out of the cells with a position in the range. The head
        moves to the first cell this frees. */
    method SeqRm(id: int, p0: int, p1: int)
      requires Valid()
      modifies this, cells
      ensures Valid()
      ensures forall i :: 0 <= i < size ==> cells[i] == Removed(old(cells[i]), id, p0, p1)
      ensures var f := FirstFreed(old(cells[..]), id, p0, p1); head == if f < size then f else old(head)
      ensures forall top: nat :: old(UsedBelow(top)) ==> UsedBelow(top)
    {
      var newHead := size;
      for i := 0 to size
        invariant Valid() && head == old(head)
        invariant forall k :: 0 <= k < i ==> cells[k] == Removed(old(cells[k]), id, p0, p1)
        invariant forall k :: i <= k < size ==> cells[k] == old(cells[k])
        invariant 0 <= newHead < size ==> old(cells[newHead]).pos >= 0
        invariant newHead == var f := FirstFreed(old(cells[..i]), id, p0, p1); if f < i then f else size
      {
        assert old(cells[..i + 1])[..i] == old(cells[..i]);
        assert CellOk(cells[i]);
        if InRange(cells[i], p0, p1) {
          var ids := cells[i].seqIds;
          if id < 0 {
            ids := {};
          } else if id in ids {
            ids := ids - {id};
          } else {
            continue;
          }
          cells[i] := Cell(cells[i].pos, ids);
          if ids == {} {
            cells[i] := Cell(-1, ids);
            if newHead == size {
              newHead := i;
            }
          }
        }
      }
      assert old(cells[..size]) == old(cells[..]);
      if newHead != size {
        head := newHead;
      }
    }

    /** Gives the cells of one sequence in the range to another as well. */
    method SeqCp(src: int, dst: int, p0: int, p1: int)
      requires Valid()
      modifies this, cells
      ensures Valid() && head == 0
      ensures forall i :: 0 <= i < size ==> cells[i] == Copied(old(cells[i]), src, dst, p0, p1)
      ensures forall top: nat :: old(UsedBelow(top)) ==> UsedBelow(top)
    {
      head := 0;
      for i := 0 to size
        invariant Valid() && head == 0
        invariant forall k :: 0 <= k < i ==> cells[k] == Copied(old(cells[k]), src, dst, p0, p1)
        invariant forall k :: i <= k < size ==> cells[k] == old(cells[k])
      {
        assert CellOk(cells[i]);
        if src in cells[i].seqIds && InRange(cells[i], p0, p1) {
          cells[i] := Cell(cells[i].pos, cells[i].seqIds + {dst});
        }
      }
    }
  }
}
