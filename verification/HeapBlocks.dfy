/** heap_2.c in its own form: block headers that are linked and relinked in place.  The methods
    are proved to do what module Heaps says. */
module HeapBlocks {
  import opened Bytes
  import opened Rings
  import opened Heaps

  /** A pointer to a block header: an offset into the heap, or xStart, xEnd or the null pointer. */
  type Link = int

  const START: Link := -2
  const END: Link := -1
  const NO_BLOCK: Link := -3

  /** Node number i of the free list, from xStart to xEnd. */
  ghost function Node(free: seq<nat>, i: nat): Link {
    if i == 0 then START else if i <= |free| then free[i - 1] else END
  }

  ghost predicate Chain(next: map<Link, Link>, free: seq<nat>) {
    && END in next && next[END] == NO_BLOCK && Apart(free, |free|)
    && forall i: nat {:trigger Node(free, i)} :: i <= |free| ==>
         Node(free, i) in next && next[Node(free, i)] == Node(free, i + 1)
  }

  lemma NodesApart(free: seq<nat>, k: nat)
    requires Apart(free, |free|) && k <= |free|
    ensures forall i: nat :: i <= |free| + 1 && i != k ==> Node(free, i) != Node(free, k)
  {
    AllApart(free);
  }

  lemma ChainInserted(next: map<Link, Link>, free: seq<nat>, k: nat, a: nat)
    requires Chain(next, free) && k <= |free| && a !in free
    ensures var at := Node(free, k);
            at in next && Chain(next[a := next[at]][at := a], InsertAt(free, k, a))
  {
    var at, r := Node(free, k), InsertAt(free, k, a);
    var next' := next[a := next[at]][at := a];
    NodesApart(free, k);
    InsertAtMembers(free, k, a);
    forall i: nat | i <= |r| ensures Node(r, i) in next' && next'[Node(r, i)] == Node(r, i + 1) {
      assert Node(r, i) == if i <= k then Node(free, i) else if i == k + 1 then a else Node(free, i - 1);
      assert Node(r, i + 1) == if i < k then Node(free, i + 1) else if i == k then a else Node(free, i);
    }
  }

  lemma ChainRemoved(next: map<Link, Link>, free: seq<nat>, k: nat)
    requires Chain(next, free) && k < |free|
    ensures Node(free, k + 1) == free[k] && free[k] in next
    ensures Chain(next[Node(free, k) := next[free[k]]], RemoveAt(free, k))
  {
    var r := RemoveAt(free, k);
    assert Node(free, k + 1) == free[k];
    var next' := next[Node(free, k) := next[free[k]]];
    NodesApart(free, k);
    AllApart(free);
    IndexOfUnique(free, k);
    WithoutMembers(free, free[k]);
    forall i: nat | i <= |r| ensures Node(r, i) in next' && next'[Node(r, i)] == Node(r, i + 1) {
      assert Node(r, i) == if i <= k then Node(free, i) else Node(free, i + 1);
      assert Node(r, i + 1) == if i < k then Node(free, i + 1) else Node(free, i + 2);
    }
  }

  lemma FitIs(h: H, w: nat, k: nat, from: nat)
    requires from <= k <= |h.free| && (forall j :: from <= j < k ==> h.Size(h.free[j]) < w)
    requires k < |h.free| ==> w <= h.Size(h.free[k])
    ensures h.Fit(w, from) == k
    decreases k - from
  {
  }

  class Heap {
    var initialised: bool
    var next: map<Link, Link>
    var size: map<nat, nat>
    ghost var free: seq<nat>
    ghost var asked: map<nat, nat>

    ghost function Abs(): H
      reads this
    {
      if initialised then H(size, free, asked) else Whole()
    }

    ghost predicate Valid()
      reads this
    {
      Abs().Inv() && (initialised ==> Chain(next, free))
    }

    constructor ()
      ensures Valid() && Abs() == Whole()
    {
      initialised, next, size, free, asked := false, map[], map[], [], map[];
      new;
      WholeInv();
    }

    /** The size in a header. */
    function SizeOf(p: Link): nat
      reads this
    {
      if p == END then TOTAL else if 0 <= p && p in size then size[p] else 0
    }

    /** prvHeapInit. */
    method HeapInit()
      requires !initialised
      modifies this
      ensures initialised && Valid() && Abs() == Whole()
    {
      next := map[START := 0, 0 := END, END := NO_BLOCK];
      size := map[0 := TOTAL];
      initialised, free, asked := true, [0], map[];
      WholeInv();
    }

    /** prvInsertBlockIntoFreeList. */
    method InsertBlockIntoFreeList(block: nat)
      requires initialised && Chain(next, free) && block !in free && block in size && size[block] <= TOTAL
      modifies `next, `free
      ensures Chain(next, free) && Abs() == old(Abs()).Freed(block)
    {
      ghost var k := 0;
      var at := START;
      while SizeOf(next[at]) < size[block]
        invariant k <= |free| && at == Node(free, k) && at in next && next[at] == Node(free, k + 1)
        invariant forall j :: 0 <= j < k ==> Abs().Size(free[j]) < size[block]
        decreases |free| - k
      {
        at := next[at];
        k := k + 1;
      }
      FitIs(Abs(), size[block], k, 0);
      ChainInserted(next, free, k, block);
      next := next[block := next[at]][at := block];
      free := InsertAt(free, k, block);
    }

    /** The search of pvPortMalloc: a block that is large enough, or xEnd, and its predecessor. */
    method Search(wanted: nat) returns (previous: Link, block: Link, ghost k: nat)
      requires initialised && Chain(next, free) && wanted < TOTAL
      ensures k == Abs().Fit(wanted, 0)
      ensures previous == Node(free, Abs().Fit(wanted, 0)) && block == Node(free, Abs().Fit(wanted, 0) + 1)
      ensures block == END <==> Abs().Fit(wanted, 0) == |free|
    {
      assert next[Node(free, 0)] == Node(free, 1);
      assert free != [] ==> next[Node(free, 1)] == Node(free, 2);
      previous, block, k := START, next[START], 0;
      while SizeOf(block) < wanted && next[block] != NO_BLOCK
        invariant k <= |free| && previous == Node(free, k) && block == Node(free, k + 1)
        invariant block in next && (next[block] == NO_BLOCK <==> block == END)
        invariant forall j :: 0 <= j < k ==> Abs().Size(free[j]) < wanted
        decreases |free| - k
      {
        previous := block;
        block := next[block];
        k := k + 1;
        assert k < |free| ==> next[Node(free, k + 1)] == Node(free, k + 2);
      }
      FitIs(Abs(), wanted, k, 0);
    }

    /** The size arithmetic of pvPortMalloc. */
    static method WithHeader(n: nat) returns (wanted: nat)
      ensures wanted == Wanted(n)
    {
      wanted := n;
      if 0 < wanted {
        wanted := (wanted + HEADER) % WORD;
        if wanted % ALIGNMENT != 0 {
          wanted := (wanted + (ALIGNMENT - wanted % ALIGNMENT)) % WORD;
        }
      }
    }

    /** pvPortMalloc; the result 0 is the null pointer. */
    method Malloc(n: nat) returns (pv: nat)
      requires Valid() && n <= WORD - HEADER
      modifies this
      ensures Valid() && Abs() == old(Abs()).Malloc(n)
      ensures pv == match old(Abs()).Choice(n) { case Some(a) => a + HEADER case None => 0 }
    {
      hide Wanted, Chain, H.Inv, H.Freed, Aligned, Cut;
      MallocKeepsInv(Abs(), n);
      pv := 0;
      if !initialised {
        HeapInit();
      }
      var wanted := WithHeader(n);
      if 0 < wanted < TOTAL {
        var previous, block, k := Search(wanted);
        if block != END {
          pv := block + HEADER;
          TakeOut(n, wanted, previous, block, k);
        }
      }
    }

    method TakeOut(n: nat, wanted: nat, previous: Link, block: nat, ghost k: nat)
      requires initialised && Valid() && n <= WORD - HEADER && wanted == Wanted(n) && 0 < wanted < TOTAL
      requires k == Abs().Fit(wanted, 0) < |free| && previous == Node(free, k) && block == free[k]
      modifies `next, `size, `free, `asked
      ensures initialised && Chain(next, free) && Abs() == old(Abs()).Malloc(n)
    {
      hide Wanted, H.Inv, Aligned;
      ghost var h := Abs();
      GivenKeeps(h, n);
      ChainRemoved(next, free, k);
      next := next[previous := next[block]];
      free, asked := RemoveAt(free, k), asked[block := n];
      if MINIMUM < size[block] - wanted {
        TailIsFree(Given(h, n), block, wanted);
        size := size[block := wanted][block + wanted := size[block] - wanted];
        InsertBlockIntoFreeList(block + wanted);
      }
    }

    /** vPortFree; 0 is the null pointer. */
    method Free(pv: nat)
      requires Valid() && (pv != 0 ==> HEADER <= pv && pv - HEADER in Abs().asked)
      modifies this
      ensures Valid() && Abs() == if pv == 0 then old(Abs()) else old(Abs()).Free(pv - HEADER)
    {
      if pv != 0 {
        var block := pv - HEADER;
        FreeKeepsInv(Abs(), block);
        BlockFits(Abs(), block);
        asked := asked - {block};
        InsertBlockIntoFreeList(block);
      }
    }
  }

  lemma WholeInv()
    ensures Whole().Inv()
  {
  }

  lemma BlockFits(h: H, a: nat)
    requires h.Inv() && a in h.asked
    ensures a in h.size && a !in h.free && h.size[a] <= TOTAL
  {
    assert At(a) && h.Live(a);
  }

  lemma TailIsFree(h: H, a: nat, w: nat)
    requires h.Inv() && a in h.asked && a in h.size && 0 < w < h.size[a] && Aligned(w)
    ensures a + w !in h.size && a + w !in h.free && h.size[a] <= TOTAL
  {
    hide Aligned;
    CutKeepsTiles(h.size, a, w);
    BlockFits(h, a);
  }
}
