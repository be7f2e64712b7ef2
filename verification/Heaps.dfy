/** The best-fit allocator of heap_2.c: blocks that tile the heap, and a list of the free ones
    ordered by size. */
module Heaps {
  import opened Bytes
  import opened Rings

  /** configTOTAL_HEAP_SIZE, heapSTRUCT_SIZE, portBYTE_ALIGNMENT, heapMINIMUM_BLOCK_SIZE. */
  const TOTAL: nat := 28 * 1024
  const HEADER: nat := 8
  const ALIGNMENT: nat := 4
  const MINIMUM: nat := 16

  /** A request with room for the header and rounded up, in 32-bit arithmetic. */
  function Wanted(n: nat): nat {
    if n == 0 then 0
    else
      var w := (n + HEADER) % WORD;
      if w % ALIGNMENT == 0 then w else (w + (ALIGNMENT - w % ALIGNMENT)) % WORD
  }

  /** The size so computed covers the request, or is 0 and so refused, exactly for requests that
      leave room for the header below 2^32. */
  lemma WantedCoversExactlyWhen(n: nat)
    requires 0 < n < WORD
    ensures Wanted(n) == 0 || n + HEADER <= Wanted(n) <==> n <= WORD - HEADER
    ensures Wanted(n) % ALIGNMENT == 0
  {
  }

  lemma WrappedRequestGetsFourBytes()
    ensures Wanted(0xffff_fff9) == 4
  {
  }

  /** Keeps the verifier from opening Tiled where a proof does not ask for it. */
  ghost predicate At(a: nat) { true }

  predicate Aligned(a: nat) {
    a % ALIGNMENT == 0
  }

  /** One block: it is not empty and ends at the heap's end or where another block starts. */
  ghost predicate Block(size: map<nat, nat>, a: nat) {
    && a in size && 0 < size[a] && a + size[a] <= TOTAL && Aligned(a) && Aligned(size[a])
    && (a + size[a] < TOTAL ==> a + size[a] in size)
  }

  /** The blocks lie end to end from 0 to TOTAL. */
  ghost predicate Tiled(size: map<nat, nat>) {
    && 0 in size && (forall a {:trigger At(a)} :: At(a) && a in size ==> Block(size, a))
    && (forall a, b {:trigger At(a), At(b)} :: At(a) && At(b) && a in size && b in size && a < b ==> a + size[a] <= b)
  }

  datatype Option<T> = None | Some(value: T)

  /** Blocks are known by the offset of their header.  `size` is what the headers hold, `free`
      the list of free blocks, and `asked` what was asked for each live block. */
  datatype H = H(size: map<nat, nat>, free: seq<nat>, asked: map<nat, nat>) {

    function Size(a: nat): nat {
      if a in size then size[a] else 0
    }

    /** The first place in the list, from i on, whose block has at least size w. */
    function Fit(w: nat, i: nat): (k: nat)
      requires i <= |free|
      ensures i <= k <= |free| && (forall j :: i <= j < k ==> Size(free[j]) < w)
      ensures k < |free| ==> w <= Size(free[k])
      decreases |free| - i
    {
      if i < |free| && Size(free[i]) < w then Fit(w, i + 1) else i
    }

    /** prvInsertBlockIntoFreeList. */
    function Freed(a: nat): H {
      this.(free := InsertAt(free, Fit(Size(a), 0), a))
    }

    /** The block that pvPortMalloc gives out for a request. */
    function Choice(n: nat): Option<nat> {
      var w := Wanted(n);
      if 0 < w < TOTAL && Fit(w, 0) < |free| then Some(free[Fit(w, 0)]) else None
    }

    /** pvPortMalloc. */
    function Malloc(n: nat): H {
      if Choice(n).None? then this
      else
        var w, k := Wanted(n), Fit(Wanted(n), 0);
        var a := free[k];
        var h := H(size, RemoveAt(free, k), asked[a := n]);
        if Size(a) - w <= MINIMUM then h
        else h.(size := Cut(size, a, w)).Freed(a + w)
    }

    /** vPortFree of the block at a. */
    function Free(a: nat): H {
      this.(asked := asked - {a}).Freed(a)
    }

    /** Every block is either on the free list, once, or live and long enough. */
    ghost predicate Accounted() {
      && Apart(free, |free|)
      && (forall a :: a in size <==> a in free || a in asked)
      && (forall a :: a in asked ==> Live(a))
    }

    ghost predicate Live(a: nat)
    {
      a in size && a in asked && a !in free && 0 < asked[a] && asked[a] + HEADER <= size[a]
    }

    ghost predicate BySize() {
      forall i, j {:trigger Mark(i), Mark(j)} :: Mark(i) && Mark(j) && 0 <= i < j < |free| ==> Size(free[i]) <= Size(free[j])
    }

    ghost predicate Inv() {
      Tiled(size) && Accounted() && BySize()
    }
  }

  // ----- the invariant ----------------------------------------------------------------------------

  lemma FreedSorted(h: H, a: nat)
    requires h.BySize()
    ensures h.Freed(a).BySize()
  {
    var k, r := h.Fit(h.Size(a), 0), h.Freed(a);
    forall i, j | 0 <= i < j < |r.free| ensures r.Size(r.free[i]) <= r.Size(r.free[j]) {
      assert Mark(k) && Mark(if i < k then i else i - 1) && Mark(if j < k then j else j - 1);
    }
  }

  /** h, but that block a is on neither side. */
  ghost predicate AllBut(h: H, a: nat) {
    && Apart(h.free, |h.free|) && a in h.size && a !in h.free && a !in h.asked
    && (forall b :: b in h.size <==> b in h.free || b in h.asked || b == a)
    && (forall b :: b in h.asked ==> h.Live(b))
  }

  lemma FreedAccounted(h: H, a: nat)
    requires AllBut(h, a)
    ensures h.Freed(a).Accounted()
  {
    InsertAtMembers(h.free, h.Fit(h.Size(a), 0), a);
    var r := h.Freed(a);
    forall b | b in r.asked ensures r.Live(b) {
      assert h.Live(b);
    }
  }

  lemma FreedKeeps(h: H, a: nat)
    requires Tiled(h.size) && h.BySize() && AllBut(h, a)
    ensures h.Freed(a).Inv()
  {
    hide H.Accounted, AllBut, H.BySize, Block;
    FreedSorted(h, a);
    FreedAccounted(h, a);
  }

  /** The header sizes once block a has been cut to w bytes. */
  function Cut(size: map<nat, nat>, a: nat, w: nat): map<nat, nat>
    requires a in size && w <= size[a]
  {
    size[a := w][a + w := size[a] - w]
  }

  lemma AlignedParts(a: nat, b: nat)
    requires Aligned(a) && Aligned(b)
    ensures Aligned(a + b) && (a <= b ==> Aligned(b - a))
  {
    var p, q := a / ALIGNMENT, b / ALIGNMENT;
    assert a == 4 * p && b == 4 * q;
    MultipleAligned(p + q);
    if a <= b {
      MultipleAligned(q - p);
    }
  }

  lemma MultipleAligned(n: nat)
    ensures Aligned(4 * n)
  {
  }

  /** No block starts inside another. */
  lemma CutIsNew(size: map<nat, nat>, a: nat, w: nat)
    requires Tiled(size) && a in size && 0 < w < size[a]
    ensures a + w !in size
  {
    hide Block;
    assert At(a) && At(a + w);
  }

  /** Either part of a block that is cut in two is a block. */
  lemma CutBlocks(size: map<nat, nat>, a: nat, w: nat)
    requires a in size && Block(size, a) && 0 < w < size[a] && Aligned(w) && a + w !in size
    ensures Block(Cut(size, a, w), a) && Block(Cut(size, a, w), a + w)
  {
    hide Aligned;
    AlignedParts(w, size[a]);
    AlignedParts(a, w);
  }

  lemma OtherBlock(size: map<nat, nat>, a: nat, w: nat, b: nat)
    requires a in size && w <= size[a] && Block(size, b) && b != a && b != a + w
    ensures Block(Cut(size, a, w), b)
  {
    hide Aligned;
  }

  lemma CutApart(size: map<nat, nat>, a: nat, w: nat, b: nat, c: nat)
    requires Tiled(size) && a in size && 0 < w < size[a]
    requires b in Cut(size, a, w) && c in Cut(size, a, w) && b < c
    ensures b + Cut(size, a, w)[b] <= c
  {
    hide Block;
    assert At(a) && At(b) && At(c);
  }

  /** Cutting a block in two leaves the heap tiled. */
  lemma CutKeepsTiles(size: map<nat, nat>, a: nat, w: nat)
    requires Tiled(size) && a in size && 0 < w < size[a] && Aligned(w)
    ensures Tiled(Cut(size, a, w)) && a + w !in size
  {
    hide Block, Aligned;
    var r := Cut(size, a, w);
    assert At(a);
    CutIsNew(size, a, w);
    forall b | b in r ensures Block(r, b) {
      if b == a || b == a + w {
        CutBlocks(size, a, w);
      } else {
        assert At(b);
        OtherBlock(size, a, w, b);
      }
    }
    forall b, c | b in r && c in r && b < c ensures b + r[b] <= c {
      CutApart(size, a, w, b, c);
    }
  }

  lemma TakenSorted(h: H, k: nat)
    requires h.BySize() && k < |h.free|
    ensures h.(free := RemoveAt(h.free, k)).BySize()
  {
    var r := h.(free := RemoveAt(h.free, k));
    forall i, j | 0 <= i < j < |r.free| ensures r.Size(r.free[i]) <= r.Size(r.free[j]) {
      assert Mark(if i < k then i else i + 1) && Mark(if j < k then j else j + 1);
    }
  }

  /** The chosen block once it has left the free list for its new owner. */
  ghost function Given(h: H, n: nat): H
    requires h.Choice(n).Some?
  {
    H(h.size, RemoveAt(h.free, h.Fit(Wanted(n), 0)), h.asked[h.Choice(n).value := n])
  }

  lemma GivenKeeps(h: H, n: nat)
    requires h.Inv() && n <= WORD - HEADER && h.Choice(n).Some?
    ensures Given(h, n).Inv() && h.Choice(n).value in h.size && Wanted(n) <= h.size[h.Choice(n).value]
    ensures 0 < n && n + HEADER <= Wanted(n) && Aligned(Wanted(n))
  {
    hide Block;
    var k, a := h.Fit(Wanted(n), 0), h.Choice(n).value;
    var r := Given(h, n);
    WantedCoversExactlyWhen(n);
    TakenSorted(h, k);
    AllApart(h.free);
    IndexOfUnique(h.free, k);
    WithoutMembers(h.free, a);
    forall b | b in r.asked ensures r.Live(b) {
      assert b != a ==> h.Live(b);
    }
  }

  /** Giving a block's tail back to the free list. */
  lemma SplitKeeps(h: H, a: nat, w: nat)
    requires h.Inv() && a in h.asked && h.asked[a] + HEADER <= w < h.size[a] && Aligned(w)
    ensures h.(size := Cut(h.size, a, w)).Freed(a + w).Inv()
  {
    hide Aligned, Block;
    var r := h.(size := Cut(h.size, a, w));
    CutKeepsTiles(h.size, a, w);
    forall b | b in r.asked ensures r.Live(b) {
      assert h.Live(b);
    }
    forall i, j | 0 <= i < j < |r.free| ensures r.Size(r.free[i]) <= r.Size(r.free[j]) {
      assert Mark(i) && Mark(j) && h.free[i] in h.free && h.free[j] in h.free && h.Live(a);
    }
    FreedKeeps(r, a + w);
  }

  lemma MallocKeepsInv(h: H, n: nat)
    requires h.Inv() && n <= WORD - HEADER
    ensures h.Malloc(n).Inv()
  {
    hide H.Inv, Aligned, H.Freed, H.Fit;
    if h.Choice(n).Some? {
      GivenKeeps(h, n);
      var a, w := h.Choice(n).value, Wanted(n);
      if MINIMUM < h.Size(a) - w {
        SplitKeeps(Given(h, n), a, w);
      }
    }
  }

  lemma FreeKeepsInv(h: H, a: nat)
    requires h.Inv() && a in h.asked
    ensures h.Free(a).Inv()
  {
    var r := h.(asked := h.asked - {a});
    assert h.Live(a);
    forall b | b in r.asked ensures r.Live(b) {
      assert h.Live(b);
    }
    FreedKeeps(r, a);
  }

  // ----- what the invariant means -----------------------------------------------------------------

  ghost predicate Within(size: map<nat, nat>, a: nat, x: nat) {
    a in size && a <= x < a + size[a]
  }

  /** Every byte of the heap lies in exactly one block. */
  lemma EachByteInOneBlock(size: map<nat, nat>, x: nat)
    requires Tiled(size) && x < TOTAL
    ensures exists a :: Within(size, a, x) && forall b :: Within(size, b, x) ==> b == a
  {
    var a := BlockAround(size, x, 0);
    forall b | Within(size, b, x) ensures b == a {
      assert At(a) && At(b);
    }
  }

  lemma {:induction false} BlockAround(size: map<nat, nat>, x: nat, from: nat) returns (a: nat)
    requires Tiled(size) && from in size && from <= x < TOTAL
    ensures Within(size, a, x)
    decreases TOTAL - from
  {
    assert At(from);
    if x < from + size[from] {
      a := from;
    } else {
      a := BlockAround(size, x, from + size[from]);
    }
  }

  /** What the holder of a live block gets: aligned bytes inside the heap, as many as were asked
      for, that no other live block's holder gets. */
  lemma PayloadsAreSound(h: H, a: nat)
    requires h.Inv() && a in h.asked
    ensures Aligned(a + HEADER) && a + HEADER + h.asked[a] <= TOTAL
    ensures forall b :: b in h.asked && b != a ==>
              a + HEADER + h.asked[a] <= b || b + HEADER + h.asked[b] <= a
  {
    assert At(a) && h.Live(a);
    forall b | b in h.asked && b != a ensures a + HEADER + h.asked[a] <= b || b + HEADER + h.asked[b] <= a {
      assert At(b) && h.Live(b);
    }
  }

  /** A request gets the smallest free block that is large enough, and is refused exactly if it
      is empty, as large as the heap, or larger than every free block. */
  lemma BestFit(h: H, n: nat)
    requires h.Inv() && n <= WORD - HEADER
    ensures h.Choice(n).None? <==>
              n == 0 || Wanted(n) == 0 || TOTAL <= Wanted(n) || forall b :: b in h.free ==> h.Size(b) < Wanted(n)
    ensures h.Choice(n).Some? ==>
              var a := h.Choice(n).value;
              && a in h.free && a !in h.asked && Wanted(n) <= h.Size(a)
              && (forall b :: b in h.free && Wanted(n) <= h.Size(b) ==> h.Size(a) <= h.Size(b))
              && a in h.Malloc(n).asked && h.Malloc(n).asked[a] == n
  {
    hide Wanted, Tiled;
    assert Wanted(0) == 0 by { WantedNothing(); }
    var k := h.Fit(Wanted(n), 0);
    forall b | b in h.free && Wanted(n) <= h.Size(b) ensures k < |h.free| && h.Size(h.free[k]) <= h.Size(b) {
      var j := IndexOf(h.free, b);
      assert k <= j && Mark(k) && Mark(j);
    }
    assert forall b :: b in h.asked ==> h.Live(b);
  }

  lemma WantedNothing()
    ensures Wanted(0) == 0
  {
  }

  /** A request is refused although a free block would hold it exactly when it comes to the whole
      heap and the heap is one free block. */
  lemma RefusedThoughFreeExactlyWhen(h: H, n: nat)
    requires h.Inv() && n <= WORD - HEADER && 0 < Wanted(n)
    ensures (h.Choice(n).None? && exists b :: b in h.free && Wanted(n) <= h.Size(b))
            <==> (Wanted(n) == TOTAL && 0 in h.free && h.Size(0) == TOTAL)
  {
    hide Wanted, Aligned;
    WantedNothing();
    BestFit(h, n);
    if h.Choice(n).None? && exists b :: b in h.free && Wanted(n) <= h.Size(b) {
      var b :| b in h.free && Wanted(n) <= h.Size(b);
      assert At(b) && Block(h.size, b);
    }
  }

  /** Asking for memory touches no live block. */
  lemma MallocSpares(h: H, n: nat, b: nat)
    requires h.Inv() && n <= WORD - HEADER && b in h.asked
    ensures b in h.Malloc(n).asked && h.Malloc(n).asked[b] == h.asked[b] && h.Malloc(n).Size(b) == h.Size(b)
  {
    hide Aligned, Wanted;
    if h.Choice(n).Some? {
      var a := h.Choice(n).value;
      GivenKeeps(h, n);
      assert h.Live(b) && a in h.free;
      if Wanted(n) < h.size[a] {
        CutKeepsTiles(h.size, a, Wanted(n));
      }
    }
  }

  /** Giving a block back touches no other. */
  lemma FreeSpares(h: H, a: nat, b: nat)
    requires h.Inv() && a in h.asked && b in h.asked && a != b
    ensures b in h.Free(a).asked && h.Free(a).asked[b] == h.asked[b] && h.Free(a).Size(b) == h.Size(b)
  {
  }

  /** What has been given back can be had again. */
  lemma FreedIsHadAgain(h: H, a: nat, n: nat)
    requires h.Inv() && a in h.asked && 0 < n <= h.asked[a] && h.Size(a) < TOTAL
    ensures h.Free(a).Choice(n).Some? && h.Size(h.Free(a).Choice(n).value) <= h.Size(a)
  {
    FreeKeepsInv(h, a);
    assert At(a) && h.Live(a);
    WantedFits(n, h.Size(a));
    var r := h.Free(a);
    assert r.free[h.(asked := h.asked - {a}).Fit(h.Size(a), 0)] == a;
    BestFit(r, n);
  }

  /** Rounding up does not pass an aligned size. */
  lemma WantedFits(n: nat, size: nat)
    requires 0 < n && n + HEADER <= size < TOTAL && Aligned(size)
    ensures 0 < Wanted(n) <= size
  {
  }

  // ----- splitting and the account of bytes -----------------------------------------------------------

  /** Of the block chosen, all but the size wanted goes back to the free list exactly if that is more
      than MINIMUM; otherwise the block is given out whole.  No other block changes hands. */
  lemma RestIsFreeExactlyWhen(h: H, n: nat)
    requires h.Inv() && n <= WORD - HEADER && h.Choice(n).Some?
    ensures var a, w, r := h.Choice(n).value, Wanted(n), h.Malloc(n);
            && 0 < w <= h.Size(a) && a !in r.free
            && (MINIMUM < h.Size(a) - w ==> r.Size(a) == w && r.Size(a + w) == h.Size(a) - w)
            && (h.Size(a) - w <= MINIMUM ==> r.Size(a) == h.Size(a))
            && (forall b :: b in r.free <==> (b in h.free && b != a) || (b == a + w && MINIMUM < h.Size(a) - w))
            && (forall b :: b in h.free && b != a ==> r.Size(b) == h.Size(b))
  {
    hide H.Inv, Aligned, Wanted, Block;
    GivenKeeps(h, n);
    var a, w, g := h.Choice(n).value, Wanted(n), Given(h, n);
    GivenWithout(h, n);
    if MINIMUM < h.Size(a) - w {
      InvTiled(h);
      CutIsNew(h.size, a, w);
      var c := g.(size := Cut(h.size, a, w));
      FreeIsBlock(g);
      InsertAtMembers(c.free, c.Fit(c.Size(a + w), 0), a + w);
    }
  }

  lemma InvTiled(h: H)
    requires h.Inv()
    ensures Tiled(h.size)
  {
  }

  lemma FreeIsBlock(h: H)
    requires h.Inv()
    ensures Apart(h.free, |h.free|) && forall b :: b in h.free ==> b in h.size && b !in h.asked
  {
    hide Tiled;
    assert forall b :: b in h.asked ==> h.Live(b);
  }

  lemma GivenWithout(h: H, n: nat)
    requires h.Inv() && h.Choice(n).Some?
    ensures var a := h.Choice(n).value;
            a in h.free && forall b :: b in Given(h, n).free <==> b in h.free && b != a
  {
    hide Tiled, Wanted;
    var k := h.Fit(Wanted(n), 0);
    AllApart(h.free);
    IndexOfUnique(h.free, k);
    WithoutMembers(h.free, h.Choice(n).value);
  }

  /** The bytes in the blocks that start in s. */
  ghost function Sum(size: map<nat, nat>, s: set<nat>): nat
    requires s <= size.Keys
  {
    if s == {} then 0 else var a :| a in s; size[a] + Sum(size, s - {a})
  }

  lemma {:induction false} SumWithout(size: map<nat, nat>, s: set<nat>, b: nat)
    requires s <= size.Keys && b in s
    ensures Sum(size, s) == size[b] + Sum(size, s - {b})
    decreases |s|
  {
    var a :| a in s && Sum(size, s) == size[a] + Sum(size, s - {a});
    if a != b {
      SumWithout(size, s - {a}, b);
      SumWithout(size, s - {b}, a);
      assert s - {a} - {b} == s - {b} - {a};
    }
  }

  lemma {:induction false} SumTogether(size: map<nat, nat>, s: set<nat>, t: set<nat>)
    requires s <= size.Keys && t <= size.Keys && s !! t
    ensures Sum(size, s + t) == Sum(size, s) + Sum(size, t)
    decreases |s|
  {
    if s == {} {
      assert s + t == t;
    } else {
      var a :| a in s;
      SumWithout(size, s, a);
      SumWithout(size, s + t, a);
      SumTogether(size, s - {a}, t);
      assert s + t - {a} == s - {a} + t;
    }
  }

  lemma {:induction false} SumAlike(size: map<nat, nat>, other: map<nat, nat>, s: set<nat>)
    requires s <= size.Keys && s <= other.Keys && forall a :: a in s ==> size[a] == other[a]
    ensures Sum(size, s) == Sum(other, s)
    decreases |s|
  {
    if s != {} {
      var a :| a in s;
      SumWithout(size, s, a);
      SumWithout(other, s, a);
      SumAlike(size, other, s - {a});
    }
  }

  /** The blocks from an address on. */
  function From(size: map<nat, nat>, from: nat): set<nat> {
    set b | b in size && from <= b
  }

  /** Blocks that tile the heap from an address on hold all the bytes from there on. */
  lemma {:induction false} TilesFrom(size: map<nat, nat>, from: nat)
    requires Tiled(size) && from in size
    ensures From(size, from) <= size.Keys && Sum(size, From(size, from)) == TOTAL - from
    decreases TOTAL - from
  {
    var s, next := From(size, from), from + size[from];
    assert At(from);
    forall b | b in s - {from} ensures next <= b && Block(size, b) {
      assert At(b);
    }
    SumWithout(size, s, from);
    if next == TOTAL {
      assert s - {from} == {};
    } else {
      TilesFrom(size, next);
      assert s - {from} == From(size, next);
    }
  }

  ghost function FreeBytes(h: H): nat
    requires h.Inv()
  {
    FreeIsBlock(h);
    Sum(h.size, set a | a in h.free)
  }

  ghost function LiveBytes(h: H): nat
    requires h.Inv()
  {
    LiveIsBlock(h);
    Sum(h.size, h.asked.Keys)
  }

  lemma LiveIsBlock(h: H)
    requires h.Inv()
    ensures h.asked.Keys <= h.size.Keys
  {
    hide Tiled;
    assert forall b :: b in h.asked ==> h.Live(b);
  }

  /** No byte gets lost: the free and the live blocks hold them all. */
  lemma BytesAddUp(h: H)
    requires h.Inv()
    ensures FreeBytes(h) + LiveBytes(h) == TOTAL
  {
    hide Tiled;
    var free := set a | a in h.free;
    FreeIsBlock(h);
    LiveIsBlock(h);
    SumTogether(h.size, free, h.asked.Keys);
    assert free + h.asked.Keys == h.size.Keys;
    InvTiled(h);
    assert 0 in h.size by { ZeroIsBlock(h.size); }
    TilesFrom(h.size, 0);
    assert From(h.size, 0) == h.size.Keys;
  }

  lemma ZeroIsBlock(size: map<nat, nat>)
    requires Tiled(size)
    ensures 0 in size
  {
  }

  /** What a request takes off the free list is the block that it gets, which is no longer than
      MINIMUM over the size wanted. */
  lemma MallocTakesNoMore(h: H, n: nat)
    requires h.Inv() && n <= WORD - HEADER && h.Choice(n).Some?
    ensures var a, r := h.Choice(n).value, h.Malloc(n);
            && Wanted(n) <= r.Size(a) <= Wanted(n) + MINIMUM
            && r.Inv() && FreeBytes(h) == FreeBytes(r) + r.Size(a) && LiveBytes(r) == LiveBytes(h) + r.Size(a)
  {
    hide H.Inv, Wanted, H.Malloc, FreeBytes;
    var a, r := h.Choice(n).value, h.Malloc(n);
    MallocKeepsInv(h, n);
    RestIsFreeExactlyWhen(h, n);
    BestFit(h, n);
    LiveIsBlock(h);
    LiveIsBlock(r);
    MallocAdds(h, n);
    forall b | b in h.asked ensures r.Size(b) == h.Size(b) {
      MallocSpares(h, n, b);
    }
    SumWithout(r.size, r.asked.Keys, a);
    SumAlike(h.size, r.size, h.asked.Keys);
    assert r.asked.Keys - {a} == h.asked.Keys;
    BytesAddUp(h);
    BytesAddUp(r);
  }

  lemma MallocAdds(h: H, n: nat)
    requires h.Choice(n).Some?
    ensures h.Malloc(n).asked == h.asked[h.Choice(n).value := n]
  {
  }

  /** And giving a block back returns all of it. */
  lemma FreeReturnsAll(h: H, a: nat)
    requires h.Inv() && a in h.asked
    ensures h.Free(a).Inv() && FreeBytes(h.Free(a)) == FreeBytes(h) + h.Size(a)
    ensures LiveBytes(h) == LiveBytes(h.Free(a)) + h.Size(a)
  {
    hide H.Inv, FreeBytes, H.Fit;
    FreeKeepsInv(h, a);
    LiveIsBlock(h);
    LiveIsBlock(h.Free(a));
    SumWithout(h.size, h.asked.Keys, a);
    assert h.Free(a).asked.Keys == h.asked.Keys - {a};
    BytesAddUp(h);
    BytesAddUp(h.Free(a));
  }

  /** No live block is longer than its request needs by more than MINIMUM. */
  ghost predicate Snug(h: H) {
    forall a :: a in h.asked ==> h.Size(a) <= Wanted(h.asked[a]) + MINIMUM
  }

  lemma NextSnug(h: H, s: Step)
    requires h.Inv() && Snug(h) && Enabled(h, s)
    ensures Snug(Next(h, s))
  {
    hide H.Inv, Wanted, H.Malloc, H.Free;
    match s
    case Malloc(n) =>
      if h.Choice(n).Some? {
        MallocTakesNoMore(h, n);
        MallocAdds(h, n);
        forall b | b in h.asked && b != h.Choice(n).value ensures h.Malloc(n).Size(b) == h.Size(b) {
          MallocSpares(h, n, b);
        }
      } else {
        RefusedAlike(h, n);
      }
    case Free(a) =>
      FreedAsked(h, a);
      forall b | b in h.asked && b != a ensures h.Free(a).Size(b) == h.Size(b) {
        FreeSpares(h, a, b);
      }
  }

  lemma RefusedAlike(h: H, n: nat)
    requires h.Choice(n).None?
    ensures h.Malloc(n) == h
  {
  }

  lemma FreedAsked(h: H, a: nat)
    ensures h.Free(a).asked == h.asked - {a}
  {
  }

  // ----- runs -------------------------------------------------------------------------------------

  datatype Step = Malloc(n: nat) | Free(a: nat)

  predicate Enabled(h: H, s: Step) {
    match s
    case Malloc(n) => n <= WORD - HEADER
    case Free(a) => a in h.asked
  }

  function Next(h: H, s: Step): H {
    match s
    case Malloc(n) => h.Malloc(n)
    case Free(a) => h.Free(a)
  }

  ghost predicate Feasible(h: H, steps: seq<Step>)
    decreases |steps|
  {
    steps != [] ==> Enabled(h, steps[0]) && Feasible(Next(h, steps[0]), steps[1..])
  }

  ghost function Run(h: H, steps: seq<Step>): H
    decreases |steps|
  {
    if steps == [] then h else Run(Next(h, steps[0]), steps[1..])
  }

  /** prvHeapInit. */
  function Whole(): H {
    H(map[0 := TOTAL], [0], map[])
  }

  lemma NextKeepsInv(h: H, s: Step)
    requires h.Inv() && Enabled(h, s)
    ensures Next(h, s).Inv()
  {
    match s
    case Malloc(n) => MallocKeepsInv(h, n);
    case Free(a) => FreeKeepsInv(h, a);
  }

  /** However often memory is asked for and given back, the blocks tile the heap, each is free or
      live, and the free list stays sorted. */
  lemma {:induction false} RunKeepsInv(h: H, steps: seq<Step>)
    requires h.Inv() && Feasible(h, steps)
    ensures Run(h, steps).Inv()
    decreases |steps|
  {
    hide H.Inv, Next, Enabled;
    if steps != [] {
      NextKeepsInv(h, steps[0]);
      RunKeepsInv(Next(h, steps[0]), steps[1..]);
    }
  }

  lemma WholeHeapIsSound(steps: seq<Step>)
    requires Feasible(Whole(), steps)
    ensures Run(Whole(), steps).Inv()
  {
    RunKeepsInv(Whole(), steps);
  }

  lemma {:induction false} RunSnug(h: H, steps: seq<Step>)
    requires h.Inv() && Snug(h) && Feasible(h, steps)
    ensures Snug(Run(h, steps))
    decreases |steps|
  {
    hide H.Inv, Snug, Next;
    if steps != [] {
      NextSnug(h, steps[0]);
      NextKeepsInv(h, steps[0]);
      RunSnug(Next(h, steps[0]), steps[1..]);
    }
  }

  /** After any run of allocations and releases every byte is free or live, and no live block is
      longer than its request needs by more than MINIMUM. */
  lemma NothingIsWasted(steps: seq<Step>, a: nat)
    requires Feasible(Whole(), steps)
    ensures var h := Run(Whole(), steps);
            && h.Inv() && FreeBytes(h) + LiveBytes(h) == TOTAL
            && (a in h.asked ==> h.asked[a] + HEADER <= h.Size(a) <= Wanted(h.asked[a]) + MINIMUM)
  {
    hide Tiled;
    WholeHeapIsSound([]);
    WholeHeapIsSound(steps);
    RunSnug(Whole(), steps);
    var h := Run(Whole(), steps);
    BytesAddUp(h);
    if a in h.asked {
      assert h.Live(a);
    }
  }
}
