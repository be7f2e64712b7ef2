/** The task control blocks and all the kernel's lists: what each list holds, and which lists
    the two items of each task say they are on. */
module Worlds {
  import opened Rings

  type Task = nat

  /** The two list items of a task control block. */
  datatype Item = Gen(task: Task) | Ev(task: Task)

  /** DelayA and DelayB are the two delayed lists, which swap roles; Event(q) is a list of tasks
      that wait on some queue. */
  datatype ListId = Ready(priority: nat) | DelayA | DelayB | Suspended | Pending | Dead | Event(queue: nat)

  /** An item's container field. */
  datatype Place = Nowhere | On(id: ListId)

  /** The fields of a task control block that the scheduler uses: its priorities, and the
      container and value of its generic item (`gen`, `wake`) and of its event item (`ev`,
      `rank`).  `due` is history: the absolute tick that the task's last timed wait ends at. */
  datatype Tcb = Tcb(prio: nat, base: nat, gen: Place, wake: nat, ev: Place, rank: nat, due: nat) {

    function At(i: Item): Place {
      if i.Gen? then gen else ev
    }

    function Moved(i: Item, p: Place): Tcb {
      if i.Gen? then this.(gen := p) else this.(ev := p)
    }
  }

  ghost predicate Seen(id: ListId) { true }

  ghost predicate Known(i: Item) { true }

  datatype World = World(lists: map<ListId, Ring<Item>>, tcb: map<Task, Tcb>) {

    function L(id: ListId): Ring<Item> {
      if id in lists then lists[id] else Ring([], 0)
    }

    predicate IsOn(i: Item, id: ListId) {
      i.task in tcb && tcb[i.task].At(i) == On(id)
    }

    /** The value of an item. */
    function V(i: Item): nat {
      if i.task !in tcb then 0 else if i.Gen? then tcb[i.task].wake else tcb[i.task].rank
    }

    function Values(id: ListId): seq<nat> {
      seq(|L(id).items|, a requires 0 <= a < |L(id).items| => V(L(id).items[a]))
    }

    /** What list `id` has to do with the container fields. */
    ghost predicate Holds(id: ListId) {
      L(id).Valid() && forall i :: i in L(id).items ==> IsOn(i, id)
    }

    /** Items and lists agree: each item is on the one list its container names, once.  The
        marks keep the verifier from opening this unless a proof asks. */
    ghost predicate Linked() {
      && (forall id {:trigger Seen(id)} :: Seen(id) ==> Holds(id))
      && (forall i, id {:trigger Known(i), Seen(id)} :: Known(i) && Seen(id) && IsOn(i, id) ==> i in L(id).items)
    }

    ghost predicate Ordered(id: ListId) {
      Sorted(Values(id))
    }

    /** vListInsertEnd. */
    function Put(id: ListId, i: Item): (r: World)
      requires Linked() && i.task in tcb && tcb[i.task].At(i) == Nowhere
      ensures r.Linked() && r.tcb == tcb[i.task := tcb[i.task].Moved(i, On(id))]
      ensures L(id).cursor <= |L(id).items|
      ensures r.L(id) == L(id).InsertEnd(i) && forall o :: o != id ==> r.L(o) == L(o)
      ensures forall o :: o != id && Ordered(o) ==> r.Ordered(o)
    {
      assert Seen(id);
      var r := World(lists[id := L(id).InsertEnd(i)], tcb[i.task := tcb[i.task].Moved(i, On(id))]);
      Inserted(this, r, id, L(id).cursor, i);
      assert forall o :: o != id ==> r.Values(o) == Values(o);
      r
    }

    /** vListInsert. */
    function PutSorted(id: ListId, i: Item): (r: World)
      requires Linked() && i.task in tcb && tcb[i.task].At(i) == Nowhere
      ensures r.Linked() && r.tcb == tcb[i.task := tcb[i.task].Moved(i, On(id))]
      ensures r.L(id) == L(id).Insert(SortedPos(Values(id), V(i)), i) && forall o :: o != id ==> r.L(o) == L(o)
      ensures forall o :: Ordered(o) ==> r.Ordered(o)
    {
      assert Seen(id);
      var p := SortedPos(Values(id), V(i));
      var r := World(lists[id := L(id).Insert(p, i)], tcb[i.task := tcb[i.task].Moved(i, On(id))]);
      Inserted(this, r, id, p, i);
      OrderedInserted(this, r, id, p, i);
      assert forall o :: o != id ==> r.Values(o) == Values(o);
      r
    }

    /** vListRemove. */
    function Take(i: Item): (r: World)
      requires Linked() && i.task in tcb && tcb[i.task].At(i).On?
      ensures r.Linked() && r.tcb == tcb[i.task := tcb[i.task].Moved(i, Nowhere)]
      ensures var id := tcb[i.task].At(i).id;
              i in L(id).items && r.L(id) == L(id).Remove(i) && forall o :: o != id ==> r.L(o) == L(o)
      ensures forall o :: Ordered(o) ==> r.Ordered(o)
    {
      var id := tcb[i.task].At(i).id;
      assert Known(i) && Seen(id);
      var r := World(lists[id := L(id).Remove(i)], tcb[i.task := tcb[i.task].Moved(i, Nowhere)]);
      Removed(this, r, id, i);
      OrderedRemoved(this, r, id, i);
      r
    }

    /** listGET_OWNER_OF_NEXT_ENTRY, as far as it moves the cursor. */
    function Turn(id: ListId): (r: World)
      requires Linked() && L(id).items != []
      ensures r.Linked() && r.tcb == tcb
      ensures L(id).cursor <= |L(id).items|
      ensures r.L(id) == L(id).Next() && forall o :: o != id ==> r.L(o) == L(o)
      ensures forall o :: Ordered(o) ==> r.Ordered(o)
    {
      assert Seen(id);
      var r := World(lists[id := L(id).Next()], tcb);
      assert forall o {:trigger Seen(o)} :: Seen(o) ==> Holds(o) ==> r.Holds(o);
      assert forall o :: r.Values(o) == Values(o);
      r
    }

    /** Change a task's block but for the containers, or set up a new task's. */
    function Update(t: Task, b: Tcb): (r: World)
      requires Linked() && (if t in tcb then b.gen == tcb[t].gen && b.ev == tcb[t].ev
                            else b.gen == Nowhere && b.ev == Nowhere)
      ensures r.Linked() && r.tcb == tcb[t := b] && forall o :: r.L(o) == L(o)
      ensures forall o :: (&& Ordered(o) && (b.gen == On(o) ==> b.wake == tcb[t].wake)
                           && (b.ev == On(o) ==> b.rank == tcb[t].rank)) ==> r.Ordered(o)
    {
      var r := World(lists, tcb[t := b]);
      assert forall o :: r.L(o) == L(o);
      assert forall i, o :: r.IsOn(i, o) <==> IsOn(i, o);
      assert forall o {:trigger Seen(o)} :: Seen(o) ==> Holds(o) ==> r.Holds(o);
      OrderedUpdated(this, r, t);
      r
    }

    /** Take a task's generic item off its list and give the task the block b. */
    function Rebased(t: Task, b: Tcb): (r: World)
      requires Linked() && t in tcb && tcb[t].gen.On? && b.ev == tcb[t].ev
      ensures r.Linked() && r.tcb == tcb[t := b.(gen := Nowhere)]
      ensures forall o :: Ordered(o) && (b.ev == On(o) ==> b.rank == tcb[t].rank) ==> r.Ordered(o)
    {
      Take(Gen(t)).Update(t, b.(gen := Nowhere))
    }

    /** And then file the item by its value on the list that b names. */
    function Refiled(t: Task, b: Tcb): (r: World)
      requires Linked() && t in tcb && tcb[t].gen.On? && b.gen.On? && b.ev == tcb[t].ev && b.rank == tcb[t].rank
      ensures r.Linked() && r.tcb == tcb[t := b]
      ensures forall o :: Ordered(o) ==> r.Ordered(o)
    {
      var w := Rebased(t, b);
      assert w.tcb[t] == b.(gen := Nowhere) && w.tcb[t := b] == tcb[t := b];
      w.PutSorted(b.gen.id, Gen(t))
    }

    /** Forget a task that is on no list. */
    function Forget(t: Task): (r: World)
      requires Linked() && t in tcb && tcb[t].gen == Nowhere && tcb[t].ev == Nowhere
      ensures r.Linked() && r.tcb == tcb - {t} && forall o :: r.L(o) == L(o)
      ensures forall o :: Ordered(o) ==> r.Ordered(o)
    {
      var r := World(lists, tcb - {t});
      assert forall o :: r.L(o) == L(o);
      assert forall i, o :: r.IsOn(i, o) <==> IsOn(i, o);
      assert forall o {:trigger Seen(o)} :: Seen(o) ==> Holds(o) ==> r.Holds(o);
      OrderedUpdated(this, r, t);
      r
    }
  }

  lemma Inserted(w: World, r: World, id: ListId, p: nat, i: Item)
    requires w.Linked() && i.task in w.tcb && w.tcb[i.task].At(i) == Nowhere && p <= |w.L(id).items|
    requires r.L(id).items == InsertAt(w.L(id).items, p, i) && r.L(id).cursor <= |r.L(id).items|
    requires forall o :: o != id ==> r.L(o) == w.L(o)
    requires r.tcb == w.tcb[i.task := w.tcb[i.task].Moved(i, On(id))]
    ensures r.Linked()
  {
    assert Seen(id);
    InsertAtMembers(w.L(id).items, p, i);
    assert forall x, o :: r.IsOn(x, o) <==> if x == i then o == id else w.IsOn(x, o);
    forall o ensures r.Holds(o) {
      assert Seen(o);
    }
    forall x, o | r.IsOn(x, o) ensures x in r.L(o).items {
      assert Known(x) && Seen(o);
    }
  }

  lemma Removed(w: World, r: World, id: ListId, i: Item)
    requires w.Linked() && w.IsOn(i, id) && i in w.L(id).items
    requires r.L(id) == w.L(id).Remove(i) && forall o :: o != id ==> r.L(o) == w.L(o)
    requires r.tcb == w.tcb[i.task := w.tcb[i.task].Moved(i, Nowhere)]
    ensures r.Linked()
  {
    assert Seen(id);
    WithoutMembers(w.L(id).items, i);
    assert forall x, o :: r.IsOn(x, o) <==> x != i && w.IsOn(x, o);
    forall o ensures r.Holds(o) {
      assert Seen(o);
    }
    forall x, o | r.IsOn(x, o) ensures x in r.L(o).items {
      assert Known(x) && Seen(o);
    }
  }

  lemma OrderedInserted(w: World, r: World, id: ListId, p: nat, i: Item)
    requires p == SortedPos(w.Values(id), w.V(i))
    requires r.L(id).items == InsertAt(w.L(id).items, p, i) && forall x :: r.V(x) == w.V(x)
    ensures w.Ordered(id) ==> r.Ordered(id)
  {
    assert r.Values(id) == InsertAt(w.Values(id), p, w.V(i));
    if w.Ordered(id) {
      SortedInsertSorts(w.Values(id), w.V(i));
    }
  }

  lemma OrderedRemoved(w: World, r: World, id: ListId, i: Item)
    requires i in w.L(id).items
    requires r.L(id) == w.L(id).Remove(i) && forall o :: o != id ==> r.L(o) == w.L(o)
    requires forall x :: r.V(x) == w.V(x)
    ensures forall o :: w.Ordered(o) ==> r.Ordered(o)
  {
    var p := IndexOf(w.L(id).items, i);
    forall o | w.Ordered(o) ensures r.Ordered(o) {
      if o == id {
        assert r.Values(o) == RemoveAt(w.Values(o), p);
        WithoutSorted(w.Values(o), p);
      } else {
        assert r.Values(o) == w.Values(o);
      }
    }
  }

  lemma OrderedUpdated(w: World, r: World, t: Task)
    requires w.Linked() && forall o :: r.L(o) == w.L(o)
    requires forall u :: u != t ==> (u in r.tcb <==> u in w.tcb) && (u in w.tcb ==> r.tcb[u] == w.tcb[u])
    ensures forall o :: (&& w.Ordered(o) && (w.IsOn(Gen(t), o) ==> r.V(Gen(t)) == w.V(Gen(t)))
                         && (w.IsOn(Ev(t), o) ==> r.V(Ev(t)) == w.V(Ev(t)))) ==> r.Ordered(o)
  {
    forall o | w.Ordered(o) && (w.IsOn(Gen(t), o) ==> r.V(Gen(t)) == w.V(Gen(t)))
               && (w.IsOn(Ev(t), o) ==> r.V(Ev(t)) == w.V(Ev(t)))
      ensures r.Ordered(o)
    {
      assert Seen(o);
      forall a | 0 <= a < |w.L(o).items| ensures r.V(w.L(o).items[a]) == w.V(w.L(o).items[a]) {
        var x := w.L(o).items[a];
        assert x in w.L(o).items && (x == Gen(x.task) || x == Ev(x.task));
      }
      assert r.Values(o) == w.Values(o);
    }
  }

  /** The head of a list names that list as its container. */
  lemma HeadIsOn(w: World, id: ListId)
    requires w.Linked() && w.L(id).items != []
    ensures w.IsOn(w.L(id).items[0], id)
  {
    assert Seen(id);
  }

  lemma EmptyList(w: World, id: ListId)
    requires w.Linked() && forall i :: !w.IsOn(i, id)
    ensures w.L(id).items == []
  {
    if w.L(id).items != [] {
      HeadIsOn(w, id);
    }
  }

  lemma OnList(w: World, i: Item, id: ListId)
    requires w.Linked() && w.IsOn(i, id)
    ensures i in w.L(id).items
  {
    assert Known(i) && Seen(id);
  }

  lemma HeadIsLeast(w: World, i: Item, id: ListId)
    requires w.Linked() && w.Ordered(id) && w.IsOn(i, id)
    ensures w.L(id).items != [] && w.V(w.L(id).items[0]) <= w.V(i)
  {
    OnList(w, i, id);
    var p := IndexOf(w.L(id).items, i);
    assert w.Values(id)[0] <= w.Values(id)[p];
  }
}
