/** The intrusive circular doubly linked list of list.c, at the level of its pointers. */
module Lists {
  import opened Bytes
  import opened Rings

  class ListItem {
    var value: nat
    var next: ListItem?
    var prev: ListItem?
    var owner: nat
    var container: List?

    /** vListInitialiseItem, with the owner and value macros applied. */
    constructor (value: nat, owner: nat)
      ensures container == null && this.value == value && this.owner == owner
    {
      this.value, this.owner := value, owner;
      next, prev, container := null, null, null;
    }
  }

  ghost function Values(items: seq<ListItem>): (v: seq<nat>)
    reads items
    ensures |v| == |items|
  {
    seq(|items|, i requires 0 <= i < |items| reads items => items[i].value)
  }

  /** `chain` runs once around a circle, from the end marker over the items and back to the
      marker, and its nodes other than number `out` belong to `list`. */
  ghost predicate Circle(list: List, items: seq<ListItem>, chain: seq<ListItem>, nodes: set<ListItem>, out: int)
    reads nodes
  {
    && |chain| == |items| + 2 && chain[0] == chain[|items| + 1] && Apart(chain, |items| + 1)
    && (forall i :: 1 <= i <= |items| ==> chain[i] == items[i - 1])
    && (forall i :: 0 <= i <= |items| ==> chain[i] in nodes && chain[i].value <= MAX_DELAY)
    && (forall i :: 1 <= i <= |items| && i != out ==> chain[i].container == list)
  }

  /** Each node points forth to the next of the chain and is pointed back to by it, except that
      nothing is said of the links between the nodes lo to hi. */
  ghost predicate LinkedBut(chain: seq<ListItem>, lo: int, hi: int)
    reads set x | x in chain
  {
    && (forall i {:trigger chain[i].next} :: 0 <= i < |chain| - 1 && !(lo <= i < hi) ==> chain[i].next == chain[i + 1])
    && (forall i {:trigger chain[i].prev} :: 1 <= i < |chain| && !(lo < i <= hi) ==> chain[i].prev == chain[i - 1])
  }

  method LinkBehind(at: ListItem, item: ListItem)
    requires at.next != null && item != at && item != at.next
    modifies item`next, item`prev, at`next, at.next`prev
    ensures item.next == old(at.next) && item.prev == at
    ensures at.next == item && old(at.next).prev == item
  {
    item.next := at.next;
    item.prev := at;
    at.next.prev := item;
    at.next := item;
  }

  method LinkAround(item: ListItem)
    requires item.next != null && item.prev != null && item.next != item && item.prev != item
    modifies item.next`prev, item.prev`next
    ensures old(item.next).prev == old(item.prev) && old(item.prev).next == old(item.next)
  {
    item.next.prev := item.prev;
    item.prev.next := item.next;
  }

  class List {
    var count: nat
    var index: ListItem
    const end: ListItem
    ghost var items: seq<ListItem>
    ghost var cursor: nat
    ghost var chain: seq<ListItem>
    ghost var nodes: set<ListItem>

    ghost predicate Valid()
      reads this, end, nodes
    {
      && Circle(this, items, chain, nodes, 0)
      && LinkedBut(chain, 0, 0)
      && chain[0] == end && end.value == MAX_DELAY && Members()
      && count == |items| && cursor <= |items| && index == chain[cursor]
    }

    /** The list's nodes are its end marker and the items that name it as their container. */
    ghost predicate Members()
      reads this`nodes, nodes`container
    {
      forall x :: x in nodes ==> x == end || x.container == this
    }

    ghost function View(): Ring<ListItem>
      reads this
    {
      Ring(items, cursor)
    }

    /** vListInitialise. */
    constructor ()
      ensures Valid() && View() == Ring([], 0) && nodes == {end} && fresh(end)
    {
      var marker := new ListItem(MAX_DELAY, 0);
      end, index, count := marker, marker, 0;
      items, cursor, chain, nodes := [], 0, [marker, marker], {marker};
      new;
      marker.next, marker.prev := marker, marker;
    }

    /** listLIST_IS_EMPTY and listCURRENT_LIST_LENGTH. */
    method Length() returns (n: nat)
      requires Valid()
      ensures n == |items|
    {
      n := count;
    }

    /** The assignments to pointers by which an item is linked in behind node c. */
    method LinkIn(at: ListItem, ghost c: nat, item: ListItem)
      requires Valid() && item.container == null && item !in nodes && c <= |items| && at == chain[c]
      modifies this`count, nodes`next, nodes`prev, item`next, item`prev, item`container
      ensures Circle(this, items, chain, nodes, 0) && LinkedBut(chain, c, c + 1)
      ensures item.next == chain[c + 1] && item.prev == chain[c] && chain[c].next == item && chain[c + 1].prev == item
      ensures item.container == this && count == |items| + 1
    {
      hide Apart;
      ApartFrom(chain, c);
      LinkBehind(at, item);
      item.container := this;
      count := count + 1;
    }

    /** Admit an item behind node c: the statements that vListInsertEnd and vListInsert share. */
    method Splice(at: ListItem, ghost c: nat, item: ListItem)
      requires Valid() && item.container == null && item != end && item.value <= MAX_DELAY
      requires c <= |items| && at == chain[c]
      modifies this, nodes`next, nodes`prev, item`next, item`prev, item`container
      ensures count == |items| && items == InsertAt(old(items), c, item)
      ensures chain == InsertAt(old(chain), c + 1, item) && nodes == old(nodes) + {item}
      ensures item !in old(nodes) && item.container == this
      ensures Circle(this, items, chain, nodes, 0) && LinkedBut(chain, 0, 0)
      ensures chain[0] == end && end.value == MAX_DELAY && Members()
      ensures index == old(index) && cursor == old(cursor)
    {
      hide LinkedBut, Apart;
      LinkIn(at, c, item);
      items, chain, nodes := InsertAt(items, c, item), InsertAt(chain, c + 1, item), nodes + {item};
      Threaded(this, old(items), old(chain), old(nodes), c, item);
    }

    method InsertEnd(item: ListItem)
      requires Valid() && item.container == null && item != end && item.value <= MAX_DELAY
      modifies this, nodes`next, nodes`prev, item`next, item`prev, item`container
      ensures Valid() && View() == old(View()).InsertEnd(item)
      ensures nodes == old(nodes) + {item} && item !in old(nodes) && item.container == this
    {
      Splice(index, cursor, item);
      index := item;
      cursor := cursor + 1;
    }

    /** The search of vListInsert: the node to link behind. */
    method FindSpot(value: nat) returns (at: ListItem, ghost k: nat)
      requires Valid() && value <= MAX_DELAY
      ensures k == SortedPos(Values(items), value) <= |items|
      ensures at == chain[SortedPos(Values(items), value)]
    {
      ghost var vals := Values(items);
      assert forall i :: 0 <= i < |items| ==> vals[i] == chain[i + 1].value;
      at, k := end, 0;
      if value == MAX_DELAY {
        at := end.prev;
        k := |items|;
      } else {
        while at.next.value <= value
          invariant 0 <= k <= |items| && at == chain[k]
          invariant forall i :: 0 <= i < k ==> vals[i] <= value
          decreases |items| - k
        {
          at := at.next;
          k := k + 1;
        }
      }
      SortedPosAt(vals, value, k);
    }

    /** vListInsert. */
    method Insert(item: ListItem)
      requires Valid() && item.container == null && item != end && item.value <= MAX_DELAY
      modifies this, nodes`next, nodes`prev, item`next, item`prev, item`container
      ensures Valid()
      ensures View() == old(View()).Insert(SortedPos(old(Values(items)), item.value), item)
      ensures nodes == old(nodes) + {item} && item !in old(nodes) && item.container == this
    {
      hide LinkedBut, Apart, List.Members;
      var at, k := FindSpot(item.value);
      Splice(at, k, item);
      cursor := if k < cursor then cursor + 1 else cursor;
    }

    /** Let go of item number p: vListRemove but for the cursor. */
    method Unsplice(item: ListItem, ghost p: nat)
      requires Valid() && p < |items| && items[p] == item
      modifies this, nodes`next, nodes`prev, item`container
      ensures item.container == null && item.prev == old(chain)[p] && item == old(chain)[p + 1]
      ensures count == |items| && items == RemoveAt(old(items), p)
      ensures chain == RemoveAt(old(chain), p + 1) && nodes == old(nodes) - {item} && item in old(nodes)
      ensures Circle(this, items, chain, nodes, 0) && LinkedBut(chain, 0, 0)
      ensures chain[0] == end && end.value == MAX_DELAY && Members()
      ensures index == old(index) && cursor == old(cursor)
    {
      hide Apart;
      assert chain[p + 1] == item;
      ApartFrom(chain, p);
      ApartFrom(chain, p + 1);
      LinkAround(item);
      item.container := null;
      count := count - 1;
      items, chain := RemoveAt(items, p), RemoveAt(chain, p + 1);
      Unthreaded(this, old(items), old(chain), nodes, p);
      nodes := nodes - {item};
    }

    /** listGET_OWNER_OF_NEXT_ENTRY on a list that is not empty. */
    method OwnerOfNextEntry() returns (owner: nat)
      requires Valid() && items != []
      modifies this`index, this`cursor
      ensures Valid() && View() == old(View()).Next() && owner == View().Here().owner
    {
      ApartFrom(chain, 0);
      index := index.next;
      if index == end {
        index := index.next;
      }
      cursor := View().Next().cursor;
      owner := index.owner;
    }

    /** listGET_OWNER_OF_HEAD_ENTRY, where an empty list gives the null pointer. */
    method OwnerOfHeadEntry() returns (some: bool, owner: nat)
      requires Valid()
      ensures some <==> items != []
      ensures some ==> owner == items[0].owner
    {
      some := count != 0;
      owner := 0;
      if some {
        owner := end.next.owner;
      }
    }
  }

  /** vListRemove, which finds the list through the item. */
  method ListRemove(item: ListItem)
    requires item.container != null && item.container.Valid() && item in item.container.items
    modifies item`container, item.container, item.container.nodes`next, item.container.nodes`prev
    ensures item.container == null
    ensures var list := old(item.container);
            list.Valid() && list.View() == old(list.View()).Remove(item)
            && list.nodes == old(list.nodes) - {item} && item in old(list.nodes) && item != list.end
  {
    hide LinkedBut;
    var list := item.container;
    ghost var p := IndexOf(list.items, item);
    ApartFrom(list.chain, p);
    ApartFrom(list.chain, p + 1);
    list.Unsplice(item, p);
    if list.index == item {
      list.index := item.prev;
    }
    list.cursor := if p < list.cursor then list.cursor - 1 else list.cursor;
  }

  // ----- an item that goes from list to list --------------------------------------------------------

  ghost predicate Separate(a: List, b: List)
    reads a, b
  {
    a != b && a.nodes !! b.nodes
  }

  lemma ItemsAreNodes(list: List)
    requires list.Valid()
    ensures Apart(list.items, |list.items|)
    ensures forall x :: x in list.items ==>
              x in list.nodes && x.value <= MAX_DELAY && x.container == list && x != list.end
  {
    forall i, j | 0 <= i < j < |list.items| ensures list.items[i] != list.items[j] {
      assert list.chain[i + 1] == list.items[i] && list.chain[j + 1] == list.items[j] && Mark(i + 1) && Mark(j + 1);
    }
    forall x | x in list.items
      ensures x in list.nodes && x.value <= MAX_DELAY && x.container == list && x != list.end
    {
      var i := IndexOf(list.items, x);
      assert list.chain[i + 1] == x && Mark(i + 1) && Mark(0);
    }
  }

  /** Off its list, a new value, and onto another list by that value, as a task does that blocks. */
  method MoveSorted(item: ListItem, from: List, to: List, value: nat)
    requires from.Valid() && to.Valid() && Separate(from, to) && item in from.items
    requires value <= MAX_DELAY
    modifies item, from, to, from.nodes`next, from.nodes`prev, to.nodes`next, to.nodes`prev
    ensures from.Valid() && to.Valid() && Separate(from, to) && item in to.items
    ensures from.View() == old(from.View()).Remove(item) && item.value == value
    ensures to.View() == old(to.View()).Insert(SortedPos(old(Values(to.items)), value), item)
    ensures from.nodes == old(from.nodes) - {item} && to.nodes == old(to.nodes) + {item}
  {
    hide SortedPos, InsertAt, IndexOf, Ring.Remove;
    ghost var place := SortedPos(Values(to.items), value);
    ItemsAreNodes(from);
    ItemsAreNodes(to);
    ListRemove(item);
    item.value := value;
    assert Values(to.items) == old(Values(to.items));
    to.Insert(item);
    InsertAtMembers(old(to.items), place, item);
  }

  /** Off its list and to the end of another, as a task does that becomes ready. */
  method MoveToEnd(item: ListItem, from: List, to: List)
    requires from.Valid() && to.Valid() && Separate(from, to) && item in from.items
    modifies item, from, to, from.nodes`next, from.nodes`prev, to.nodes`next, to.nodes`prev
    ensures from.Valid() && to.Valid() && Separate(from, to) && item in to.items
    ensures from.View() == old(from.View()).Remove(item)
    ensures to.View() == old(to.View()).InsertEnd(item)
    ensures from.nodes == old(from.nodes) - {item} && to.nodes == old(to.nodes) + {item}
  {
    ItemsAreNodes(from);
    ItemsAreNodes(to);
    ghost var c := to.cursor;
    ListRemove(item);
    to.InsertEnd(item);
    assert to.items[c] == item;
  }

  /** A task delayed and made ready again. */
  method DelayOnce(item: ListItem, ready: List, delayed: List, wake: nat)
    requires ready.Valid() && delayed.Valid() && Separate(ready, delayed) && item in ready.items && wake <= MAX_DELAY
    modifies item, ready, delayed, ready.nodes`next, ready.nodes`prev, delayed.nodes`next, delayed.nodes`prev
    ensures ready.Valid() && delayed.Valid() && Separate(ready, delayed) && item in ready.items
    ensures ready.nodes == old(ready.nodes) && delayed.nodes == old(delayed.nodes)
    ensures delayed.View() == old(delayed.View())
    ensures ready.cursor <= |ready.items| && old(ready.cursor <= |ready.items| && item in ready.View().Turn())
    ensures ready.View().Turn() == Without(old(ready.View().Turn()), item) + [item]
  {
    hide Circle, LinkedBut, List.Members, Apart, Values;
    ItemsAreNodes(ready);
    ItemsAreNodes(delayed);
    RemoveThenInsertEnd(ready.View(), item);
    InsertThenRemove(delayed.View(), SortedPos(Values(delayed.items), wake), item);
    MoveSorted(item, ready, delayed, wake);
    MoveToEnd(item, delayed, ready);
  }

  /** However often an item is delayed and made ready again, both lists stay as they must be: the
      delayed list is as it was and the item is last in turn on the other. */
  method DelayAgainAndAgain(item: ListItem, ready: List, delayed: List, wakes: seq<nat>)
    requires ready.Valid() && delayed.Valid() && Separate(ready, delayed) && item in ready.items
    requires forall i :: 0 <= i < |wakes| ==> wakes[i] <= MAX_DELAY
    modifies item, ready, delayed, ready.nodes`next, ready.nodes`prev, delayed.nodes`next, delayed.nodes`prev
    ensures ready.Valid() && delayed.Valid() && Separate(ready, delayed) && item in ready.items
    ensures delayed.View() == old(delayed.View())
    ensures ready.cursor <= |ready.items| && old(ready.cursor <= |ready.items|)
    ensures wakes != [] ==> old(item in ready.View().Turn())
                            && ready.View().Turn() == Without(old(ready.View().Turn()), item) + [item]
  {
    hide Circle, LinkedBut, List.Members, Apart;
    ItemsAreNodes(ready);
    ghost var turn := ready.View().Turn();
    TurnDistinct(ready.View());
    var i := 0;
    while i < |wakes|
      invariant 0 <= i <= |wakes|
      invariant ready.Valid() && delayed.Valid() && Separate(ready, delayed) && item in ready.items
      invariant ready.nodes == old(ready.nodes) && delayed.nodes == old(delayed.nodes)
      invariant delayed.View() == old(delayed.View())
      invariant ready.cursor <= |ready.items| && (0 < i ==> item in turn)
      invariant ready.View().Turn() == if i == 0 then turn else Without(turn, item) + [item]
    {
      DelayOnce(item, ready, delayed, wakes[i]);
      SentToBackTwice(turn, item);
      i := i + 1;
    }
  }

  /** A new list, two items, and the first of them taken off and put back. */
  method FillAndRequeue(a: ListItem, b: ListItem) returns (list: List)
    requires a != b && a.container == null && b.container == null && a.value <= MAX_DELAY && b.value <= MAX_DELAY
    modifies a, b
    ensures fresh(list) && list.Valid() && list.items != [] && list.cursor <= |list.items|
    ensures list.View().Turn() == [b, a]
  {
    hide Circle, LinkedBut, Apart;
    list := new List();
    list.InsertEnd(a);
    assert list.items == [a];
    list.InsertEnd(b);
    assert list.items == [a, b];
    IndexOfUnique([a, b], 0);
    ListRemove(a);
    assert list.items == [b];
    list.InsertEnd(a);
  }

  lemma SortedPosAt(s: seq<nat>, v: nat, k: nat)
    requires k <= |s| && (forall i :: 0 <= i < k ==> s[i] <= v) && (k < |s| ==> v < s[k])
    ensures SortedPos(s, v) == k
  {
  }

  /** Nodes k and k + 1 of a circle are met nowhere else on it. */
  lemma ApartFrom<T>(s: seq<T>, k: nat)
    requires |s| >= 2 && s[0] == s[|s| - 1] && Apart(s, |s| - 1) && k < |s| - 1
    ensures forall i :: 0 <= i < |s| - 1 && i != k ==> s[i] != s[k]
    ensures forall i :: 1 <= i < |s| && i != k + 1 ==> s[i] != s[k + 1]
    ensures forall i :: 1 <= i < |s| - 1 && i != k ==> s[i] != s[k]
  {
    ApartIsDistinct(s, |s| - 1);
    assert forall i :: 0 <= i < |s| - 1 ==> s[i] == s[..|s| - 1][i];
  }

  lemma ApartInserted<T>(s: seq<T>, n: nat, k: nat, x: T)
    requires k <= n < |s| && Apart(s, n) && forall i :: 0 <= i < n ==> s[i] != x
    ensures Apart(InsertAt(s, k, x), n + 1)
  {
    var r := InsertAt(s, k, x);
    forall i, j | 0 <= i < j < n + 1 ensures r[i] != r[j] {
      assert Mark(if i < k then i else i - 1) && Mark(if j < k then j else j - 1);
    }
  }

  lemma ApartRemoved<T>(s: seq<T>, n: nat, k: nat)
    requires k < n < |s| && Apart(s, n)
    ensures Apart(RemoveAt(s, k), n - 1)
  {
    var r := RemoveAt(s, k);
    forall i, j | 0 <= i < j < n - 1 ensures r[i] != r[j] {
      assert Mark(if i < k then i else i + 1) && Mark(if j < k then j else j + 1);
    }
  }

  /** Linking an item in between nodes c and c + 1 closes the circle again. */
  lemma Threaded(list: List, items: seq<ListItem>, was: seq<ListItem>, nodes: set<ListItem>, c: nat, item: ListItem)
    requires Circle(list, items, was, nodes, 0) && LinkedBut(was, c, c + 1)
    requires c <= |items| && item !in nodes && item.container == list && item.value <= MAX_DELAY
    requires item.next == was[c + 1] && item.prev == was[c]
    requires was[c].next == item && was[c + 1].prev == item
    ensures var chain := InsertAt(was, c + 1, item);
            && Circle(list, InsertAt(items, c, item), chain, nodes + {item}, 0)
            && LinkedBut(chain, 0, 0)
  {
    ThreadedLinks(was, c, item);
    hide LinkedBut;
    ApartInserted(was, |was| - 1, c + 1, item);
  }

  lemma ThreadedLinks(was: seq<ListItem>, c: nat, item: ListItem)
    requires c + 1 < |was| && LinkedBut(was, c, c + 1)
    requires item.next == was[c + 1] && item.prev == was[c]
    requires was[c].next == item && was[c + 1].prev == item
    ensures LinkedBut(InsertAt(was, c + 1, item), 0, 0)
  {
  }

  /** Linking around item number p closes the circle without it. */
  lemma Unthreaded(list: List, items: seq<ListItem>, was: seq<ListItem>, nodes: set<ListItem>, p: nat)
    requires Circle(list, items, was, nodes, p + 1) && LinkedBut(was, p, p + 2) && p < |items|
    requires was[p].next == was[p + 2] && was[p + 2].prev == was[p]
    ensures var chain := RemoveAt(was, p + 1);
            && Circle(list, RemoveAt(items, p), chain, nodes - {was[p + 1]}, 0)
            && LinkedBut(chain, 0, 0)
  {
    ApartRemoved(was, |was| - 1, p + 1);
    ApartFrom(was, p + 1);
  }
}
