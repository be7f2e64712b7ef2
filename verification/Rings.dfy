/** The value view of a FreeRTOS list: which items it links, in link order, and where its
    walking cursor stands.  The pointer list in module Lists is proved to refine it; the
    scheduler uses it directly. */
module Rings {

  ghost predicate Distinct<T>(s: seq<T>) {
    forall i, j :: 0 <= i < j < |s| ==> s[i] != s[j]
  }

  ghost predicate Mark(i: int) { true }

  /** The first n of s are distinct, said so that the verifier compares only positions that a
      proof marks. */
  ghost predicate Apart<T>(s: seq<T>, n: nat)
    requires n <= |s|
  {
    forall i, j {:trigger Mark(i), Mark(j)} :: 0 <= i < j < n && Mark(i) && Mark(j) ==> s[i] != s[j]
  }

  lemma ApartIsDistinct<T>(s: seq<T>, n: nat)
    requires n <= |s|
    ensures Apart(s, n) <==> Distinct(s[..n])
  {
    if Apart(s, n) {
      forall i, j | 0 <= i < j < n ensures s[..n][i] != s[..n][j] {
        assert Mark(i) && Mark(j);
      }
    }
  }

  lemma AllApart<T>(s: seq<T>)
    ensures Apart(s, |s|) <==> Distinct(s)
  {
    ApartIsDistinct(s, |s|);
    assert s[..|s|] == s;
  }

  ghost predicate Sorted(s: seq<nat>) {
    forall i, j :: 0 <= i < j < |s| ==> s[i] <= s[j]
  }

  /** Where x first stands in s. */
  function IndexOf<T(==)>(s: seq<T>, x: T): (p: nat)
    requires x in s
    ensures p < |s| && s[p] == x && forall i :: 0 <= i < p ==> s[i] != x
  {
    FirstExists(s, x);
    var p: nat :| p < |s| && s[p] == x && forall i :: 0 <= i < p ==> s[i] != x;
    p
  }

  lemma FirstExists<T>(s: seq<T>, x: T)
    requires x in s
    ensures exists p: nat :: p < |s| && s[p] == x && forall i :: 0 <= i < p ==> s[i] != x
  {
    var p: nat :| p < |s| && s[p] == x;
    while exists i :: 0 <= i < p && s[i] == x
      invariant p < |s| && s[p] == x
      decreases p
    {
      p := var i :| 0 <= i < p && s[i] == x; i;
    }
  }

  function RemoveAt<T>(s: seq<T>, p: nat): seq<T>
    requires p < |s|
  {
    seq(|s| - 1, i requires 0 <= i < |s| - 1 => if i < p then s[i] else s[i + 1])
  }

  function Without<T(==)>(s: seq<T>, x: T): seq<T>
    requires x in s
  {
    RemoveAt(s, IndexOf(s, x))
  }

  function InsertAt<T>(s: seq<T>, k: nat, x: T): seq<T>
    requires k <= |s|
  {
    seq(|s| + 1, i requires 0 <= i <= |s| => if i < k then s[i] else if i == k then x else s[i - 1])
  }

  /** Where sorted insertion puts the value v: behind everything up to the first larger value. */
  function SortedPos(s: seq<nat>, v: nat): (p: nat)
    ensures p <= |s|
    ensures forall i :: 0 <= i < p ==> s[i] <= v
    ensures p < |s| ==> v < s[p]
  {
    if s == [] || v < s[0] then 0 else 1 + SortedPos(s[1..], v)
  }

  /** `cursor` is 0 when the list's index rests on the end marker and k when it rests on
      items[k-1]. */
  datatype Ring<T(==)> = Ring(items: seq<T>, cursor: nat) {

    ghost predicate Valid() {
      cursor <= |items| && Apart(items, |items|)
    }

    /** The items in the order the cursor will meet them. */
    function Turn(): seq<T>
      requires cursor <= |items|
    {
      items[cursor..] + items[..cursor]
    }

    function InsertEnd(x: T): Ring<T>
      requires cursor <= |items|
    {
      Ring(InsertAt(items, cursor, x), cursor + 1)
    }

    function Insert(k: nat, x: T): Ring<T>
      requires k <= |items|
    {
      Ring(InsertAt(items, k, x), if k < cursor then cursor + 1 else cursor)
    }

    function Remove(x: T): Ring<T>
      requires x in items
    {
      Ring(Without(items, x), if IndexOf(items, x) < cursor then cursor - 1 else cursor)
    }

    function Next(): Ring<T>
      requires items != [] && cursor <= |items|
    {
      Ring(items, if cursor == |items| then 1 else cursor + 1)
    }

    /** The item the cursor rests on. */
    function Here(): T
      requires 0 < cursor <= |items|
    {
      items[cursor - 1]
    }
  }

  lemma IndexOfUnique<T>(s: seq<T>, p: nat)
    requires p < |s| && Distinct(s)
    ensures IndexOf(s, s[p]) == p
  {
    var q := IndexOf(s, s[p]);
    assert forall i :: 0 <= i < q ==> s[..q][i] == s[i];
  }

  lemma WithoutMembers<T>(s: seq<T>, x: T)
    requires x in s && Apart(s, |s|)
    ensures Apart(Without(s, x), |s| - 1)
    ensures forall y :: y in Without(s, x) <==> y in s && y != x
  {
    AllApart(s);
    AllApart(Without(s, x));
    var p := IndexOf(s, x);
    forall y | y in s && y != x ensures y in Without(s, x) {
      var i := IndexOf(s, y);
      assert Without(s, x)[if i < p then i else i - 1] == y;
    }
  }

  lemma InsertAtMembers<T>(s: seq<T>, k: nat, x: T)
    requires k <= |s| && Apart(s, |s|) && x !in s
    ensures Apart(InsertAt(s, k, x), |s| + 1)
    ensures forall y :: y in InsertAt(s, k, x) <==> y in s || y == x
  {
    AllApart(s);
    AllApart(InsertAt(s, k, x));
    assert InsertAt(s, k, x)[k] == x;
    forall y | y in s ensures y in InsertAt(s, k, x) {
      var i := IndexOf(s, y);
      assert InsertAt(s, k, x)[if i < k then i else i + 1] == y;
    }
  }

  /** vListInsertEnd puts the new item last in turn. */
  lemma InsertEndAppends<T>(r: Ring<T>, x: T)
    requires r.cursor <= |r.items|
    ensures r.InsertEnd(x).Turn() == r.Turn() + [x]
  {
    var c := r.cursor;
    var s := InsertAt(r.items, c, x);
    assert s[c + 1..] == r.items[c..] && s[..c + 1] == r.items[..c] + [x];
  }

  lemma TurnWithoutAt<T>(s: seq<T>, c: nat, p: nat)
    requires p < |s| && c <= |s|
    ensures var t := s[c..] + s[..c];
            var q := if p < c then |s| - c + p else p - c;
            var c' := if p < c then c - 1 else c;
            && t[q] == s[p]
            && RemoveAt(s, p)[c'..] + RemoveAt(s, p)[..c'] == RemoveAt(t, q)
  {
    var r := RemoveAt(s, p);
    if p < c {
      assert r[c - 1..] == s[c..];
      assert r[..c - 1] == s[..p] + s[p + 1..c];
    } else {
      assert r[c..] == s[c..p] + s[p + 1..];
      assert r[..c] == s[..c];
    }
  }

  lemma TurnDistinct<T>(r: Ring<T>)
    requires r.Valid()
    ensures Distinct(r.Turn())
  {
    AllApart(r.items);
  }

  /** vListRemove takes the item out of turn and disturbs nothing else, even when the cursor
      rests on it. */
  lemma RemoveDeletes<T>(r: Ring<T>, x: T)
    requires r.Valid() && x in r.items
    ensures r.Remove(x).cursor <= |r.Remove(x).items|
    ensures x in r.Turn() && r.Remove(x).Turn() == Without(r.Turn(), x)
  {
    var p := IndexOf(r.items, x);
    TurnWithoutAt(r.items, r.cursor, p);
    TurnDistinct(r);
    IndexOfUnique(r.Turn(), if p < r.cursor then |r.items| - r.cursor + p else p - r.cursor);
  }

  /** One step of the walk serves the first in turn and sends it to the back. */
  lemma NextRotates<T>(r: Ring<T>)
    requires r.items != [] && r.cursor <= |r.items|
    ensures r.Next().cursor <= |r.items| && r.Next().Here() == r.Turn()[0]
    ensures r.Next().Turn() == r.Turn()[1..] + [r.Turn()[0]]
  {
    if r.cursor == |r.items| {
      assert r.Turn() == r.items;
    }
  }

  /** The owners served by n successive steps of the walk. */
  function Walk<T>(r: Ring<T>, n: nat): seq<T>
    requires r.items != [] && r.cursor <= |r.items|
    decreases n
  {
    if n == 0 then [] else [r.Next().Here()] + Walk(r.Next(), n - 1)
  }

  lemma {:induction false} WalkFollowsTurn<T>(r: Ring<T>, n: nat)
    requires r.items != [] && r.cursor <= |r.items| && n <= |r.items|
    ensures Walk(r, n) == r.Turn()[..n]
    decreases n
  {
    if n > 0 {
      NextRotates(r);
      WalkFollowsTurn(r.Next(), n - 1);
      var t := r.Turn();
      assert (t[1..] + [t[0]])[..n - 1] == t[1..n];
    }
  }

  /** As many steps as there are items serve every item exactly once. */
  lemma WalkServesEachOnce<T>(r: Ring<T>)
    requires r.items != [] && r.cursor <= |r.items|
    ensures Walk(r, |r.items|) == r.Turn()
    ensures multiset(Walk(r, |r.items|)) == multiset(r.items)
  {
    hide Walk;
    WalkFollowsTurn(r, |r.items|);
    assert r.Turn()[..|r.items|] == r.Turn();
    assert r.items == r.items[..r.cursor] + r.items[r.cursor..];
  }

  /** Sorted insertion keeps a sorted list sorted and is stable: v goes behind every equal
      value. */
  lemma SortedInsertSorts(s: seq<nat>, v: nat)
    requires Sorted(s)
    ensures Sorted(InsertAt(s, SortedPos(s, v), v))
    ensures forall i :: 0 <= i < |s| ==> (s[i] <= v <==> i < SortedPos(s, v))
  {
  }

  lemma WithoutSorted(s: seq<nat>, p: nat)
    requires Sorted(s) && p < |s|
    ensures Sorted(RemoveAt(s, p))
  {
  }

  /** Inserting an item and removing it again changes nothing. */
  lemma InsertThenRemove<T>(r: Ring<T>, k: nat, x: T)
    requires r.Valid() && k <= |r.items| && x !in r.items
    ensures x in r.Insert(k, x).items && r.Insert(k, x).Remove(x) == r
  {
    var s := InsertAt(r.items, k, x);
    InsertAtMembers(r.items, k, x);
    AllApart(s);
    assert s[k] == x;
    IndexOfUnique(s, k);
    assert RemoveAt(s, k) == r.items;
  }

  /** Removing an item and inserting it at the end sends it to the back; doing so once more changes
      nothing. */
  lemma RemoveThenInsertEnd<T>(r: Ring<T>, x: T)
    requires r.Valid() && x in r.items
    ensures r.Remove(x).cursor <= |r.Remove(x).items| && x in r.Turn()
    ensures r.Remove(x).InsertEnd(x).Turn() == Without(r.Turn(), x) + [x]
  {
    RemoveDeletes(r, x);
    InsertEndAppends(r.Remove(x), x);
  }

  lemma SentToBackTwice<T>(t: seq<T>, x: T)
    requires Distinct(t) && x in t
    ensures Distinct(Without(t, x) + [x])
    ensures Without(Without(t, x) + [x], x) + [x] == Without(t, x) + [x]
  {
    var u := Without(t, x);
    AllApart(t);
    WithoutMembers(t, x);
    AllApart(u);
    IndexOfUnique(u + [x], |u|);
    assert RemoveAt(u + [x], |u|) == u;
  }
}
