/**
 The order in which listGET_OWNER_OF_NEXT_ENTRY returns the items of a list, and what
 insertion and removal do to it.  A list is given by its ring (the end marker at position
 0, then the items) and the position of its index.
 */
module Rotation {
  import opened Ring

  /** The items in the order the coming calls return them; the index's own item is last. */
  function Order<T>(r: seq<T>, p: nat): seq<T>
    requires p < |r|
  {
    r[p + 1..] + r[1..p + 1]
  }

  /** What the next n calls return. */
  function Calls<T>(r: seq<T>, p: nat, n: nat): seq<T>
    requires p < |r| && |r| > 1
    decreases n
  {
    if n == 0 then [] else
      var q := NextPosition(p, |r|);
      [r[q]] + Calls(r, q, n - 1)
  }

  /** One call returns the head of the order and moves it to the back. */
  lemma CallRotates<T>(r: seq<T>, p: nat)
    requires p < |r| && |r| > 1
    ensures var q := NextPosition(p, |r|);
            r[q] == Order(r, p)[0] && Order(r, q) == Order(r, p)[1..] + [Order(r, p)[0]]
  {
    var q := NextPosition(p, |r|);
    if p + 1 < |r| {
      assert r[p + 1..] == [r[q]] + r[q + 1..];
      assert r[1..q + 1] == r[1..p + 1] + [r[q]];
    } else {
      assert r[1..] == [r[1]] + r[2..];
      assert r[p + 1..] == [] && r[1..p + 1] == r[1..];
      assert r[1..2] == [r[1]];
    }
  }

  lemma {:induction false} CallsAreOrder<T>(r: seq<T>, p: nat, n: nat)
    requires p < |r| && |r| > 1 && n <= |r| - 1
    ensures Calls(r, p, n) == Order(r, p)[..n]
    decreases n
  {
    if n > 0 {
      var q := NextPosition(p, |r|);
      CallRotates(r, p);
      CallsAreOrder(r, q, n - 1);
      assert Order(r, q)[..n - 1] == Order(r, p)[1..n];
    }
  }

  lemma OrderHoldsAll<T>(r: seq<T>, p: nat)
    requires p < |r|
    ensures multiset(Order(r, p)) == multiset(r[1..])
  {
    assert r[1..] == r[1..p + 1] + r[p + 1..];
  }

  /** As many calls as there are items return each item exactly once. */
  lemma FullRoundIsFair<T>(r: seq<T>, p: nat)
    requires p < |r| && |r| > 1
    ensures multiset(Calls(r, p, |r| - 1)) == multiset(r[1..])
  {
    CallsAreOrder(r, p, |r| - 1);
    assert Order(r, p)[..|r| - 1] == Order(r, p);
    OrderHoldsAll(r, p);
  }

  /** Ring position at which vListInsertEnd puts an item, and the index's position afterwards. */
  function EndPlace(p: nat, n: nat): nat { if p == 0 then n else p }
  function IndexAfterEnd(p: nat): nat { if p == 0 then 0 else p + 1 }

  /**
   vListInsertEnd puts the item at the very back of the order when the index is on the end
   marker, and else in front of the item the index is on.
   */
  lemma InsertEndOrder<T>(r: seq<T>, p: nat, x: T)
    requires p < |r|
    ensures var s, o := InsertAt(r, EndPlace(p, |r|), x), Order(r, p);
            Order(s, IndexAfterEnd(p)) == if p == 0 then o + [x] else InsertAt(o, |o| - 1, x)
  {
    if p == 0 {
      assert InsertAt(r, |r|, x) == r + [x];
      assert (r + [x])[1..] == r[1..] + [x];
    } else {
      InsertBeforeIndex(r, p, x);
    }
  }

  lemma InsertBeforeIndex<T>(r: seq<T>, p: nat, x: T)
    requires 1 <= p < |r|
    ensures Order(InsertAt(r, p, x), p + 1) == InsertAt(Order(r, p), |r| - 2, x)
  {
    var s, a, b := InsertAt(r, p, x), r[p + 1..], r[1..p];
    assert s[p + 2..] == a;
    assert s[1..p + 2] == b + [x] + [r[p]];
    assert r[1..p + 1] == b + [r[p]];
    assert Order(r, p) == (a + b) + [r[p]];
  }

  /**
   The comments of list.c and list.h say that the item inserted by vListInsertEnd is the last
   one the calls return.  That holds exactly when the index is on the end marker.
   */
  lemma InsertEndIsLastIff<T>(r: seq<T>, p: nat, x: T)
    requires p < |r| && x !in r
    ensures var s := Order(InsertAt(r, EndPlace(p, |r|), x), IndexAfterEnd(p));
            s[|s| - 1] == x <==> p == 0
  {
    InsertEndOrder(r, p, x);
    if p > 0 {
      var o := Order(r, p);
      assert o[|o| - 1] == r[p];
    }
  }

  /** The call that returns y counts from 1. */
  ghost predicate ReturnedAt<T>(r: seq<T>, p: nat, y: T, n: nat)
    requires p < |r|
  {
    1 <= n <= |r| - 1 && Order(r, p)[n - 1] == y
  }

  /** Inserting at the end delays an item only if the index is on it, and then by one call. */
  lemma InsertEndWait<T>(r: seq<T>, p: nat, x: T, y: T, n: nat)
    requires p < |r| && ReturnedAt(r, p, y, n)
    ensures ReturnedAt(InsertAt(r, EndPlace(p, |r|), x), IndexAfterEnd(p), y,
                       if p > 0 && n == |r| - 1 then n + 1 else n)
    ensures p > 0 ==> Order(r, p)[|r| - 2] == r[p]
  {
    InsertEndOrder(r, p, x);
  }

  /** The index's position after the item at k is removed. */
  function IndexAfterRemove(p: nat, k: nat): nat
    requires k >= 1
  {
    if k <= p then p - 1 else p
  }

  /** Place in the order of the item at ring position k. */
  function OrderPlace(n: nat, p: nat, k: nat): nat
    requires p < n && 1 <= k < n
  {
    if k > p then k - p - 1 else n - p - 1 + k - 1
  }

  /** Removal takes the item out of the order and leaves the rest of the order as it was. */
  lemma RemoveOrder<T>(r: seq<T>, p: nat, k: nat)
    requires p < |r| && 1 <= k < |r|
    ensures Order(r, p)[OrderPlace(|r|, p, k)] == r[k]
    ensures Order(RemoveAt(r, k), IndexAfterRemove(p, k)) == RemoveAt(Order(r, p), OrderPlace(|r|, p, k))
  {
    if k > p {
      RemoveAhead(r, p, k);
    } else {
      RemoveBehind(r, p, k);
    }
  }

  lemma RemoveAhead<T>(r: seq<T>, p: nat, k: nat)
    requires p < k < |r|
    ensures Order(r, p)[k - p - 1] == r[k]
    ensures Order(RemoveAt(r, k), p) == RemoveAt(Order(r, p), k - p - 1)
  {
    var s, a, b, c := RemoveAt(r, k), r[p + 1..k], r[k + 1..], r[1..p + 1];
    assert s[p + 1..] == a + b && s[1..p + 1] == c;
    assert r[p + 1..] == a + [r[k]] + b;
    assert Order(r, p) == a + [r[k]] + (b + c);
  }

  lemma RemoveBehind<T>(r: seq<T>, p: nat, k: nat)
    requires 1 <= k <= p < |r|
    ensures Order(r, p)[|r| - p - 1 + k - 1] == r[k]
    ensures Order(RemoveAt(r, k), p - 1) == RemoveAt(Order(r, p), |r| - p - 1 + k - 1)
  {
    var s, a, b, c := RemoveAt(r, k), r[p + 1..], r[1..k], r[k + 1..p + 1];
    assert s[p..] == a && s[1..p] == b + c;
    assert r[1..p + 1] == b + [r[k]] + c;
    assert Order(r, p) == (a + b) + [r[k]] + c;
  }

  lemma OrderLength<T>(r: seq<T>, p: nat)
    requires p < |r|
    ensures |Order(r, p)| == |r| - 1
  {
  }

  /** So no removal makes another item wait longer. */
  lemma RemoveWait<T>(r: seq<T>, p: nat, k: nat, y: T, n: nat)
    requires p < |r| && 1 <= k < |r| && ReturnedAt(r, p, y, n) && y != r[k]
    ensures exists m: nat :: m <= n && ReturnedAt(RemoveAt(r, k), IndexAfterRemove(p, k), y, m)
  {
    hide Order;
    var s, q := RemoveAt(r, k), IndexAfterRemove(p, k);
    OrderLength(r, p);
    OrderLength(s, q);
    RemoveOrder(r, p, k);
    var o := OrderPlace(|r|, p, k);
    var m: nat := if n - 1 < o then n else n - 1;
    assert Order(s, q)[m - 1] == y;
    assert ReturnedAt(s, q, y, m);
  }

  /** Removing an item just inserted restores ring and index, wherever it went in. */
  lemma InsertThenRemove<T>(r: seq<T>, k: nat, x: T)
    requires 1 <= k <= |r|
    ensures RemoveAt(InsertAt(r, k, x), k) == r
  {
  }

  /** The ring fixes every link, so restoring the ring restores the links. */
  lemma LinksOf(r: seq<Node>)
    requires Circular(r)
    ensures forall i {:trigger r[i].pxNext} {:trigger r[i].pxPrevious} | 0 <= i < |r| ::
              r[i].pxNext == Succ(r, i) && r[i].pxPrevious == Pred(r, i)
  {
  }

  /** A round of calls on the list itself: each item once, in the order promised. */
  method FullRound(list: LinkedList) returns (entries: seq<Node>)
    requires list.Valid() && |list.ring| > 1
    modifies list`pxIndex
    ensures list.Valid()
    ensures entries == old(Order(list.ring, list.IndexPosition()))
  {
    hide Distinct, Circular;
    entries := [];
    ghost var r, p := list.ring, list.IndexPosition();
    ghost var q: nat := p;
    var n := list.uxNumberOfItems;
    for i := 0 to n
      invariant list.Valid() && list.ring == r && q < |r| && r[q] == list.pxIndex
      invariant entries + Calls(r, q, n - i) == Calls(r, p, n)
    {
      IndexIs(list, q);
      var e := list.NextEntry();
      entries := entries + [e];
      q := NextPosition(q, |r|);
    }
    CallsAreOrder(r, p, n);
    assert Order(r, p)[..n] == Order(r, p);
  }

  lemma IndexIs(list: LinkedList, q: nat)
    requires list.Valid() && q < |list.ring| && list.ring[q] == list.pxIndex
    ensures list.IndexPosition() == q
  {
  }

  /** vListInsertEnd on the list itself: what it does to the coming calls. */
  method InsertEndRotates(list: LinkedList, n: Node)
    requires list.Valid() && n !in list.ring
    modifies list`uxNumberOfItems, list`ring, list.ring`pxNext, list.ring`pxPrevious
    modifies n`pxNext, n`pxPrevious, n`pxContainer
    ensures list.Valid()
    ensures var o := old(Order(list.ring, list.IndexPosition()));
            Order(list.ring, list.IndexPosition()) ==
            if old(list.pxIndex) == list.xListEnd then o + [n] else InsertAt(o, |o| - 1, n)
  {
    hide Circular, Order;
    ghost var r, p := list.ring, list.IndexPosition();
    ghost var o := Order(r, p);
    OrderLength(r, p);
    assert list.pxIndex == list.xListEnd <==> p == 0 by {
      if p != 0 {
        assert r[p] != r[0];
      }
    }
    list.InsertEnd(n);
    assert list.ring[IndexAfterEnd(p)] == list.pxIndex;
    IndexIs(list, IndexAfterEnd(p));
    InsertEndOrder(r, p, n);
  }

  /**
   A run in which the promise fails: a is inserted at the end and returned, then b is inserted
   at the end; the next calls return b first, and a last.
   */
  method LastIsFirst(a: Node, b: Node) returns (first: Node, round: seq<Node>)
    requires a != b
    modifies a`pxNext, a`pxPrevious, a`pxContainer, b`pxNext, b`pxPrevious, b`pxContainer
    ensures first == a && round == [b, a]
  {
    hide *;
    var list := new LinkedList();
    Items(list);
    InsertEndRotates(list, a);
    Items(list);
    ghost var r, p := list.ring, list.IndexPosition();
    OneCall(r, p);
    first := list.NextEntry();
    Items(list);
    IndexIs(list, NextPosition(p, |r|));
    assert list.IndexPosition() == 1 && Order(list.ring, 1) == [a];
    BeforeLast(a, b);
    InsertEndRotates(list, b);
    Items(list);
    round := FullRound(list);
  }

  /** What is known of the items of a list. */
  lemma Items(list: LinkedList)
    requires list.Valid()
    ensures |list.ring| == list.uxNumberOfItems + 1 && list.pxIndex in list.ring && list.IndexPosition() < |list.ring|
    ensures list.pxIndex == list.xListEnd <==> list.IndexPosition() == 0
    ensures var o := Order(list.ring, list.IndexPosition());
            |o| == |list.ring| - 1 && forall n | n in list.ring :: n == list.xListEnd || n in o
  {
    assert list.ring[0] == list.xListEnd;
  }

  /** The call that returns the only item leaves the order as it was. */
  lemma OneCall(r: seq<Node>, p: nat)
    requires |r| == 2 && p < |r|
    ensures NextPosition(p, |r|) == 1 && r[1] == Order(r, p)[0] == Order(r, 1)[0] && |Order(r, 1)| == 1
  {
  }

  lemma BeforeLast(a: Node, b: Node)
    ensures InsertAt([a], 0, b) == [b, a] && [] + [a] == [a]
  {
  }

  /** uxListRemove on the list itself: the rest of the order is untouched. */
  method RemoveRotates(list: LinkedList, item: Node) returns (ghost k: nat)
    requires list.Valid() && item in list.ring && item.pxContainer == list
    modifies list`uxNumberOfItems, list`pxIndex, list`ring, list.ring`pxNext, list.ring`pxPrevious, item`pxContainer
    ensures list.Valid()
    ensures var o := old(Order(list.ring, list.IndexPosition()));
            k < |o| && o[k] == item && Order(list.ring, list.IndexPosition()) == RemoveAt(o, k)
  {
    hide Circular, Order;
    ghost var r, p := list.ring, list.IndexPosition();
    OrderLength(r, p);
    var left, at := list.Unlink(item);
    assert list.ring[IndexAfterRemove(p, at)] == list.pxIndex;
    IndexIs(list, IndexAfterRemove(p, at));
    RemoveOrder(r, p, at);
    k := OrderPlace(|r|, p, at);
  }

  /** vListInsertEnd followed by uxListRemove of the same item leaves every link and the index as they were. */
  method InsertEndThenRemove(list: LinkedList, n: Node)
    requires list.Valid() && n !in list.ring
    modifies list`uxNumberOfItems, list`ring, list`pxIndex, list.ring`pxNext, list.ring`pxPrevious
    modifies n`pxNext, n`pxPrevious, n`pxContainer
    ensures list.Valid() && list.ring == old(list.ring) && list.pxIndex == old(list.pxIndex)
    ensures forall i | 0 <= i < |list.ring| ::
              && list.ring[i].pxNext == old(list.ring[i].pxNext)
              && list.ring[i].pxPrevious == old(list.ring[i].pxPrevious)
  {
    hide Distinct, Circular;
    ghost var r := list.ring;
    LinksOf(r);
    list.InsertEnd(n);
    var left, k := list.Unlink(n);
    InsertedIndex(r, old(list.EndPosition()), n, k);
    InsertThenRemove(r, k, n);
    LinksOf(r);
  }

  /** So does vListInsert, wherever the item went in. */
  method InsertThenRemoveSorted(list: LinkedList, n: Node)
    requires list.Valid() && n !in list.ring
    modifies list`uxNumberOfItems, list`ring, list`pxIndex, list.ring`pxNext, list.ring`pxPrevious
    modifies n`pxNext, n`pxPrevious, n`pxContainer
    ensures list.Valid() && list.ring == old(list.ring) && list.pxIndex == old(list.pxIndex)
    ensures forall i | 0 <= i < |list.ring| ::
              && list.ring[i].pxNext == old(list.ring[i].pxNext)
              && list.ring[i].pxPrevious == old(list.ring[i].pxPrevious)
  {
    hide Distinct, Circular;
    ghost var r := list.ring;
    LinksOf(r);
    var at := list.Insert(n);
    var left, k := list.Unlink(n);
    InsertedIndex(r, at, n, k);
    InsertThenRemove(r, k, n);
    LinksOf(r);
  }

  lemma InsertedElsewhere<T>(r: seq<T>, e: nat, x: T, k: nat)
    requires e <= |r| && k <= |r| && k != e
    ensures InsertAt(r, e, x)[k] in r
  {
    assert InsertAt(r, e, x)[k] == r[if k < e then k else k - 1];
  }

  lemma InsertedIndex<T>(r: seq<T>, e: nat, x: T, k: nat)
    requires 1 <= e <= |r| && x !in r && k <= |r| && InsertAt(r, e, x)[k] == x
    ensures k == e
  {
    if k != e {
      InsertedElsewhere(r, e, x, k);
    }
  }
}
