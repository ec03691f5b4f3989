/**
 The FreeRTOS list of list.c and list.h: a circular doubly linked list of nodes around an
 end marker, walked by an index.
 */
module Ring {

  /** portMAX_DELAY: the end marker's value, the largest a TickType holds. */
  const MAX_DELAY := 0xFFFF_FFFF

  type TickType = x: int | 0 <= x <= 0xFFFF_FFFF

  class Node {
    var xItemValue: TickType
    var pxNext: Node?
    var pxPrevious: Node?
    var pvOwner: object?
    var pxContainer: LinkedList?

    /** vListInitialiseItem, with the value and the owner set as listSET_LIST_ITEM_VALUE and _OWNER do. */
    constructor (value: TickType, owner: object?)
      ensures xItemValue == value && pvOwner == owner && pxContainer == null
    {
      xItemValue, pvOwner := value, owner;
      pxNext, pxPrevious, pxContainer := null, null, null;
    }
  }

  /** No node occurs twice. */
  ghost predicate Distinct(s: seq<Node>) {
    forall i, j | 0 <= i < j < |s| :: s[i] != s[j]
  }

  function Succ(r: seq<Node>, i: nat): Node
    requires i < |r|
  {
    if i + 1 < |r| then r[i + 1] else r[0]
  }

  function Pred(r: seq<Node>, i: nat): Node
    requires i < |r|
  {
    if i > 0 then r[i - 1] else r[|r| - 1]
  }

  /** All links of the ring are in place but for the pxNext of node kn and the pxPrevious of node kp. */
  ghost predicate LinkedExcept(r: seq<Node>, kn: int, kp: int)
    reads r`pxNext, r`pxPrevious
  {
    && (forall i {:trigger r[i].pxNext} | 0 <= i < |r| && i != kn :: r[i].pxNext == Succ(r, i))
    && (forall i {:trigger r[i].pxPrevious} | 0 <= i < |r| && i != kp :: r[i].pxPrevious == Pred(r, i))
  }

  /** Following pxNext from any node goes round the ring once; pxPrevious goes back. */
  ghost predicate Circular(r: seq<Node>)
    reads r`pxNext, r`pxPrevious
  {
    Distinct(r) && LinkedExcept(r, -1, -1)
  }

  /** The ring with n inserted in front of index k; k may be its length, in front of node 0. */
  function InsertAt<T>(r: seq<T>, k: nat, n: T): seq<T>
    requires k <= |r|
  {
    r[..k] + [n] + r[k..]
  }

  function RemoveAt<T>(r: seq<T>, k: nat): seq<T>
    requires k < |r|
  {
    r[..k] + r[k + 1..]
  }

  lemma OnlyAt(r: seq<Node>, k: nat)
    requires Distinct(r) && k < |r|
    ensures forall j | 0 <= j < |r| && j != k :: r[j] != r[k]
  {
  }

  lemma InsertDistinct(r: seq<Node>, k: nat, n: Node)
    requires Distinct(r) && k <= |r| && n !in r
    ensures Distinct(InsertAt(r, k, n))
  {
  }

  lemma RemoveDistinct(r: seq<Node>, k: nat)
    requires Distinct(r) && k < |r|
    ensures Distinct(RemoveAt(r, k)) && r[k] !in RemoveAt(r, k)
  {
  }

  ghost function ContainersOf(all: set<Node>): map<Node, LinkedList?>
    reads all`pxContainer
  {
    map x | x in all :: x.pxContainer
  }

  /** Of these containers exactly those of the items on the ring are the list. */
  ghost predicate NameIn(containers: map<Node, LinkedList?>, r: seq<Node>, list: LinkedList) {
    r != [] && forall x | x in containers :: containers[x] == list <==> x in r && x != r[0]
  }

  lemma NameInserted(containers: map<Node, LinkedList?>, r: seq<Node>, list: LinkedList, k: nat, n: Node)
    requires NameIn(containers, r, list) && 1 <= k <= |r| && n !in r
    ensures NameIn(containers[n := list], InsertAt(r, k, n), list)
  {
    InsertMembers(r, k, n);
  }

  lemma NameRemoved(containers: map<Node, LinkedList?>, r: seq<Node>, list: LinkedList, k: nat)
    requires NameIn(containers, r, list) && Distinct(r) && 1 <= k < |r|
    ensures NameIn(containers[r[k] := null], RemoveAt(r, k), list)
  {
    RemoveMembers(r, k);
  }

  lemma InsertMembers(r: seq<Node>, k: nat, n: Node)
    requires k <= |r|
    ensures forall x {:trigger x in r} {:trigger x in InsertAt(r, k, n)} :: x in InsertAt(r, k, n) <==> x in r || x == n
  {
    assert r == r[..k] + r[k..];
  }

  lemma RemoveMembers(r: seq<Node>, k: nat)
    requires Distinct(r) && k < |r|
    ensures forall x {:trigger x in r} {:trigger x in RemoveAt(r, k)} :: x in RemoveAt(r, k) <==> x in r && x != r[k]
  {
    RemoveDistinct(r, k);
    assert r == r[..k] + [r[k]] + r[k + 1..];
  }

  /** Ring index of what follows position k - 1, as k runs up to the length. */
  function Wrap(k: nat, n: nat): nat
  {
    if k < n then k else 0
  }

  /** A new node wired in between two neighbours makes the longer ring. */
  lemma Spliced(r: seq<Node>, k: nat, n: Node)
    requires Distinct(r) && 1 <= k <= |r| && n !in r
    requires LinkedExcept(r, k - 1, Wrap(k, |r|))
    requires r[k - 1].pxNext == n && n.pxPrevious == r[k - 1]
    requires n.pxNext == r[Wrap(k, |r|)] && r[Wrap(k, |r|)].pxPrevious == n
    ensures Circular(InsertAt(r, k, n))
  {
    var s := InsertAt(r, k, n);
    InsertDistinct(r, k, n);
    forall i | 0 <= i < |s| ensures s[i].pxNext == Succ(s, i) && s[i].pxPrevious == Pred(s, i) {
      if i != k {
        var j := if i < k then i else i - 1;
        assert s[i] == r[j];
        assert j != k - 1 ==> r[j].pxNext == Succ(r, j);
        assert j != Wrap(k, |r|) ==> r[j].pxPrevious == Pred(r, j);
      }
    }
  }

  /** A node bypassed by its neighbours is off the ring. */
  lemma Unspliced(r: seq<Node>, k: nat)
    requires Distinct(r) && 1 <= k < |r|
    requires LinkedExcept(r, k - 1, Wrap(k + 1, |r|))
    requires r[k - 1].pxNext == r[Wrap(k + 1, |r|)] && r[Wrap(k + 1, |r|)].pxPrevious == r[k - 1]
    ensures Circular(RemoveAt(r, k))
  {
    var s := RemoveAt(r, k);
    RemoveDistinct(r, k);
    forall i | 0 <= i < |s| ensures s[i].pxNext == Succ(s, i) && s[i].pxPrevious == Pred(s, i) {
      var j := if i < k then i else i + 1;
      assert s[i] == r[j];
      assert j != k - 1 ==> r[j].pxNext == Succ(r, j);
      assert j != Wrap(k + 1, |r|) ==> r[j].pxPrevious == Pred(r, j);
    }
  }

  ghost function Values(r: seq<Node>): (vs: seq<int>)
    reads r
    ensures |vs| == |r| && forall i {:trigger vs[i]} {:trigger r[i].xItemValue} | 0 <= i < |r| :: vs[i] == r[i].xItemValue
  {
    seq(|r|, i requires 0 <= i < |r| reads r => r[i].xItemValue)
  }

  /** Where a value goes in: behind the end marker at 0, in front of the first larger value. */
  ghost predicate IsPlace(vs: seq<int>, k: nat, v: int) {
    && 1 <= k <= |vs|
    && (forall j | 1 <= j < k :: vs[j] <= v)
    && (k < |vs| ==> v < vs[k])
  }

  /** The items' values, not counting the end marker's at 0, never fall. */
  ghost predicate SortedItems(vs: seq<int>) {
    forall i, j | 1 <= i < j < |vs| :: vs[i] <= vs[j]
  }

  /** On a sorted list the place is behind every item of equal value, and the list stays sorted. */
  lemma SortedInsert(vs: seq<int>, k: nat, v: int)
    requires SortedItems(vs) && IsPlace(vs, k, v)
    ensures SortedItems(InsertAt(vs, k, v))
    ensures forall j | 1 <= j < |vs| :: j < k <==> vs[j] <= v
  {
    var ws := InsertAt(vs, k, v);
    forall i, j | 1 <= i < j < |ws| ensures ws[i] <= ws[j] {
      assert i != k ==> ws[i] == vs[if i < k then i else i - 1];
      assert j != k ==> ws[j] == vs[if j < k then j else j - 1];
      if i == k {
        assert vs[k] <= vs[j - 1];
      }
    }
  }

  class LinkedList {
    var uxNumberOfItems: nat
    var pxIndex: Node
    const xListEnd: Node
    /** The end marker, then the items in the order of pxNext. */
    ghost var ring: seq<Node>

    ghost predicate Valid()
      reads this, ring
    {
      && |ring| == uxNumberOfItems + 1
      && ring[0] == xListEnd && ring[0].xItemValue == MAX_DELAY
      && Circular(ring)
      && pxIndex in ring
      && (forall k {:trigger ring[k].pxContainer} | 1 <= k < |ring| :: ring[k].pxContainer == this)
      && ring[0].pxContainer == null
    }

    /** Of these nodes exactly the items of the list name it as their container. */
    ghost predicate Names(all: set<Node>)
      reads this`ring, all`pxContainer
    {
      NameIn(ContainersOf(all), ring, this)
    }

    /** vListInitialise; `all` may be any nodes there are already. */
    constructor (ghost all: set<Node> := {})
      ensures Valid() && |ring| == 1 && pxIndex == xListEnd
      ensures fresh(xListEnd) && Names(all)
    {
      var end := new Node(MAX_DELAY, null);
      xListEnd := end;
      pxIndex := end;
      uxNumberOfItems := 0;
      ring := [end];
      new;
      xListEnd.pxNext := xListEnd;
      xListEnd.pxPrevious := xListEnd;
    }

    /** Where the index stands on the ring. */
    ghost function IndexPosition(): (k: nat)
      requires pxIndex in ring
      reads this
      ensures k < |ring| && ring[k] == pxIndex
    {
      var k :| 0 <= k < |ring| && ring[k] == pxIndex;
      k
    }

    /** Where vListInsertEnd puts a node: just behind the index, seen against the direction of pxNext. */
    ghost function EndPosition(): (k: nat)
      requires pxIndex in ring
      reads this
      ensures 1 <= k <= |ring|
    {
      if IndexPosition() == 0 then |ring| else IndexPosition()
    }

    /** The links that vListInsertEnd sets: the node goes between the index and what precedes it. */
    method WireAtIndex(n: Node, ghost k: nat)
      requires Circular(ring) && n !in ring && 1 <= k <= |ring| && ring[Wrap(k, |ring|)] == pxIndex
      modifies ring`pxNext, ring`pxPrevious, n`pxNext, n`pxPrevious
      ensures Circular(InsertAt(ring, k, n))
    {
      hide Distinct;
      OnlyAt(ring, k - 1);
      OnlyAt(ring, Wrap(k, |ring|));
      n.pxNext := pxIndex;
      n.pxPrevious := pxIndex.pxPrevious;
      pxIndex.pxPrevious.pxNext := n;
      pxIndex.pxPrevious := n;
      Spliced(ring, k, n);
    }

    /** vListInsertEnd */
    method InsertEnd(n: Node, ghost all: set<Node> := {})
      requires Valid() && n !in ring && Names(all)
      modifies this`uxNumberOfItems, this`ring, ring`pxNext, ring`pxPrevious, n`pxNext, n`pxPrevious, n`pxContainer
      ensures Valid() && ring == old(InsertAt(ring, EndPosition(), n))
      ensures pxIndex == old(pxIndex) && Names(all + {n})
    {
      hide Distinct, NameIn, LinkedExcept;
      ghost var r, k := ring, EndPosition();
      NameInserted(ContainersOf(all), r, this, k, n);
      ghost var names := ContainersOf(all)[n := this];
      InsertMembers(r, k, n);
      WireAtIndex(n, k);
      n.pxContainer := this;
      uxNumberOfItems := uxNumberOfItems + 1;
      ring := InsertAt(r, k, n);
      assert ContainersOf(all + {n}) == names;
    }

    /**
     The first half of vListInsert: the node behind which a value goes.  The branch for the
     largest value meets the same contract as the loop, which would not end for that value.
     */
    method FindPlace(value: TickType) returns (pxIterator: Node, ghost k: nat)
      requires Valid()
      ensures 1 <= k <= |ring| && ring[k - 1] == pxIterator && IsPlace(Values(ring), k, value)
    {
      if value == MAX_DELAY {
        return xListEnd.pxPrevious, |ring|;
      }
      pxIterator, k := xListEnd, 1;
      while pxIterator.pxNext.xItemValue <= value
        invariant 1 <= k <= |ring| && pxIterator == ring[k - 1]
        invariant pxIterator.pxNext == if k < |ring| then ring[k] else ring[0]
        invariant forall j | 1 <= j < k :: Values(ring)[j] <= value
        decreases |ring| - k
      {
        assert k < |ring|;
        pxIterator := pxIterator.pxNext;
        k := k + 1;
      }
    }

    /** vListInsert: in front of the first item with a larger value. */
    method Insert(n: Node, ghost all: set<Node> := {}) returns (ghost k: nat)
      requires Valid() && n !in ring && Names(all)
      modifies this`uxNumberOfItems, this`ring, ring`pxNext, ring`pxPrevious, n`pxNext, n`pxPrevious, n`pxContainer
      ensures Valid() && pxIndex == old(pxIndex) && Names(all + {n})
      ensures 1 <= k <= |old(ring)| && ring == InsertAt(old(ring), k, n)
      ensures IsPlace(old(Values(ring)), k, n.xItemValue)
      ensures Values(ring) == InsertAt(old(Values(ring)), k, n.xItemValue)
    {
      hide Names, IsPlace, Circular;
      ghost var r := ring;
      var pxIterator;
      pxIterator, k := FindPlace(n.xItemValue);
      Splice(n, pxIterator, k, all);
    }

    /** The tail of vListInsert: the node goes behind the iterator. */
    method Splice(n: Node, pxIterator: Node, ghost k: nat, ghost all: set<Node>)
      requires Valid() && n !in ring && Names(all)
      requires 1 <= k <= |ring| && ring[k - 1] == pxIterator
      modifies this`uxNumberOfItems, this`ring, ring`pxNext, ring`pxPrevious, n`pxNext, n`pxPrevious, n`pxContainer
      ensures Valid() && pxIndex == old(pxIndex) && Names(all + {n})
      ensures ring == InsertAt(old(ring), k, n)
    {
      hide Distinct, NameIn;
      NameInserted(ContainersOf(all), ring, this, k, n);
      ghost var names := ContainersOf(all)[n := this];
      ghost var r := ring;
      OnlyAt(r, k - 1);
      OnlyAt(r, Wrap(k, |r|));
      n.pxNext := pxIterator.pxNext;
      n.pxNext.pxPrevious := n;
      n.pxPrevious := pxIterator;
      pxIterator.pxNext := n;
      n.pxContainer := this;
      uxNumberOfItems := uxNumberOfItems + 1;
      ring := InsertAt(r, k, n);
      Spliced(r, k, n);
      assert ContainersOf(all + {n}) == names;
    }

    /** Position of a node of the ring. */
    lemma PositionOf(n: Node) returns (k: nat)
      requires n in ring
      ensures k < |ring| && ring[k] == n
    {
      k :| 0 <= k < |ring| && ring[k] == n;
    }

    /** The first two lines of uxListRemove: the neighbours of the item at k are linked to each other. */
    method Bypass(item: Node, ghost k: nat)
      requires Circular(ring) && 1 <= k < |ring| && ring[k] == item
      modifies ring`pxNext, ring`pxPrevious
      ensures Circular(RemoveAt(ring, k)) && item.pxPrevious == old(item.pxPrevious) == ring[k - 1]
    {
      hide Distinct;
      OnlyAt(ring, k);
      OnlyAt(ring, k - 1);
      OnlyAt(ring, Wrap(k + 1, |ring|));
      item.pxNext.pxPrevious := item.pxPrevious;
      item.pxPrevious.pxNext := item.pxNext;
      Unspliced(ring, k);
    }

    /** uxListRemove's work on the node's list. */
    method Unlink(item: Node, ghost all: set<Node> := {}) returns (left: nat, ghost k: nat)
      requires Valid() && item in ring && item.pxContainer == this && Names(all)
      modifies this`uxNumberOfItems, this`pxIndex, this`ring, ring`pxNext, ring`pxPrevious, item`pxContainer
      ensures Valid() && item.pxContainer == null && left == |ring| - 1 && Names(all + {item})
      ensures 1 <= k < |old(ring)| && old(ring)[k] == item && ring == RemoveAt(old(ring), k)
      ensures pxIndex == if old(pxIndex) == item then old(ring)[k - 1] else old(pxIndex)
    {
      hide Distinct, NameIn, LinkedExcept;
      ghost var r := ring;
      k := PositionOf(item);
      NameRemoved(ContainersOf(all), r, this, k);
      ghost var names := ContainersOf(all)[item := null];
      OnlyAt(r, k);
      Bypass(item, k);
      if pxIndex == item {
        pxIndex := item.pxPrevious;
      }
      item.pxContainer := null;
      uxNumberOfItems := uxNumberOfItems - 1;
      ring := RemoveAt(r, k);
      StillThere(r, k, pxIndex);
      assert ContainersOf(all + {item}) == names;
      left := uxNumberOfItems;
    }

    lemma StillThere(r: seq<Node>, k: nat, m: Node)
      requires k < |r| && m in r && m != r[k]
      ensures m in RemoveAt(r, k)
    {
    }

    /** uxListRemove: the node knows its list. */
    static method Remove(item: Node, ghost all: set<Node>) returns (left: nat, ghost k: nat)
      requires item.pxContainer != null && item.pxContainer.Valid() && item.pxContainer.Names(all) && item in all
      modifies item.pxContainer`uxNumberOfItems, item.pxContainer`pxIndex, item.pxContainer`ring
      modifies item.pxContainer.ring`pxNext, item.pxContainer.ring`pxPrevious, item`pxContainer
      ensures item.pxContainer == null
      ensures var list := old(item.pxContainer);
              && list.Valid() && left == |list.ring| - 1 && list.Names(all)
              && 1 <= k < |old(list.ring)| && old(list.ring)[k] == item && list.ring == RemoveAt(old(list.ring), k)
              && list.pxIndex == if old(list.pxIndex) == item then old(list.ring)[k - 1] else old(list.pxIndex)
    {
      assert all + {item} == all;
      left, k := item.pxContainer.Unlink(item, all);
    }

    /** listGET_OWNER_OF_NEXT_ENTRY: one step of the index, skipping the end marker. */
    method NextEntry() returns (entry: Node)
      requires Valid() && |ring| > 1
      modifies this`pxIndex
      ensures Valid() && entry == pxIndex
      ensures old(IndexPosition()) < |ring| && pxIndex == ring[NextPosition(old(IndexPosition()), |ring|)]
    {
      pxIndex := pxIndex.pxNext;
      if pxIndex == xListEnd {
        pxIndex := pxIndex.pxNext;
      }
      entry := pxIndex;
    }
  }

  /** Ring position after p in a walk that skips the end marker at 0. */
  function NextPosition(p: nat, n: nat): (q: nat)
    requires p < n && n > 1
    ensures 1 <= q < n
  {
    if p + 1 < n then p + 1 else 1
  }
}
