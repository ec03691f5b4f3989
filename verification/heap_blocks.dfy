/**
 The heap of mem.c seen as a list of blocks: what each allocator operation does to
 the list, and the laws that hold of those operations.  heap.dfy proves that the
 in-place code on the word array computes exactly these operations.

 Sizes follow mem.c with a four-byte alignment: a block header takes 12 bytes and
 every data area is at least 12 bytes long.
 */
module HeapBlocks {

  const HEADER: nat := 12
  const MIN_DATA: nat := 12

  /** A block: its header is at byte offset `at`, the following header at `next`. */
  datatype Block = Block(at: nat, next: nat, used: bool) {
    function DataSize(): int { next - (at + HEADER) }

    predicate Contains(address: int) { at <= address < next }
  }

  /** The blocks lie end to end on [lo, hi), aligned, each with room for MIN_DATA bytes. */
  predicate Tiles(bs: seq<Block>, lo: nat, hi: nat) {
    if bs == [] then lo == hi
    else
      && bs[0].at == lo
      && lo % 4 == 0
      && lo + HEADER + MIN_DATA <= bs[0].next
      && Tiles(bs[1..], bs[0].next, hi)
  }

  /** No two neighbouring blocks are both free. */
  predicate Coalesced(bs: seq<Block>) {
    |bs| >= 2 ==> (bs[0].used || bs[1].used) && Coalesced(bs[1..])
  }

  ghost predicate WellFormed(bs: seq<Block>, size: nat) {
    && Tiles(bs, 0, size)
    && Coalesced(bs)
  }

  /** What the callers of the allocator hold. */
  function UsedSet(bs: seq<Block>): set<Block> {
    if bs == [] then {}
    else (if bs[0].used then {bs[0]} else {}) + UsedSet(bs[1..])
  }

  /** The `used` statistics counter's intended value: headers and data of all used blocks. */
  function UsedBytes(bs: seq<Block>): int {
    if bs == [] then 0
    else (if bs[0].used then bs[0].next - bs[0].at else 0) + UsedBytes(bs[1..])
  }

  /** The same for the free blocks. */
  function FreeBytes(bs: seq<Block>): int {
    if bs == [] then 0
    else (if bs[0].used then 0 else bs[0].next - bs[0].at) + FreeBytes(bs[1..])
  }

  /** Every byte of the heap is counted as used or as free. */
  lemma {:induction false} BytesConserved(bs: seq<Block>, lo: nat, hi: nat)
    requires Tiles(bs, lo, hi)
    ensures UsedBytes(bs) + FreeBytes(bs) == hi - lo
    ensures 0 <= UsedBytes(bs) && 0 <= FreeBytes(bs)
  {
    if bs != [] {
      BytesConserved(bs[1..], bs[0].next, hi);
    }
  }

  /** Index of the lowest free block, or the number of blocks when none is free. */
  function FirstFree(bs: seq<Block>): (i: nat)
    ensures i <= |bs|
    ensures forall j | 0 <= j < i :: bs[j].used
    ensures i < |bs| ==> !bs[i].used
  {
    if bs == [] || !bs[0].used then 0 else 1 + FirstFree(bs[1..])
  }

  /** Offset of the lowest free block, or of the end marker. */
  function LowestFree(bs: seq<Block>, end: nat): nat {
    var i := FirstFree(bs);
    if i < |bs| then bs[i].at else end
  }

  predicate Fits(b: Block, size: nat) {
    !b.used && b.DataSize() >= size
  }

  /** Index of the lowest block that can hold `size` bytes, or the number of blocks. */
  function FirstFit(bs: seq<Block>, size: nat): (i: nat)
    ensures i <= |bs|
    ensures forall j | 0 <= j < i :: !Fits(bs[j], size)
    ensures i < |bs| ==> Fits(bs[i], size)
  {
    if bs == [] || Fits(bs[0], size) then 0 else 1 + FirstFit(bs[1..], size)
  }

  /** Index of the block that starts at this offset, or the number of blocks. */
  function IndexOf(bs: seq<Block>, at: int): (i: nat)
    ensures i <= |bs|
    ensures forall j | 0 <= j < i :: bs[j].at != at
    ensures i < |bs| ==> bs[i].at == at
  {
    if bs == [] || bs[0].at == at then 0 else 1 + IndexOf(bs[1..], at)
  }

  // ---------------------------------------------------------------- operations

  /** mem_malloc's effect on block i: split it when a minimal block remains, else take it whole. */
  function Take(bs: seq<Block>, i: nat, size: nat): seq<Block>
    requires i < |bs|
  {
    var b := bs[i];
    var cut := b.at + HEADER + size;
    if b.DataSize() >= size + HEADER + MIN_DATA then
      bs[..i] + [Block(b.at, cut, true), Block(cut, b.next, false)] + bs[i + 1..]
    else
      bs[i := Block(b.at, b.next, true)]
  }

  /** Blocks i and i + 1 become one free block. */
  function Merge(bs: seq<Block>, i: nat): seq<Block>
    requires i + 1 < |bs|
  {
    bs[..i] + [Block(bs[i].at, bs[i + 1].next, false)] + bs[i + 2..]
  }

  /** With its free successor merged, block i has a used successor or none. */
  function Forward(bs: seq<Block>, i: nat): seq<Block>
    requires i < |bs|
  {
    if i + 1 < |bs| && !bs[i + 1].used then Merge(bs, i) else bs
  }

  /** plug_holes: merge the free block i with a free successor, then with a free predecessor. */
  function Plug(bs: seq<Block>, i: nat): seq<Block>
    requires i < |bs|
  {
    var forward := Forward(bs, i);
    if i > 0 && !forward[i - 1].used then Merge(forward, i - 1) else forward
  }

  function MarkFree(bs: seq<Block>, i: nat): seq<Block>
    requires i < |bs|
  {
    bs[i := Block(bs[i].at, bs[i].next, false)]
  }

  /** mem_free's effect on block i. */
  function Release(bs: seq<Block>, i: nat): seq<Block>
    requires i < |bs|
  {
    Plug(MarkFree(bs, i), i)
  }

  /** mem_trim's effect on block i, for an aligned new data size not above the old one. */
  function Shrink(bs: seq<Block>, i: nat, size: nat): seq<Block>
    requires i < |bs|
  {
    var b := bs[i];
    var cut := b.at + HEADER + size;
    if b.DataSize() <= size then bs
    else if i + 1 < |bs| && !bs[i + 1].used then
      bs[..i] + [Block(b.at, cut, true), Block(cut, bs[i + 1].next, false)] + bs[i + 2..]
    else if size + HEADER + MIN_DATA <= b.DataSize() then
      bs[..i] + [Block(b.at, cut, true), Block(cut, b.next, false)] + bs[i + 1..]
    else bs
  }

  /** The block a caller holds after mem_malloc took block i: big enough, with less than a minimal block to spare. */
  function Taken(bs: seq<Block>, i: nat, size: nat): (b: Block)
    requires i < |bs|
    ensures b.used && b.at == bs[i].at && (b.next == bs[i].next || b.next == b.at + 12 + size)
    ensures size <= bs[i].DataSize() ==> size <= b.next - b.at - 12 < size + 24
  {
    var b := bs[i];
    Block(b.at, if b.DataSize() >= size + HEADER + MIN_DATA then b.at + HEADER + size else b.next, true)
  }

  /** The block a caller holds after mem_trim shrank block i: nothing to spare if the next block is free, else little. */
  function Shrunk(bs: seq<Block>, i: nat, size: nat): (b: Block)
    requires i < |bs|
    ensures bs[i].used ==> b.used
    ensures b.at == bs[i].at && (b.next == bs[i].next || b.next == b.at + 12 + size)
    ensures size <= bs[i].DataSize() ==> size <= b.next - b.at - 12 < size + 24
    ensures size <= bs[i].DataSize() && i + 1 < |bs| && !bs[i + 1].used ==> b.next - b.at - 12 == size
  {
    var b := bs[i];
    if size < b.DataSize() && ((i + 1 < |bs| && !bs[i + 1].used) || size + HEADER + MIN_DATA <= b.DataSize())
    then Block(b.at, b.at + HEADER + size, true) else b
  }

  // ---------------------------------------------------------------- order of the blocks

  /** Blocks with a smaller index end before blocks with a larger index begin. */
  lemma {:induction false} Ordered(bs: seq<Block>, lo: nat, hi: nat)
    requires Tiles(bs, lo, hi)
    ensures lo <= hi
    ensures forall i | 0 <= i < |bs| :: bs[i].at % 4 == 0 && bs[i].at + HEADER + MIN_DATA <= bs[i].next
    ensures forall i, j | 0 <= i < j < |bs| :: bs[i].next <= bs[j].at
    ensures forall i | 0 <= i < |bs| :: lo <= bs[i].at && bs[i].next <= hi
    ensures forall i | 0 <= i < |bs| :: bs[i].next == (if i + 1 < |bs| then bs[i + 1].at else hi)
    ensures |bs| > 0 ==> bs[0].at == lo
  {
    if bs != [] {
      var t := bs[1..];
      Ordered(t, bs[0].next, hi);
      forall i | 0 < i < |bs| ensures bs[i] == t[i - 1] {
      }
      forall j | 0 < j < |bs| ensures bs[0].next <= bs[j].at {
        assert bs[j] == t[j - 1];
      }
      forall i, j | 0 < i < j < |bs| ensures bs[i].next <= bs[j].at {
        assert t[i - 1].next <= t[j - 1].at;
      }
    }
  }

  /** Where block j lies, without the rest of the order. */
  lemma Bounds(bs: seq<Block>, size: nat, j: nat)
    requires Tiles(bs, 0, size) && j < |bs|
    ensures bs[j].at % 4 == 0 && bs[j].at + HEADER + MIN_DATA <= bs[j].next <= size
    ensures j == 0 ==> bs[j].at == 0
    ensures bs[j].next == size <==> j + 1 == |bs|
    ensures j + 1 < |bs| ==> bs[j].next == bs[j + 1].at && bs[j].next + HEADER + MIN_DATA <= bs[j + 1].next <= size
  {
    Ordered(bs, 0, size);
  }

  lemma {:induction false} UsedSetMembers(bs: seq<Block>, b: Block)
    ensures b in UsedSet(bs) <==> b in bs && b.used
  {
    if bs != [] {
      assert b in bs <==> b == bs[0] || b in bs[1..];
      UsedSetMembers(bs[1..], b);
    }
  }

  lemma BlockIndex(bs: seq<Block>, b: Block) returns (i: nat)
    requires b in UsedSet(bs)
    ensures i < |bs| && bs[i] == b && b.used
  {
    UsedSetMembers(bs, b);
    i :| 0 <= i < |bs| && bs[i] == b;
  }

  /** Blocks are told apart by where they start. */
  lemma IndexOfBlock(bs: seq<Block>, lo: nat, hi: nat, i: nat)
    requires Tiles(bs, lo, hi) && i < |bs|
    ensures IndexOf(bs, bs[i].at) == i
  {
    Ordered(bs, lo, hi);
  }

  /** Live allocations are pairwise disjoint, aligned and inside the heap. */
  lemma LiveBlocksAreDisjoint(bs: seq<Block>, size: nat, a: Block, b: Block)
    requires Tiles(bs, 0, size)
    requires a in UsedSet(bs) && b in UsedSet(bs)
    ensures a.at % 4 == 0 && a.at + HEADER + MIN_DATA <= a.next <= size
    ensures a == b || a.next <= b.at || b.next <= a.at
    ensures (exists x :: a.Contains(x) && b.Contains(x)) ==> a == b
  {
    Ordered(bs, 0, size);
    var i := BlockIndex(bs, a);
    var j := BlockIndex(bs, b);
  }

  // ---------------------------------------------------------------- replacing a stretch of blocks

  lemma {:induction false} TilesConcat(xs: seq<Block>, ys: seq<Block>, lo: nat, mid: nat, hi: nat)
    requires Tiles(xs, lo, mid)
    ensures Tiles(xs + ys, lo, hi) <==> Tiles(ys, mid, hi)
  {
    if xs == [] {
      assert xs + ys == ys;
    } else {
      assert (xs + ys)[1..] == xs[1..] + ys;
      TilesConcat(xs[1..], ys, xs[0].next, mid, hi);
    }
  }

  lemma {:induction false} TilesPrefix(xs: seq<Block>, ys: seq<Block>, lo: nat, hi: nat) returns (mid: nat)
    requires Tiles(xs + ys, lo, hi)
    ensures Tiles(xs, lo, mid) && Tiles(ys, mid, hi)
    ensures ys != [] ==> mid == ys[0].at
    ensures xs != [] ==> mid == xs[|xs| - 1].next
  {
    if xs == [] {
      assert xs + ys == ys;
      mid := lo;
    } else {
      assert (xs + ys)[1..] == xs[1..] + ys;
      mid := TilesPrefix(xs[1..], ys, xs[0].next, hi);
    }
  }

  lemma {:induction false} UsedConcat(xs: seq<Block>, ys: seq<Block>)
    ensures UsedSet(xs + ys) == UsedSet(xs) + UsedSet(ys)
    ensures UsedBytes(xs + ys) == UsedBytes(xs) + UsedBytes(ys)
  {
    if xs == [] {
      assert xs + ys == ys;
    } else {
      assert (xs + ys)[1..] == xs[1..] + ys;
      UsedConcat(xs[1..], ys);
    }
  }

  lemma UsedConcat3(xs: seq<Block>, ys: seq<Block>, zs: seq<Block>)
    ensures UsedSet(xs + ys + zs) == UsedSet(xs) + UsedSet(ys) + UsedSet(zs)
    ensures UsedBytes(xs + ys + zs) == UsedBytes(xs) + UsedBytes(ys) + UsedBytes(zs)
  {
    UsedConcat(xs + ys, zs);
    UsedConcat(xs, ys);
  }

  lemma UsedDisjoint(xs: seq<Block>, ys: seq<Block>, lo: nat, hi: nat)
    requires Tiles(xs + ys, lo, hi)
    ensures UsedSet(xs) !! UsedSet(ys)
  {
    Ordered(xs + ys, lo, hi);
    forall i, j | 0 <= i < |xs| && 0 <= j < |ys| ensures xs[i] != ys[j] {
      assert (xs + ys)[i] == xs[i] && (xs + ys)[|xs| + j] == ys[j];
    }
    forall b | b in UsedSet(xs) ensures b !in UsedSet(ys) {
      if b in UsedSet(ys) {
        var i := BlockIndex(xs, b);
        var j := BlockIndex(ys, b);
      }
    }
  }

  lemma UsedDisjoint3(pre: seq<Block>, was: seq<Block>, post: seq<Block>, lo: nat, hi: nat)
    requires Tiles(pre + was + post, lo, hi)
    ensures UsedSet(was) !! UsedSet(pre)
    ensures UsedSet(was) !! UsedSet(post)
  {
    UsedDisjoint(pre + was, post, lo, hi);
    UsedConcat(pre, was);
    var m := TilesPrefix(pre + was, post, lo, hi);
    UsedDisjoint(pre, was, lo, m);
  }

  /**
   Replacing a stretch of blocks by another that covers the same bytes keeps the tiling,
   changes the used set by exactly the blocks of the stretch, and the used bytes likewise.
   */
  lemma Splice(pre: seq<Block>, was: seq<Block>, mid: seq<Block>, post: seq<Block>, lo: nat, hi: nat)
    requires Tiles(pre + was + post, lo, hi) && was != []
    requires Tiles(mid, was[0].at, was[|was| - 1].next)
    ensures Tiles(pre + mid + post, lo, hi)
    ensures UsedSet(pre + mid + post) == UsedSet(pre + was + post) - UsedSet(was) + UsedSet(mid)
    ensures UsedBytes(pre + mid + post) == UsedBytes(pre + was + post) - UsedBytes(was) + UsedBytes(mid)
  {
    hide UsedSet, UsedBytes, Tiles;
    assert Tiles(pre + mid + post, lo, hi) by {
      var m2 := TilesPrefix(pre + was, post, lo, hi);
      var m1 := TilesPrefix(pre, was, lo, m2);
      TilesConcat(pre, mid, lo, m1, m2);
      TilesConcat(pre + mid, post, lo, m2, hi);
    }
    UsedConcat3(pre, was, post);
    UsedConcat3(pre, mid, post);
    UsedDisjoint3(pre, was, post, lo, hi);
  }

  lemma {:induction false} CoalescedAt(bs: seq<Block>, i: nat)
    requires Coalesced(bs) && i + 1 < |bs|
    ensures bs[i].used || bs[i + 1].used
  {
    if i > 0 {
      CoalescedAt(bs[1..], i - 1);
    }
  }

  lemma {:induction false} CoalescedConcat(xs: seq<Block>, ys: seq<Block>)
    ensures Coalesced(xs + ys) <==>
            Coalesced(xs) && Coalesced(ys) && (xs == [] || ys == [] || xs[|xs| - 1].used || ys[0].used)
  {
    if xs == [] {
      assert xs + ys == ys;
    } else if |xs| == 1 {
      assert (xs + ys)[1..] == ys;
    } else {
      assert (xs + ys)[1..] == xs[1..] + ys;
      CoalescedConcat(xs[1..], ys);
    }
  }

  /** The parts of a coalesced list around block i. */
  lemma CoalescedParts(bs: seq<Block>, i: nat)
    requires Coalesced(bs) && i < |bs|
    ensures Coalesced(bs[..i]) && Coalesced(bs[i..]) && Coalesced(bs[i + 1..])
    ensures i > 0 ==> bs[i - 1].used || bs[i].used
    ensures i + 1 < |bs| ==> bs[i].used || bs[i + 1].used
  {
    hide Coalesced;
    var b, xs, ys := bs[i], bs[..i], bs[i + 1..];
    assert bs == xs + ([b] + ys) && bs[i..] == [b] + ys;
    CoalescedConcat(xs, [b] + ys);
    CoalescedConcat([b], ys);
  }

  /** What a block adds to the used set and to the used bytes. */
  function UsedOf(b: Block): set<Block> { if b.used then {b} else {} }
  function BytesOf(b: Block): int { if b.used then b.next - b.at else 0 }

  lemma UsedOne(b: Block)
    ensures UsedSet([b]) == UsedOf(b)
    ensures UsedBytes([b]) == BytesOf(b)
  {
    assert [b] == [b] + [];
    assert [b][1..] == [];
  }

  lemma UsedTwo(a: Block, b: Block)
    ensures UsedSet([a, b]) == UsedOf(a) + UsedOf(b)
    ensures UsedBytes([a, b]) == BytesOf(a) + BytesOf(b)
  {
    assert [a, b] == [a] + [b];
    UsedConcat([a], [b]);
    UsedOne(a);
    UsedOne(b);
  }

  lemma TilesOne(b: Block)
    ensures Tiles([b], b.at, b.next) <==> b.at % 4 == 0 && b.at + HEADER + MIN_DATA <= b.next
  {
    assert [b][1..] == [];
  }

  lemma TilesTwo(a: Block, b: Block)
    requires Tiles([a], a.at, a.next) && Tiles([b], b.at, b.next) && a.next == b.at
    ensures Tiles([a, b], a.at, b.next)
  {
    assert [a, b] == [a] + [b];
    TilesConcat([a], [b], a.at, a.next, b.next);
  }

  /** One block becomes another of the same extent. */
  lemma ReplaceOne(bs: seq<Block>, size: nat, i: nat, b: Block)
    requires Tiles(bs, 0, size) && i < |bs| && b.at == bs[i].at && b.next == bs[i].next
    ensures Tiles(bs[i := b], 0, size)
    ensures UsedSet(bs[i := b]) == UsedSet(bs) - UsedOf(bs[i]) + UsedOf(b)
    ensures UsedBytes(bs[i := b]) == UsedBytes(bs) - BytesOf(bs[i]) + BytesOf(b)
  {
    hide Tiles, UsedSet, UsedBytes;
    assert bs == bs[..i] + [bs[i]] + bs[i + 1..];
    assert bs[i := b] == bs[..i] + [b] + bs[i + 1..];
    Bounds(bs, size, i);
    TilesOne(b);
    Splice(bs[..i], [bs[i]], [b], bs[i + 1..], 0, size);
    UsedOne(bs[i]);
    UsedOne(b);
  }

  /** Block i is split into a used block and a free rest, in front of a used block or the end. */
  lemma SplitOne(bs: seq<Block>, size: nat, i: nat, a: Block, b: Block)
    requires WellFormed(bs, size) && i < |bs|
    requires a.at == bs[i].at && a.next == b.at && b.next == bs[i].next
    requires b.at % 4 == 0 && a.at + HEADER + MIN_DATA <= a.next && b.at + HEADER + MIN_DATA <= b.next
    requires a.used && !b.used && (i + 1 < |bs| ==> bs[i + 1].used)
    ensures WellFormed(bs[..i] + [a, b] + bs[i + 1..], size)
    ensures UsedSet(bs[..i] + [a, b] + bs[i + 1..]) == UsedSet(bs) - UsedOf(bs[i]) + {a}
    ensures UsedBytes(bs[..i] + [a, b] + bs[i + 1..]) == UsedBytes(bs) - BytesOf(bs[i]) + (a.next - a.at)
  {
    hide Tiles, UsedSet, UsedBytes, Coalesced;
    assert bs == bs[..i] + [bs[i]] + bs[i + 1..];
    Bounds(bs, size, i);
    TilesOne(a);
    TilesOne(b);
    TilesTwo(a, b);
    Splice(bs[..i], [bs[i]], [a, b], bs[i + 1..], 0, size);
    UsedOne(bs[i]);
    UsedTwo(a, b);
    CoalescedParts(bs, i);
    CoalescedInsert(bs[..i], a, b, bs[i + 1..]);
  }

  lemma CoalescedInsert(pre: seq<Block>, a: Block, b: Block, post: seq<Block>)
    requires Coalesced(pre) && Coalesced(post) && a.used && (post != [] ==> post[0].used)
    ensures Coalesced(pre + [a, b] + post)
  {
    assert [a, b][1..] == [b];
    CoalescedConcat(pre, [a, b]);
    CoalescedConcat(pre + [a, b], post);
  }

  /** The border between a used block i and its free successor moves. */
  lemma MoveBorder(bs: seq<Block>, size: nat, i: nat, a: Block, b: Block)
    requires WellFormed(bs, size) && i + 1 < |bs| && bs[i].used && !bs[i + 1].used
    requires a.at == bs[i].at && a.next == b.at && b.next == bs[i + 1].next
    requires b.at % 4 == 0 && a.at + HEADER + MIN_DATA <= a.next && b.at + HEADER + MIN_DATA <= b.next
    requires a.used && !b.used
    ensures WellFormed(bs[..i] + [a, b] + bs[i + 2..], size)
    ensures UsedSet(bs[..i] + [a, b] + bs[i + 2..]) == UsedSet(bs) - {bs[i]} + {a}
    ensures UsedBytes(bs[..i] + [a, b] + bs[i + 2..]) == UsedBytes(bs) - BytesOf(bs[i]) + (a.next - a.at)
  {
    hide Tiles, UsedSet, UsedBytes, Coalesced;
    var c, d := bs[i], bs[i + 1];
    assert bs == bs[..i] + [c, d] + bs[i + 2..];
    Bounds(bs, size, i);
    TilesOne(a);
    TilesOne(b);
    TilesTwo(a, b);
    Splice(bs[..i], [c, d], [a, b], bs[i + 2..], 0, size);
    UsedTwo(c, d);
    UsedTwo(a, b);
    CoalescedParts(bs, i);
    CoalescedParts(bs, i + 1);
    CoalescedInsert(bs[..i], a, b, bs[i + 2..]);
  }

  // ---------------------------------------------------------------- the invariant is kept

  /** Allocation keeps the invariant; it adds one block to those in use, and counts all of it. */
  lemma TakeKeeps(bs: seq<Block>, size: nat, i: nat, want: nat)
    requires WellFormed(bs, size)
    requires i < |bs| && Fits(bs[i], want)
    requires want >= MIN_DATA && want % 4 == 0
    ensures WellFormed(Take(bs, i, want), size)
    ensures UsedSet(Take(bs, i, want)) == UsedSet(bs) + {Taken(bs, i, want)}
    ensures UsedBytes(Take(bs, i, want)) == UsedBytes(bs) + Taken(bs, i, want).next - Taken(bs, i, want).at
    ensures Taken(bs, i, want).DataSize() >= want
  {
    hide Tiles, UsedSet, UsedBytes, Coalesced;
    var b, t := bs[i], Taken(bs, i, want);
    Bounds(bs, size, i);
    CoalescedParts(bs, i);
    if b.DataSize() >= want + HEADER + MIN_DATA {
      SplitOne(bs, size, i, t, Block(t.next, b.next, false));
    } else {
      ReplaceOne(bs, size, i, t);
      CoalescedUpdate(bs, i, t);
    }
  }

  lemma CoalescedUpdate(bs: seq<Block>, i: nat, b: Block)
    requires Coalesced(bs) && i < |bs| && b.used
    ensures Coalesced(bs[i := b])
  {
    CoalescedParts(bs, i);
    CoalescedConcat(bs[..i], [b]);
    CoalescedConcat(bs[..i] + [b], bs[i + 1..]);
    assert bs[i := b] == bs[..i] + [b] + bs[i + 1..];
  }

  /** Apart from the neighbours of block i, the list is coalesced. */
  predicate CoalescedExcept(bs: seq<Block>, i: nat)
    requires i < |bs|
  {
    && Coalesced(bs[..i])
    && Coalesced(bs[i + 1..])
  }

  lemma MergeKeeps(bs: seq<Block>, size: nat, i: nat)
    requires Tiles(bs, 0, size)
    requires i + 1 < |bs| && !bs[i].used && !bs[i + 1].used
    ensures Tiles(Merge(bs, i), 0, size)
    ensures UsedSet(Merge(bs, i)) == UsedSet(bs)
    ensures UsedBytes(Merge(bs, i)) == UsedBytes(bs)
  {
    hide Tiles, UsedSet, UsedBytes;
    var c, d := bs[i], bs[i + 1];
    var m := Block(c.at, d.next, false);
    assert bs == bs[..i] + [c, d] + bs[i + 2..];
    Bounds(bs, size, i);
    Bounds(bs, size, i + 1);
    TilesOne(m);
    Splice(bs[..i], [c, d], [m], bs[i + 2..], 0, size);
    UsedTwo(c, d);
    UsedOne(m);
  }

  lemma ForwardAt(bs: seq<Block>, i: nat)
    requires i < |bs| && !bs[i].used
    ensures var f := Forward(bs, i);
            && i < |f| && !f[i].used && f[i].at == bs[i].at
            && (i > 0 ==> f[i - 1] == bs[i - 1])
            && Plug(bs, i) == if i > 0 && !f[i - 1].used then Merge(f, i - 1) else f
  {
  }

  lemma ForwardShape(bs: seq<Block>, i: nat)
    requires i < |bs| && !bs[i].used && CoalescedExcept(bs, i)
    ensures var f := Forward(bs, i);
            && i < |f| && f[..i] == bs[..i] && !f[i].used && f[i].at == bs[i].at
            && CoalescedExcept(f, i) && (i + 1 < |f| ==> f[i + 1].used)
  {
    var f := Forward(bs, i);
    if i + 1 < |bs| && !bs[i + 1].used {
      CoalescedParts(bs[i + 1..], 0);
      assert f[i + 1..] == bs[i + 2..];
      assert bs[i + 1..][1..] == bs[i + 2..];
      assert i + 2 < |bs| ==> bs[i + 2] == bs[i + 1..][1];
    }
  }

  lemma PlugCoalesces(bs: seq<Block>, i: nat)
    requires i < |bs| && !bs[i].used && CoalescedExcept(bs, i)
    ensures Coalesced(Plug(bs, i))
  {
    hide Coalesced;
    ForwardShape(bs, i);
    var f := Forward(bs, i);
    if i > 0 && !f[i - 1].used {
      CoalescedParts(f[..i], i - 1);
      assert f[..i][..i - 1] == f[..i - 1];
      CoalescedAround(f[..i - 1], Block(f[i - 1].at, f[i].next, false), f[i + 1..]);
    } else {
      CoalescedAround(f[..i], f[i], f[i + 1..]);
      assert f == f[..i] + [f[i]] + f[i + 1..];
    }
  }

  lemma CoalescedAround(pre: seq<Block>, b: Block, post: seq<Block>)
    requires Coalesced(pre) && Coalesced(post)
    requires pre != [] ==> pre[|pre| - 1].used
    requires post != [] ==> post[0].used
    ensures Coalesced(pre + [b] + post)
  {
    CoalescedConcat(pre, [b]);
    CoalescedConcat(pre + [b], post);
  }

  lemma PlugKeeps(bs: seq<Block>, size: nat, i: nat)
    requires Tiles(bs, 0, size)
    requires i < |bs| && !bs[i].used && CoalescedExcept(bs, i)
    ensures WellFormed(Plug(bs, i), size)
    ensures UsedSet(Plug(bs, i)) == UsedSet(bs)
    ensures UsedBytes(Plug(bs, i)) == UsedBytes(bs)
  {
    hide Tiles, UsedSet, UsedBytes, Coalesced;
    PlugCoalesces(bs, i);
    ForwardShape(bs, i);
    if i + 1 < |bs| && !bs[i + 1].used {
      MergeKeeps(bs, size, i);
    }
    var f := Forward(bs, i);
    if i > 0 && !f[i - 1].used {
      MergeKeeps(f, size, i - 1);
    }
  }

  lemma MarkFreeKeeps(bs: seq<Block>, size: nat, i: nat)
    requires WellFormed(bs, size)
    requires i < |bs| && bs[i].used
    ensures Tiles(MarkFree(bs, i), 0, size) && CoalescedExcept(MarkFree(bs, i), i)
    ensures UsedSet(MarkFree(bs, i)) == UsedSet(bs) - {bs[i]}
    ensures UsedBytes(MarkFree(bs, i)) == UsedBytes(bs) - (bs[i].next - bs[i].at)
  {
    hide Tiles, UsedSet, UsedBytes, Coalesced;
    var marked := MarkFree(bs, i);
    CoalescedParts(bs, i);
    assert marked[..i] == bs[..i] && marked[i + 1..] == bs[i + 1..];
    ReplaceOne(bs, size, i, marked[i]);
  }

  /** Freeing keeps the invariant, gives back exactly the one block, and uncounts all of it. */
  lemma ReleaseKeeps(bs: seq<Block>, size: nat, i: nat)
    requires WellFormed(bs, size)
    requires i < |bs| && bs[i].used
    ensures WellFormed(Release(bs, i), size)
    ensures UsedSet(Release(bs, i)) == UsedSet(bs) - {bs[i]}
    ensures UsedBytes(Release(bs, i)) == UsedBytes(bs) - (bs[i].next - bs[i].at)
  {
    MarkFreeKeeps(bs, size, i);
    PlugKeeps(MarkFree(bs, i), size, i);
  }

  /** Trimming keeps the invariant in all its cases, replaces the block by its shorter form, and counts that. */
  lemma ShrinkKeeps(bs: seq<Block>, size: nat, i: nat, want: nat)
    requires WellFormed(bs, size)
    requires i < |bs| && bs[i].used && want <= bs[i].DataSize()
    requires want >= MIN_DATA && want % 4 == 0
    ensures WellFormed(Shrink(bs, i, want), size)
    ensures UsedSet(Shrink(bs, i, want)) == UsedSet(bs) - {bs[i]} + {Shrunk(bs, i, want)}
    ensures UsedBytes(Shrink(bs, i, want)) == UsedBytes(bs) - (bs[i].next - Shrunk(bs, i, want).next)
    ensures Shrunk(bs, i, want).DataSize() >= want
  {
    hide Tiles, UsedSet, UsedBytes, Coalesced;
    var b, t := bs[i], Shrunk(bs, i, want);
    Bounds(bs, size, i);
    assert t.DataSize() >= want;
    if want < b.DataSize() && i + 1 < |bs| && !bs[i + 1].used {
      Bounds(bs, size, i + 1);
      MoveBorder(bs, size, i, t, Block(t.next, bs[i + 1].next, false));
    } else if want < b.DataSize() && want + HEADER + MIN_DATA <= b.DataSize() {
      SplitOne(bs, size, i, t, Block(t.next, b.next, false));
    } else {
      UsedSetMembers(bs, b);
    }
  }

  // ---------------------------------------------------------------- canonical form

  lemma TailFacts(bs: seq<Block>, lo: nat, hi: nat)
    requires Tiles(bs, lo, hi) && bs != []
    ensures Coalesced(bs) ==> Coalesced(bs[1..])
    ensures UsedSet(bs[1..]) == UsedSet(bs) - UsedSet([bs[0]])
  {
    assert bs == [bs[0]] + bs[1..];
    CoalescedConcat([bs[0]], bs[1..]);
    UsedConcat([bs[0]], bs[1..]);
    UsedDisjoint([bs[0]], bs[1..], lo, hi);
  }

  /** In a tiling, the block that starts at the low end is the first one. */
  lemma FirstBlock(bs: seq<Block>, lo: nat, hi: nat, b: Block)
    requires Tiles(bs, lo, hi) && b in UsedSet(bs) && b.at == lo
    ensures b == bs[0]
  {
    Ordered(bs, lo, hi);
    var i := BlockIndex(bs, b);
  }

  /** Of two heaps with the same used blocks and a free first block, neither has the longer one. */
  lemma FreePrefixBound(bs: seq<Block>, cs: seq<Block>, lo: nat, hi: nat)
    requires Tiles(bs, lo, hi) && Coalesced(bs) && Tiles(cs, lo, hi)
    requires bs != [] && cs != []
    requires UsedSet(bs) == UsedSet(cs)
    requires !bs[0].used && !cs[0].used
    ensures cs[0].next <= bs[0].next
  {
    Ordered(cs, lo, hi);
    Ordered(bs, lo, hi);
    if |bs| > 1 {
      UsedSetMembers(bs, bs[1]);
      var k := BlockIndex(cs, bs[1]);
    }
  }

  lemma SameFirstBlock(bs: seq<Block>, cs: seq<Block>, lo: nat, hi: nat)
    requires Tiles(bs, lo, hi) && Coalesced(bs)
    requires Tiles(cs, lo, hi) && Coalesced(cs)
    requires bs != [] && cs != []
    requires UsedSet(bs) == UsedSet(cs)
    ensures bs[0] == cs[0]
  {
    UsedSetMembers(bs, bs[0]);
    UsedSetMembers(cs, cs[0]);
    if bs[0].used {
      FirstBlock(cs, lo, hi, bs[0]);
    } else if cs[0].used {
      FirstBlock(bs, lo, hi, cs[0]);
    } else {
      FreePrefixBound(bs, cs, lo, hi);
      FreePrefixBound(cs, bs, lo, hi);
    }
  }

  /**
   A coalesced heap is determined by the blocks in use: nothing about the order of past
   allocations, frees and trims can be left in the list.
   */
  lemma {:induction false} UsedBlocksDetermineHeap(bs: seq<Block>, cs: seq<Block>, lo: nat, hi: nat)
    requires Tiles(bs, lo, hi) && Coalesced(bs)
    requires Tiles(cs, lo, hi) && Coalesced(cs)
    requires UsedSet(bs) == UsedSet(cs)
    ensures bs == cs
    decreases |bs|
  {
    Ordered(bs, lo, hi);
    Ordered(cs, lo, hi);
    if bs != [] && cs != [] {
      SameFirstBlock(bs, cs, lo, hi);
      TailFacts(bs, lo, hi);
      TailFacts(cs, lo, hi);
      UsedBlocksDetermineHeap(bs[1..], cs[1..], bs[0].next, hi);
      assert bs == [bs[0]] + bs[1..] && cs == [cs[0]] + cs[1..];
    }
  }

  /** Freeing a block right after it was allocated restores the list and the lowest free block, split or not. */
  lemma MallocThenFreeIsIdentity(bs: seq<Block>, size: nat, i: nat, want: nat)
    requires WellFormed(bs, size)
    requires i < |bs| && Fits(bs[i], want)
    requires want >= MIN_DATA && want % 4 == 0
    ensures i < |Take(bs, i, want)| && Take(bs, i, want)[i] == Taken(bs, i, want)
    ensures Release(Take(bs, i, want), i) == bs
  {
    var t := Take(bs, i, want);
    TakeKeeps(bs, size, i, want);
    assert t[i] == Taken(bs, i, want);
    ReleaseKeeps(t, size, i);
    NotLive(bs, size, i, Taken(bs, i, want));
    UsedBlocksDetermineHeap(Release(t, i), bs, 0, size);
  }

  lemma NotLive(bs: seq<Block>, size: nat, i: nat, b: Block)
    requires Tiles(bs, 0, size) && i < |bs| && !bs[i].used && b.at == bs[i].at
    ensures b !in UsedSet(bs)
  {
    Ordered(bs, 0, size);
    if b in UsedSet(bs) {
      var k := BlockIndex(bs, b);
    }
  }
}
