/**
 How a block list is stored in the heap memory of mem.c: a header of three words in
 front of every data area, in the same words that user data occupies once headers go.

 The memory is a sequence of 32-bit words named by their byte offset from `ram`; only
 offsets that are multiples of four name a word the code reads or writes.  A header at
 offset p holds `next` in word p, `prev` in word p + 4 and the one-byte `used` flag in
 the low byte of word p + 8 (the other three bytes are padding the code never writes).
 */
module HeapMemory {
  import opened HeapBlocks

  type Word = x: int | 0 <= x < 0x1_0000_0000

  /** The byte `used` of a header's third word. */
  function UsedByte(w: Word): int { w % 256 }

  function SetUsedByte(w: Word, v: int): (r: Word)
    requires 0 <= v < 256
    ensures UsedByte(r) == v
  {
    w - w % 256 + v
  }

  predicate Header(mem: seq<Word>, b: Block, prev: nat) {
    && b.at + HEADER <= |mem|
    && mem[b.at] == b.next
    && mem[b.at + 4] == prev
    && UsedByte(mem[b.at + 8]) == if b.used then 1 else 0
  }

  /** Offset of the block before index i of a stretch whose predecessor starts at `first`. */
  function PrevFrom(first: nat, bs: seq<Block>, i: nat): nat
    requires i <= |bs|
  {
    if i == 0 then first else bs[i - 1].at
  }

  /** The same for a whole heap: the first block is its own predecessor. */
  function PrevAt(bs: seq<Block>, i: nat): nat
    requires i <= |bs|
  {
    PrevFrom(0, bs, i)
  }

  /** The headers of a stretch of blocks whose predecessor starts at `first`. */
  predicate Headers(mem: seq<Word>, bs: seq<Block>, first: nat) {
    bs != [] ==> Header(mem, bs[0], first) && Headers(mem, bs[1..], bs[0].at)
  }

  /** The memory holds the headers of exactly these blocks, and the end marker. */
  ghost predicate Linked(mem: seq<Word>, bs: seq<Block>, size: nat) {
    && |mem| == size + HEADER
    && Headers(mem, bs, 0)
    && Header(mem, Block(size, size, true), size)
  }

  ghost predicate SameWords(mem: seq<Word>, mem': seq<Word>, lo: int, hi: int) {
    |mem| == |mem'| && forall a | lo <= a < hi && 0 <= a < |mem| :: mem'[a] == mem[a]
  }

  /** The data of every block in `live` is untouched. */
  ghost predicate DataKept(mem: seq<Word>, mem': seq<Word>, live: set<Block>) {
    forall b | b in live :: SameWords(mem, mem', b.at + HEADER, b.next)
  }

  lemma DataKeptSame(mem: seq<Word>, live: set<Block>)
    ensures DataKept(mem, mem, live)
  {
  }

  lemma SameWordsSame(mem: seq<Word>, lo: int, hi: int)
    ensures SameWords(mem, mem, lo, hi)
  {
  }

  lemma DataKeptSubset(mem: seq<Word>, mem': seq<Word>, more: set<Block>, live: set<Block>)
    requires DataKept(mem, mem', more) && live <= more
    ensures DataKept(mem, mem', live)
  {
  }

  lemma DataKeptTrans(m0: seq<Word>, m1: seq<Word>, m2: seq<Word>, xs: set<Block>, ys: set<Block>, live: set<Block>)
    requires DataKept(m0, m1, xs) && DataKept(m1, m2, ys) && live <= xs && live <= ys
    ensures DataKept(m0, m2, live)
  {
    forall b | b in live ensures SameWords(m0, m2, b.at + HEADER, b.next) {
      assert SameWords(m0, m1, b.at + HEADER, b.next) && SameWords(m1, m2, b.at + HEADER, b.next);
    }
  }

  lemma {:induction false} HeaderAt(mem: seq<Word>, bs: seq<Block>, first: nat, i: nat)
    requires Headers(mem, bs, first) && i < |bs|
    ensures Header(mem, bs[i], PrevFrom(first, bs, i))
  {
    if i > 0 {
      HeaderAt(mem, bs[1..], bs[0].at, i - 1);
    }
  }

  lemma {:induction false} HeadersConcat(mem: seq<Word>, xs: seq<Block>, ys: seq<Block>, first: nat)
    ensures Headers(mem, xs + ys, first) <==> Headers(mem, xs, first) && Headers(mem, ys, PrevFrom(first, xs, |xs|))
  {
    if xs == [] {
      assert xs + ys == ys;
    } else {
      assert (xs + ys)[1..] == xs[1..] + ys;
      HeadersConcat(mem, xs[1..], ys, xs[0].at);
      assert PrevFrom(first, xs, |xs|) == PrevFrom(xs[0].at, xs[1..], |xs[1..]|);
    }
  }

  lemma HeaderKept(mem: seq<Word>, mem': seq<Word>, b: Block, prev: nat)
    requires Header(mem, b, prev) && SameWords(mem, mem', b.at, b.at + HEADER)
    ensures Header(mem', b, prev)
  {
  }

  /** Headers in an untouched range are still there. */
  lemma {:induction false} HeadersKept(mem: seq<Word>, mem': seq<Word>, bs: seq<Block>, first: nat, lo: nat, hi: nat)
    requires Headers(mem, bs, first) && Tiles(bs, lo, hi) && SameWords(mem, mem', lo, hi)
    ensures Headers(mem', bs, first)
  {
    if bs != [] {
      var rest := bs[0].next;
      assert rest <= hi by { Ordered(bs[1..], rest, hi); }
      HeaderKept(mem, mem', bs[0], first);
      HeadersKept(mem, mem', bs[1..], bs[0].at, rest, hi);
    }
  }

  /** So are those behind a rewritten back link, which now names `prev`. */
  lemma HeadersBehind(mem: seq<Word>, mem': seq<Word>, bs: seq<Block>, first: nat, prev: nat, lo: nat, hi: nat)
    requires Headers(mem, bs, first) && Tiles(bs, lo, hi)
    requires SameWords(mem, mem', lo, lo + 4) && SameWords(mem, mem', lo + 8, hi)
    requires bs != [] ==> lo + 8 <= |mem'| && mem'[lo + 4] == prev
    ensures Headers(mem', bs, prev)
  {
    if bs != [] {
      assert bs[0].next <= hi by { Ordered(bs[1..], bs[0].next, hi); }
      HeadersKept(mem, mem', bs[1..], bs[0].at, bs[0].next, hi);
    }
  }

  /**
   Rewriting the headers of the stretch `was`, and the back link of the block behind it,
   relinks the whole list.
   */
  lemma Relink(mem: seq<Word>, mem': seq<Word>, pre: seq<Block>, was: seq<Block>, now: seq<Block>, post: seq<Block>,
               from: nat, after: nat, size: nat)
    requires Headers(mem, pre + was + post, 0) && was != [] && now != []
    requires Tiles(pre, 0, from) && Tiles(post, after, size)
    requires SameWords(mem, mem', 0, from)
    requires Headers(mem', now, PrevAt(pre, |pre|))
    requires SameWords(mem, mem', after, after + 4) && SameWords(mem, mem', after + 8, size)
    requires post != [] ==> after + 8 <= |mem'| && mem'[after + 4] == now[|now| - 1].at
    ensures Headers(mem', pre + now + post, 0)
  {
    hide Headers, Tiles, SameWords;
    HeadersConcat(mem, pre + was, post, 0);
    HeadersConcat(mem, pre, was, 0);
    HeadersKept(mem, mem', pre, 0, 0, from);
    HeadersBehind(mem, mem', post, PrevFrom(0, pre + was, |pre + was|), now[|now| - 1].at, after, size);
    HeadersConcat(mem', pre, now, 0);
    HeadersConcat(mem', pre + now, post, 0);
  }

  /** Only the words in `cells` may differ. */
  ghost predicate ChangedOnly(mem: seq<Word>, mem': seq<Word>, cells: set<int>) {
    |mem| == |mem'| && forall a | 0 <= a < |mem| && a !in cells :: mem'[a] == mem[a]
  }

  /** The writes that rewire the bytes [from, after): inside them, and the back link of the block behind. */
  ghost predicate RewireCells(cells: set<int>, from: nat, after: nat, size: nat) {
    forall a | a in cells :: from <= a < after || (a == after + 4 && after != size)
  }

  /** Such writes touch no data of blocks on either side. */
  lemma SideDataKept(mem: seq<Word>, mem': seq<Word>, cells: set<int>, bs: seq<Block>, lo: nat, hi: nat, from: nat, after: nat, size: nat)
    requires ChangedOnly(mem, mem', cells) && RewireCells(cells, from, after, size) && from <= after
    requires Tiles(bs, lo, hi) && (hi <= from || after <= lo)
    ensures DataKept(mem, mem', UsedSet(bs))
  {
    hide UsedSet, Tiles;
    forall b | b in UsedSet(bs) ensures SameWords(mem, mem', b.at + HEADER, b.next) {
      var k := BlockIndex(bs, b);
      assert lo <= b.at && b.next <= hi by { Ordered(bs, lo, hi); }
    }
  }

  lemma RelinkCells(mem: seq<Word>, mem': seq<Word>, cells: set<int>, bs: seq<Block>,
                    pre: seq<Block>, was: seq<Block>, now: seq<Block>, post: seq<Block>, size: nat)
    requires Linked(mem, bs, size) && Tiles(bs, 0, size)
    requires bs == pre + was + post && was != [] && now != []
    requires var from, after := was[0].at, was[|was| - 1].next;
             && ChangedOnly(mem, mem', cells) && RewireCells(cells, from, after, size)
             && (after != size && after + 8 <= |mem'| ==> mem'[after + 4] == now[|now| - 1].at)
    requires Headers(mem', now, PrevAt(pre, |pre|))
    ensures Linked(mem', pre + now + post, size)
    ensures DataKept(mem, mem', UsedSet(pre) + UsedSet(post))
  {
    hide Headers, Tiles, UsedSet, SameWords, DataKept, ChangedOnly, RewireCells;
    var from, after := was[0].at, was[|was| - 1].next;
    Around(pre, was, post, size);
    Untouched(mem, mem', cells, from, after, size);
    Relink(mem, mem', pre, was, now, post, from, after, size);
    SideDataKept(mem, mem', cells, pre, 0, from, from, after, size);
    SideDataKept(mem, mem', cells, post, after, size, from, after, size);
    JoinDataKept(mem, mem', UsedSet(pre), UsedSet(post));
  }

  lemma Around(pre: seq<Block>, was: seq<Block>, post: seq<Block>, size: nat)
    requires Tiles(pre + was + post, 0, size) && was != []
    ensures var from, after := was[0].at, was[|was| - 1].next;
            && Tiles(pre, 0, from) && Tiles(post, after, size) && from <= after
            && (after == size <==> post == []) && (after == size || after + HEADER <= size)
  {
    hide Tiles;
    var m2 := TilesPrefix(pre + was, post, 0, size);
    var m1 := TilesPrefix(pre, was, 0, m2);
    StretchBounds(was, m1, m2);
    if post == [] {
      TilesEmpty(m2, size);
    } else {
      StretchBounds(post, m2, size);
    }
  }

  lemma Untouched(mem: seq<Word>, mem': seq<Word>, cells: set<int>, from: nat, after: nat, size: nat)
    requires ChangedOnly(mem, mem', cells) && RewireCells(cells, from, after, size)
    requires |mem| == size + HEADER && Header(mem, Block(size, size, true), size)
    requires from <= after && (after == size || after + HEADER <= size)
    ensures SameWords(mem, mem', 0, from)
    ensures SameWords(mem, mem', after, after + 4) && SameWords(mem, mem', after + 8, size)
    ensures |mem'| == |mem| && Header(mem', Block(size, size, true), size)
  {
  }

  lemma JoinDataKept(mem: seq<Word>, mem': seq<Word>, xs: set<Block>, ys: set<Block>)
    requires DataKept(mem, mem', xs) && DataKept(mem, mem', ys)
    ensures DataKept(mem, mem', xs + ys)
  {
  }

  lemma StretchBounds(bs: seq<Block>, lo: nat, hi: nat)
    requires Tiles(bs, lo, hi) && bs != []
    ensures bs[0].at == lo && bs[|bs| - 1].next == hi && lo + HEADER + MIN_DATA <= hi
  {
    Ordered(bs, lo, hi);
  }

  lemma TilesNonEmpty(bs: seq<Block>, lo: nat, hi: nat)
    requires Tiles(bs, lo, hi) && lo < hi
    ensures bs != []
  {
  }

  lemma TilesEmpty(lo: nat, hi: nat)
    requires Tiles([], lo, hi)
    ensures lo == hi
  {
  }

  /** Setting or clearing a used flag. */
  lemma FlagStep(mem: seq<Word>, mem': seq<Word>, bs: seq<Block>, i: nat, used: bool, size: nat)
    requires Linked(mem, bs, size) && Tiles(bs, 0, size) && i < |bs|
    requires bs[i].at + HEADER <= |mem|
    requires ChangedOnly(mem, mem', {bs[i].at + 8})
    requires UsedByte(mem'[bs[i].at + 8]) == if used then 1 else 0
    ensures Linked(mem', bs[i := Block(bs[i].at, bs[i].next, used)], size)
    ensures DataKept(mem, mem', UsedSet(bs))
  {
    hide Headers, Tiles, UsedSet, DataKept;
    var b, now := bs[i], Block(bs[i].at, bs[i].next, used);
    var pre, post := bs[..i], bs[i + 1..];
    assert bs == pre + [b] + post && bs[i := now] == pre + [now] + post;
    Bounds(bs, size, i);
    HeaderAt(mem, bs, 0, i);
    HeadersOne(mem', now, PrevAt(pre, i));
    if i + 1 < |bs| {
      HeaderAt(mem, bs, 0, i + 1);
    }
    RelinkCells(mem, mem', {b.at + 8}, bs, pre, [b], [now], post, size);
    UsedConcat3(pre, [b], post);
    UsedOne(b);
    DataKeptOne(mem, mem', b);
    JoinDataKept(mem, mem', UsedSet(pre) + UsedSet(post), UsedOf(b));
    assert UsedSet(pre) + UsedSet(post) + UsedOf(b) == UsedSet(bs);
  }

  lemma DataKeptOne(mem: seq<Word>, mem': seq<Word>, b: Block)
    requires SameWords(mem, mem', b.at + HEADER, b.next)
    ensures DataKept(mem, mem', UsedOf(b))
  {
  }

  lemma HeadersOne(mem: seq<Word>, b: Block, first: nat)
    requires Header(mem, b, first)
    ensures Headers(mem, [b], first)
  {
    assert [b][1..] == [];
  }

  /** Making block i run up to the end of block i + 1. */
  lemma MergeStep(mem: seq<Word>, mem': seq<Word>, bs: seq<Block>, i: nat, size: nat)
    requires Linked(mem, bs, size) && Tiles(bs, 0, size) && i + 1 < |bs|
    requires !bs[i].used && !bs[i + 1].used
    requires var after := bs[i + 1].next;
             && bs[i].at + HEADER <= |mem|
             && ChangedOnly(mem, mem', {bs[i].at} + (if after != size then {after + 4} else {}))
             && mem'[bs[i].at] == after
             && (after != size ==> after + HEADER <= |mem| && mem'[after + 4] == bs[i].at)
    ensures Linked(mem', Merge(bs, i), size)
    ensures DataKept(mem, mem', UsedSet(bs))
  {
    hide Headers, Tiles, UsedSet;
    var c, d := bs[i], bs[i + 1];
    var pre, post := bs[..i], bs[i + 2..];
    var m := Block(c.at, d.next, false);
    assert bs == pre + [c, d] + post;
    Bounds(bs, size, i);
    Bounds(bs, size, i + 1);
    HeaderAt(mem, bs, 0, i);
    HeadersOne(mem', m, PrevAt(pre, i));
    RelinkCells(mem, mem', {c.at} + (if d.next != size then {d.next + 4} else {}), bs, pre, [c, d], [m], post, size);
    UsedConcat3(pre, [c, d], post);
    UsedTwo(c, d);
  }

  /**
   Cutting the stretch of blocks i to j (one block, or a block and its successor) into a
   block that ends at `cut` and a free rest.
   */
  lemma CutStep(mem: seq<Word>, mem': seq<Word>, bs: seq<Block>, i: nat, j: nat, cut: nat, used: bool, size: nat)
    requires Linked(mem, bs, size) && Tiles(bs, 0, size) && i <= j < |bs| && j <= i + 1
    requires bs[i].at + HEADER <= cut && cut + HEADER <= bs[j].next
    requires var at, after := bs[i].at, bs[j].next;
             && after + HEADER <= |mem|
             && ChangedOnly(mem, mem', CutCells(at, cut, after, size))
             && mem'[at] == cut && UsedByte(mem'[at + 8]) == (if used then 1 else 0)
             && mem'[cut] == after && mem'[cut + 4] == at && UsedByte(mem'[cut + 8]) == 0
             && (after != size ==> mem'[after + 4] == cut)
    ensures Linked(mem', bs[..i] + [Block(bs[i].at, cut, used), Block(cut, bs[j].next, false)] + bs[j + 1..], size)
    ensures SameWords(mem, mem', bs[i].at + HEADER, cut)
    ensures DataKept(mem, mem', UsedSet(bs[..i]) + UsedSet(bs[j + 1..]))
  {
    hide Headers, Tiles, UsedSet, DataKept, Header, UsedByte;
    var at, after := bs[i].at, bs[j].next;
    var pre, was, post := bs[..i], bs[i..j + 1], bs[j + 1..];
    assert bs == pre + was + post;
    assert after <= size by { Bounds(bs, size, j); }
    HeaderAt(mem, bs, 0, i);
    CutHeaders(mem, mem', bs[i], PrevAt(pre, i), cut, after, used, size);
    RelinkCells(mem, mem', CutCells(at, cut, after, size), bs, pre, was,
                [Block(at, cut, used), Block(cut, after, false)], post, size);
  }

  lemma CutHeaders(mem: seq<Word>, mem': seq<Word>, b: Block, prev: nat, cut: nat, after: nat, used: bool, size: nat)
    requires Header(mem, b, prev)
    requires b.at + HEADER <= cut && cut + HEADER <= after && after + HEADER <= |mem|
    requires ChangedOnly(mem, mem', CutCells(b.at, cut, after, size))
    requires mem'[b.at] == cut && UsedByte(mem'[b.at + 8]) == (if used then 1 else 0)
    requires mem'[cut] == after && mem'[cut + 4] == b.at && UsedByte(mem'[cut + 8]) == 0
    ensures Headers(mem', [Block(b.at, cut, used), Block(cut, after, false)], prev)
  {
    HeadersTwo(mem', Block(b.at, cut, used), Block(cut, after, false), prev);
  }

  /** The header words written when the bytes from `at` to `after` are cut in two. */
  function CutCells(at: nat, cut: nat, after: nat, size: nat): set<int> {
    {at, at + 8, cut, cut + 4, cut + 8} + (if after != size then {after + 4} else {})
  }

  /** Setting the flag of the block to be cut is one of the cut's own writes. */
  lemma FlagThenCut(m0: seq<Word>, m1: seq<Word>, m2: seq<Word>, at: nat, cut: nat, after: nat, size: nat)
    requires at + 8 < |m0| == |m1| && m1 == m0[at + 8 := m1[at + 8]]
    requires ChangedOnly(m1, m2, CutCells(at, cut, after, size))
    ensures ChangedOnly(m0, m2, CutCells(at, cut, after, size))
  {
  }

  lemma HeadersTwo(mem: seq<Word>, a: Block, b: Block, first: nat)
    requires Header(mem, a, first) && Header(mem, b, a.at)
    ensures Headers(mem, [a, b], first)
  {
    assert [a, b][1..] == [b];
    HeadersOne(mem, b, a.at);
  }

  // ---------------------------------------------------------------- the lowest-free hint

  /**
   `lfree` is not above any free block, and it points to a free block or to the end.  While
   mem_malloc is still adjusting it, it may also point to the block being handed out, which
   starts at `inflight`; otherwise `inflight` is -1.
   */
  ghost predicate HintOk(bs: seq<Block>, size: nat, lfree: nat, inflight: int) {
    && (forall k | 0 <= k < |bs| && !bs[k].used :: lfree <= bs[k].at)
    && (lfree == size || exists k :: 0 <= k < |bs| && bs[k].at == lfree && (!bs[k].used || lfree == inflight))
  }

  lemma HintIsLowestFree(bs: seq<Block>, size: nat, lfree: nat)
    requires Tiles(bs, 0, size)
    ensures HintOk(bs, size, lfree, -1) <==> lfree == LowestFree(bs, size)
  {
    Ordered(bs, 0, size);
    var f := FirstFree(bs);
    if f < |bs| {
      assert !bs[f].used;
    }
    if lfree == LowestFree(bs, size) && f < |bs| {
      assert bs[f].at == lfree;
    }
  }

  /** `now` is where the block that contains the address `was` begins. */
  ghost predicate Tracks(bs: seq<Block>, size: nat, was: nat, now: nat) {
    if was == size then now == size
    else exists k :: 0 <= k < |bs| && bs[k].at == now && bs[k].Contains(was)
  }

  /** Index in the merged list of the block that took over block k. */
  function Survivor(k: nat, i: nat): nat {
    if k <= i then k else k - 1
  }

  lemma MergedAt(bs: seq<Block>, size: nat, i: nat, k: nat)
    requires Tiles(bs, 0, size) && i + 1 < |bs| && k < |bs|
    ensures var c := Merge(bs, i)[Survivor(k, i)];
            && c == (if k == i || k == i + 1 then Block(bs[i].at, bs[i + 1].next, false) else bs[k])
            && c.at <= bs[k].at && bs[k].next <= c.next
  {
    Ordered(bs, 0, size);
  }

  lemma MergeTracks(bs: seq<Block>, size: nat, i: nat, was: nat, l: nat)
    requires Tiles(bs, 0, size) && i + 1 < |bs|
    requires Tracks(bs, size, was, l) && was <= size
    ensures Tracks(Merge(bs, i), size, was, if l == bs[i + 1].at then bs[i].at else l)
  {
    if was == size {
      Bounds(bs, size, i + 1);
    } else {
      var k :| 0 <= k < |bs| && bs[k].at == l && bs[k].Contains(was);
      MergedAt(bs, size, i, k);
      assert k != i + 1 ==> l != bs[i + 1].at by { Ordered(bs, 0, size); }
      assert Merge(bs, i)[Survivor(k, i)].Contains(was);
    }
  }

  lemma MergeHint(bs: seq<Block>, size: nat, i: nat, l: nat, x: int)
    requires Tiles(bs, 0, size) && i + 1 < |bs| && !bs[i].used && !bs[i + 1].used
    requires HintOk(bs, size, l, x)
    ensures HintOk(Merge(bs, i), size, if l == bs[i + 1].at then bs[i].at else l, x)
  {
    var cs := Merge(bs, i);
    assert l <= bs[i].at < bs[i + 1].at by { Bounds(bs, size, i); }
    forall n | 0 <= n < |cs| && !cs[n].used ensures l <= cs[n].at {
      MergedAt(bs, size, i, if n <= i then n else n + 1);
    }
    if l != size {
      var k :| 0 <= k < |bs| && bs[k].at == l && (!bs[k].used || l == x);
      MergedAt(bs, size, i, k);
      assert cs[Survivor(k, i)].at == l;
    }
  }

  /** Freeing a block lowers the hint to it if need be. */
  lemma MarkFreeHint(bs: seq<Block>, size: nat, i: nat, l: nat, x: int)
    requires Tiles(bs, 0, size) && i < |bs| && bs[i].used && bs[i].at != x
    requires HintOk(bs, size, l, x)
    ensures HintOk(MarkFree(bs, i), size, if bs[i].at < l then bs[i].at else l, x)
  {
    var cs := MarkFree(bs, i);
    if bs[i].at < l {
      assert cs[i].at == bs[i].at && !cs[i].used;
    } else if l != size {
      var k :| 0 <= k < |bs| && bs[k].at == l && (!bs[k].used || l == x);
      assert cs[k].at == l && (!cs[k].used || l == x);
    } else {
      Bounds(bs, size, i);
    }
  }

  lemma HintTracks(bs: seq<Block>, size: nat, l: nat, x: int)
    requires Tiles(bs, 0, size) && HintOk(bs, size, l, x)
    ensures Tracks(bs, size, l, l) && l <= size
  {
    if l != size {
      var k :| 0 <= k < |bs| && bs[k].at == l && (!bs[k].used || l == x);
      Bounds(bs, size, k);
    }
  }

  /** Taking block i cuts it in two, or not. */
  function Cuts(bs: seq<Block>, i: nat, want: nat): (n: nat)
    requires i < |bs|
    ensures n <= 1 && |Take(bs, i, want)| == |bs| + n
  {
    |Take(bs, i, want)| - |bs|
  }

  /** Where the other blocks are afterwards. */
  lemma TakeShifts(bs: seq<Block>, i: nat, want: nat, k: nat)
    requires i < |bs| && k < |bs|
    ensures var cs := Take(bs, i, want);
            && Cuts(bs, i, want) <= 1
            && (k < i ==> cs[k] == bs[k])
            && (k > i ==> cs[k + Cuts(bs, i, want)] == bs[k])
            && cs[i].used && cs[i].at == bs[i].at
            && (Cuts(bs, i, want) == 1 ==> cs[i + 1].at >= bs[i].at)
  {
  }

  /** Taking a block leaves the hint on it at worst. */
  lemma TakeHint(bs: seq<Block>, size: nat, i: nat, want: nat, l: nat)
    requires Tiles(bs, 0, size) && i < |bs| && !bs[i].used && HintOk(bs, size, l, -1)
    ensures HintOk(Take(bs, i, want), size, l, bs[i].at)
  {
    hide Take, Tiles, Cuts;
    var cs, more := Take(bs, i, want), Cuts(bs, i, want);
    TakeShifts(bs, i, want, i);
    forall n | 0 <= n < |cs| && !cs[n].used ensures l <= cs[n].at {
      if n < i {
        TakeShifts(bs, i, want, n);
      } else if n > i + more {
        TakeShifts(bs, i, want, n - more);
      }
    }
    if l != size {
      var k :| 0 <= k < |bs| && bs[k].at == l && !bs[k].used;
      TakeShifts(bs, i, want, k);
      assert cs[if k > i then k + more else k].at == l;
    }
  }

  /** Where mem_trim leaves the hint. */
  function TrimmedHint(bs: seq<Block>, i: nat, want: nat, l: nat): nat
    requires i < |bs|
  {
    var cut := bs[i].at + HEADER + want;
    if i + 1 < |bs| && !bs[i + 1].used then (if l == bs[i + 1].at then cut else l)
    else if want + HEADER + MIN_DATA <= bs[i].DataSize() && cut < l then cut
    else l
  }

  lemma ShrinkHint(bs: seq<Block>, size: nat, i: nat, want: nat, l: nat)
    requires Tiles(bs, 0, size) && i < |bs| && bs[i].used && want < bs[i].DataSize() && HintOk(bs, size, l, -1)
    ensures HintOk(Shrink(bs, i, want), size, TrimmedHint(bs, i, want, l), -1)
  {
    hide Tiles, HintOk, Shrink;
    var b := bs[i];
    var cut := b.at + HEADER + want;
    ShrinkMoves(bs, i, want);
    if i + 1 < |bs| && !bs[i + 1].used {
      Bounds(bs, size, i);
      MovedHint(bs, size, i, cut, l);
    } else if want + HEADER + MIN_DATA <= b.DataSize() {
      CutOffHint(bs, size, i, cut, l);
    }
  }

  lemma ShrinkMoves(bs: seq<Block>, i: nat, want: nat)
    requires i < |bs| && want < bs[i].DataSize()
    ensures var cut := bs[i].at + HEADER + want; var t := Block(bs[i].at, cut, true);
            Shrink(bs, i, want) ==
            if i + 1 < |bs| && !bs[i + 1].used then bs[..i] + [t, Block(cut, bs[i + 1].next, false)] + bs[i + 2..]
            else if want + HEADER + MIN_DATA <= bs[i].DataSize() then bs[..i] + [t, Block(cut, bs[i].next, false)] + bs[i + 1..]
            else bs
  {
  }

  lemma MovedHint(bs: seq<Block>, size: nat, i: nat, cut: nat, l: nat)
    requires Tiles(bs, 0, size) && i + 1 < |bs| && bs[i].used && !bs[i + 1].used && HintOk(bs, size, l, -1)
    requires bs[i].at <= cut < bs[i + 1].at
    ensures HintOk(bs[..i] + [Block(bs[i].at, cut, true), Block(cut, bs[i + 1].next, false)] + bs[i + 2..], size,
                   if l == bs[i + 1].at then cut else l, -1)
  {
    hide Tiles;
    var cs := bs[..i] + [Block(bs[i].at, cut, true), Block(cut, bs[i + 1].next, false)] + bs[i + 2..];
    Bounds(bs, size, i + 1);
    var k: nat :| k < |bs| && bs[k].at == l && !bs[k].used;
    assert k != i + 1 ==> l != bs[i + 1].at && l <= cut by { Ordered(bs, 0, size); }
    assert cs[k].at == (if l == bs[i + 1].at then cut else l) && !cs[k].used;
    forall n | 0 <= n < |cs| && !cs[n].used ensures (if l == bs[i + 1].at then cut else l) <= cs[n].at {
      if n != i + 1 {
        assert cs[n] == bs[n];
      }
    }
  }

  lemma CutOffHint(bs: seq<Block>, size: nat, i: nat, cut: nat, l: nat)
    requires Tiles(bs, 0, size) && i < |bs| && bs[i].used && HintOk(bs, size, l, -1)
    requires bs[i].at <= cut < bs[i].next
    ensures HintOk(bs[..i] + [Block(bs[i].at, cut, true), Block(cut, bs[i].next, false)] + bs[i + 1..], size,
                   if cut < l then cut else l, -1)
  {
    hide Tiles;
    var cs := bs[..i] + [Block(bs[i].at, cut, true), Block(cut, bs[i].next, false)] + bs[i + 1..];
    var l' := if cut < l then cut else l;
    forall n | 0 <= n < |cs| && !cs[n].used ensures l' <= cs[n].at {
      if n != i + 1 {
        assert cs[n] == bs[if n < i then n else n - 1];
      }
    }
    if cut < l {
      assert cs[i + 1].at == cut && !cs[i + 1].used;
    } else if l != size {
      var k: nat :| k < |bs| && bs[k].at == l && !bs[k].used;
      assert cs[if k < i then k else k + 1] == bs[k];
    }
  }

  /** Once everything below `cur` is in use, `cur` is the exact hint if it is free or the end. */
  lemma ScannedHint(bs: seq<Block>, size: nat, k: nat)
    requires Tiles(bs, 0, size) && k <= |bs|
    requires forall j | 0 <= j < k :: bs[j].used
    requires k < |bs| ==> !bs[k].used
    ensures HintOk(bs, size, if k < |bs| then bs[k].at else size, -1)
  {
    Ordered(bs, 0, size);
  }

  /** The block or end the hint names; everything below it is in use. */
  lemma HintIndex(bs: seq<Block>, size: nat, l: nat, x: int) returns (k: nat)
    requires Tiles(bs, 0, size) && HintOk(bs, size, l, x)
    ensures k <= |bs| && l == (if k < |bs| then bs[k].at else size)
    ensures forall j | 0 <= j < k :: bs[j].used
  {
    Ordered(bs, 0, size);
    k := |bs|;
    if l != size {
      k :| 0 <= k < |bs| && bs[k].at == l && (!bs[k].used || l == x);
    }
  }

  /** A hint that has left the block in hand is exact again. */
  lemma HintMoved(bs: seq<Block>, size: nat, l: nat, x: int)
    requires HintOk(bs, size, l, x) && l != x
    ensures HintOk(bs, size, l, -1)
  {
  }

  // ---------------------------------------------------------------- live blocks by offset

  /** A used block starts at this offset. */
  predicate LiveAt(bs: seq<Block>, at: int) {
    var i := IndexOf(bs, at);
    i < |bs| && bs[i].used
  }

  lemma LiveIff(bs: seq<Block>, size: nat, at: int)
    requires Tiles(bs, 0, size)
    ensures LiveAt(bs, at) <==> exists b :: b in UsedSet(bs) && b.at == at
    ensures LiveAt(bs, at) ==> bs[IndexOf(bs, at)] in UsedSet(bs)
  {
    var i := IndexOf(bs, at);
    if i < |bs| {
      UsedSetMembers(bs, bs[i]);
    }
    if b :| b in UsedSet(bs) && b.at == at {
      var k := BlockIndex(bs, b);
      IndexOfBlock(bs, 0, size, k);
    }
  }
}
