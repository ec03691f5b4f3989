/**
 Whole runs of the heap of mem.c: sequences of mem_malloc, mem_free and mem_trim from
 mem_init on, with no other context freeing in between.
 */
module HeapRuns {
  import opened HeapBlocks
  import opened HeapMemory
  import opened Heap

  /** One call, given the data offset of a block, or a write of a block's owner to a word of its data. */
  datatype Op = Malloc(size: Word) | Free(p: int) | Trim(p: int, size: Word) | Store(p: int, a: nat, v: Word)

  /** The callers' side of the contract: what is freed, trimmed or written is a live block. */
  predicate Legal(bs: seq<Block>, op: Op) {
    && (op.Malloc? || LiveAt(bs, op.p - HEADER))
    && (op.Store? ==> op.a % 4 == 0 && op.p <= op.a < bs[IndexOf(bs, op.p - HEADER)].next)
  }

  function Step(bs: seq<Block>, size: nat, op: Op): seq<Block>
    requires Legal(bs, op)
  {
    match op
    case Malloc(n) =>
      var i := FirstFit(bs, RequestSize(n));
      if n == 0 || TooLarge(n, size) || i == |bs| then bs else Take(bs, i, RequestSize(n))
    case Free(p) =>
      Release(bs, IndexOf(bs, p - HEADER))
    case Trim(p, n) =>
      var i := IndexOf(bs, p - HEADER);
      if TooLarge(n, size) || RequestSize(n) > bs[i].DataSize() then bs else Shrink(bs, i, RequestSize(n))
    case Store(_, _, _) => bs
  }

  predicate LegalRun(bs: seq<Block>, size: nat, ops: seq<Op>)
    decreases |ops|
  {
    ops != [] ==> Legal(bs, ops[0]) && LegalRun(Step(bs, size, ops[0]), size, ops[1..])
  }

  function Run(bs: seq<Block>, size: nat, ops: seq<Op>): seq<Block>
    requires LegalRun(bs, size, ops)
    decreases |ops|
  {
    hide Take, Release, Shrink, FirstFit, IndexOf;
    if ops == [] then bs else Run(Step(bs, size, ops[0]), size, ops[1..])
  }

  /** The state mem_init sets up. */
  function Fresh(size: nat): seq<Block> { [Block(0, size, false)] }

  lemma FreshIsWellFormed(size: nat)
    requires size >= HEADER + MIN_DATA
    ensures WellFormed(Fresh(size), size) && UsedSet(Fresh(size)) == {}
  {
    TilesOne(Block(0, size, false));
    UsedOne(Block(0, size, false));
  }

  lemma StepKeeps(bs: seq<Block>, size: nat, op: Op)
    requires WellFormed(bs, size) && Legal(bs, op)
    ensures WellFormed(Step(bs, size, op), size)
  {
    hide Tiles, UsedSet, UsedBytes, Coalesced;
    match op
    case Malloc(n) =>
      var i := FirstFit(bs, RequestSize(n));
      if i < |bs| {
        TakeKeeps(bs, size, i, RequestSize(n));
      }
    case Free(p) =>
      ReleaseKeeps(bs, size, IndexOf(bs, p - HEADER));
    case Trim(p, n) =>
      var i := IndexOf(bs, p - HEADER);
      if RequestSize(n) <= bs[i].DataSize() {
        ShrinkKeeps(bs, size, i, RequestSize(n));
      }
    case Store(_, _, _) =>
  }

  /** Every run leaves blocks that tile the heap exactly, with no two free neighbours. */
  lemma {:induction false} RunKeeps(bs: seq<Block>, size: nat, ops: seq<Op>)
    requires WellFormed(bs, size) && LegalRun(bs, size, ops)
    ensures WellFormed(Run(bs, size, ops), size)
    decreases |ops|
  {
    if ops != [] {
      StepKeeps(bs, size, ops[0]);
      RunKeeps(Step(bs, size, ops[0]), size, ops[1..]);
    }
  }

  /**
   Two runs that leave the callers with the same blocks leave the same heap, whatever the
   two histories were; in particular, a run that gives everything back ends where it began.
   */
  lemma HistoryLeavesNoTrace(size: nat, xs: seq<Op>, ys: seq<Op>)
    requires size >= HEADER + MIN_DATA
    requires LegalRun(Fresh(size), size, xs) && LegalRun(Fresh(size), size, ys)
    requires UsedSet(Run(Fresh(size), size, xs)) == UsedSet(Run(Fresh(size), size, ys))
    ensures Run(Fresh(size), size, xs) == Run(Fresh(size), size, ys)
  {
    FreshIsWellFormed(size);
    RunKeeps(Fresh(size), size, xs);
    RunKeeps(Fresh(size), size, ys);
    UsedBlocksDetermineHeap(Run(Fresh(size), size, xs), Run(Fresh(size), size, ys), 0, size);
  }

  /** Freeing the live blocks among the listed data offsets, in the order listed. */
  function FreeAll(bs: seq<Block>, order: seq<int>): seq<Block>
    decreases |order|
  {
    if order == [] then bs
    else FreeAll(if LiveAt(bs, order[0] - HEADER) then Step(bs, 0, Free(order[0])) else bs, order[1..])
  }

  lemma FreeKeeps(bs: seq<Block>, size: nat, p: int)
    requires WellFormed(bs, size)
    ensures var cs := if LiveAt(bs, p - HEADER) then Step(bs, 0, Free(p)) else bs;
            WellFormed(cs, size) && UsedSet(cs) == Without(UsedSet(bs), {p})
  {
    hide Tiles, UsedSet, UsedBytes, Coalesced, Release, LiveAt;
    LiveIff(bs, size, p - HEADER);
    if LiveAt(bs, p - HEADER) {
      var i := IndexOf(bs, p - HEADER);
      LiveIndex(bs, p);
      ReleaseKeeps(bs, size, i);
      forall b | b in UsedSet(bs) && b.at + HEADER == p ensures b == bs[i] {
        UsedSetMembers(bs, bs[i]);
        LiveBlocksAreDisjoint(bs, size, b, bs[i]);
        LiveBlocksAreDisjoint(bs, size, bs[i], b);
      }
    }
  }

  lemma LiveIndex(bs: seq<Block>, p: int)
    requires LiveAt(bs, p - HEADER)
    ensures var i := IndexOf(bs, p - HEADER); i < |bs| && bs[i].used && bs[i].at + HEADER == p
  {
  }

  lemma {:induction false} FreeAllKeeps(bs: seq<Block>, size: nat, order: seq<int>)
    requires WellFormed(bs, size)
    ensures WellFormed(FreeAll(bs, order), size)
    ensures UsedSet(FreeAll(bs, order)) == Without(UsedSet(bs), set p | p in order)
    decreases |order|
  {
    hide Tiles, UsedSet, Coalesced, Step, LiveAt;
    if order != [] {
      FreeKeeps(bs, size, order[0]);
      FreeAllKeeps(if LiveAt(bs, order[0] - HEADER) then Step(bs, 0, Free(order[0])) else bs, size, order[1..]);
      assert (set p | p in order) == {order[0]} + set p | p in order[1..];
    }
  }

  /** Freeing every live block, in any order, ends in the one free block of mem_init. */
  lemma FreeAllRestoresFresh(bs: seq<Block>, size: nat, order: seq<int>)
    requires WellFormed(bs, size) && size >= HEADER + MIN_DATA
    requires forall b | b in UsedSet(bs) :: b.at + HEADER in order
    ensures FreeAll(bs, order) == Fresh(size)
  {
    FreeAllKeeps(bs, size, order);
    FreshIsWellFormed(size);
    UsedBlocksDetermineHeap(FreeAll(bs, order), Fresh(size), 0, size);
  }

  /** The sizes MEM_SIZE_ALIGNED may have. */
  predicate SizeOk(size: nat) { size % 4 == 0 && 24 <= size <= 0x8000_0000 }

  /** The block b has n bytes of data, rounded up, and less than a minimal block besides. */
  predicate Holds(b: Block, n: Word) {
    n <= b.next - b.at - 12 < (if n <= 12 then 12 else n + 4) + 24
  }

  /**
   First fit: mem_malloc fails exactly when the request is empty or no free block has so many
   bytes; otherwise the new block begins where the lowest such block does.
   */
  lemma MallocIsLowestFit(bs: seq<Block>, size: nat, n: Word)
    requires WellFormed(bs, size) && SizeOk(size)
    ensures Step(bs, size, Malloc(n)) == bs <==> n == 0 || forall b | b in bs && !b.used :: b.next - b.at - 12 < n
    ensures Step(bs, size, Malloc(n)) != bs ==>
              exists b, c :: b !in UsedSet(bs) && UsedSet(Step(bs, size, Malloc(n))) == UsedSet(bs) + {b} && Holds(b, n)
                             && c in bs && b.at == c.at && !c.used && n <= c.next - c.at - 12
                             && forall d | d in bs && !d.used && n <= d.next - d.at - 12 :: c.at <= d.at
  {
    hide Tiles, UsedSet, UsedBytes, Coalesced, TooLarge, RequestSize;
    var want := RequestSize(n);
    var i := FirstFit(bs, want);
    FailsIff(bs, size, n);
    RoomIn(bs, n);
    if n != 0 && !TooLarge(n, size) && i < |bs| {
      var b := Taken(bs, i, want);
      TakeKeeps(bs, size, i, want);
      NotLive(bs, size, i, b);
      assert bs[i] in bs && Fits(bs[i], want) && bs[i].at == b.at && Holds(b, n);
      LowestFit(bs, size, n);
      assert UsedSet(Take(bs, i, want)) != UsedSet(bs);
    }
  }

  lemma LowestFit(bs: seq<Block>, size: nat, n: Word)
    requires Tiles(bs, 0, size) && SizeOk(size) && FirstFit(bs, RequestSize(n)) < |bs|
    ensures forall d | d in bs && !d.used && n <= d.next - d.at - 12 :: bs[FirstFit(bs, RequestSize(n))].at <= d.at
  {
    hide Tiles, RequestSize, FirstFit;
    var i := FirstFit(bs, RequestSize(n));
    forall d | d in bs && !d.used && n <= d.next - d.at - 12 ensures bs[i].at <= d.at {
      var k :| 0 <= k < |bs| && bs[k] == d;
      Rounded(bs, size, n, k);
      assert i <= k;
      if i < k {
        Ordered(bs, 0, size);
      }
    }
  }

  lemma RoomIn(bs: seq<Block>, n: Word)
    ensures NoRoomFor(bs, n) <==> forall b | b in bs && !b.used :: b.next - b.at - 12 < n
  {
    if forall b | b in bs && !b.used :: b.next - b.at - 12 < n {
      forall i | 0 <= i < |bs| && !bs[i].used ensures bs[i].next - bs[i].at - 12 < n {
        assert bs[i] in bs;
      }
    }
  }

  /** Data sizes are multiples of four, so that rounding a request up changes nothing. */
  lemma Rounded(bs: seq<Block>, size: nat, n: Word, k: nat)
    requires Tiles(bs, 0, size) && SizeOk(size) && k < |bs|
    ensures n <= bs[k].DataSize() ==> RequestSize(n) <= bs[k].DataSize()
    ensures RequestSize(n) <= bs[k].DataSize() && n <= size ==> n <= bs[k].DataSize()
  {
    hide Tiles, RequestSize;
    Ordered(bs, 0, size);
    assert bs[k].next == if k + 1 < |bs| then bs[k + 1].at else size;
  }

  /**
   mem_trim asks for no more than the block has, or leaves everything as it is.  It keeps the
   bytes asked for, and gives the rest back: all of it if a free block follows, else if it is
   enough for a block.
   */
  lemma TrimGivesBack(bs: seq<Block>, size: nat, p: int, n: Word) returns (c: Block)
    requires WellFormed(bs, size) && SizeOk(size) && LiveAt(bs, p - HEADER)
    ensures var i, cs := IndexOf(bs, p - HEADER), Step(bs, size, Trim(p, n));
            && i < |bs|
            && (n > bs[i].next - bs[i].at - 12 ==> cs == bs)
            && (n <= bs[i].next - bs[i].at - 12 ==>
                  && UsedSet(cs) == UsedSet(bs) - {bs[i]} + {c} && c.at == bs[i].at && c.used && Holds(c, n)
                  && (i + 1 < |bs| && !bs[i + 1].used ==> c.next - c.at - 12 < if n <= 12 then 16 else n + 4))
  {
    hide Tiles, UsedSet, UsedBytes, Coalesced, TooLarge, RequestSize, Shrink, Shrunk, LiveAt, Holds;
    LiveIndex(bs, p);
    var i, want := IndexOf(bs, p - HEADER), RequestSize(n);
    Rounded(bs, size, n, i);
    Bounds(bs, size, i);
    c := bs[i];
    if n <= bs[i].next - bs[i].at - 12 {
      c := Shrunk(bs, i, want);
      ShrinkKeeps(bs, size, i, want);
      ShrunkHolds(bs, i, n);
    } else {
      assert TooLarge(n, size) || want > bs[i].DataSize();
    }
  }

  lemma ShrunkHolds(bs: seq<Block>, i: nat, n: Word)
    requires i < |bs| && bs[i].used && n <= RequestSize(n) <= bs[i].DataSize()
    ensures var c := Shrunk(bs, i, RequestSize(n));
            && Holds(c, n) && c.used && c.at == bs[i].at
            && (i + 1 < |bs| && !bs[i + 1].used ==> c.next - c.at - 12 < if n <= 12 then 16 else n + 4)
  {
    hide RequestSize, Shrunk;
  }

  /** The live blocks that a call is not about. */
  function NotAbout(bs: seq<Block>, op: Op): set<Block>
    requires Legal(bs, op)
  {
    if op.Malloc? then UsedSet(bs) else UsedSet(bs) - {bs[IndexOf(bs, op.p - HEADER)]}
  }

  lemma NotAboutIs(bs: seq<Block>, op: Op)
    requires Legal(bs, op)
    ensures op.Malloc? ==> NotAbout(bs, op) == UsedSet(bs)
    ensures !op.Malloc? ==> IndexOf(bs, op.p - HEADER) < |bs| && NotAbout(bs, op) == UsedSet(bs) - {bs[IndexOf(bs, op.p - HEADER)]}
  {
  }

  /** One call on the word array. */
  method Call(h: Heap, op: Op)
    requires h.Valid() && !h.allowOther && h.others == {}
    requires Legal(h.blocks, op)
    modifies h, h.ram
    ensures h.Valid() && h.others == {}
    ensures h.blocks == Step(old(h.blocks), h.size, op)
    ensures DataKept(old(h.ram[..]), h.ram[..], NotAbout(old(h.blocks), op))
  {
    hide Tiles, UsedSet, UsedBytes, Coalesced, RequestSize, FirstFit, Take, Shrink, Release, IndexOf, DataKept, TooLarge, Without, NotAbout, HintOk;
    NotAboutIs(h.blocks, op);
    DataKeptSame(h.ram[..], NotAbout(h.blocks, op));
    AllKept(UsedSet(h.blocks));
    match op {
      case Malloc(n) =>
        var r, d, i, gone := h.MemMalloc(n);
        assert old(h.others) - h.others == {};
      case Free(p) =>
        h.LiveIsNotRefused(p, -1);
        h.MemFree(At(p));
      case Trim(p, n) =>
        h.InsideHeap(p);
        var r := h.MemTrim(At(p), n);
      case Store(p, a, v) =>
        h.Store(p, a, v);
    }
  }

  lemma AllKept(live: set<Block>)
    ensures Without(live, {}) == live
  {
  }

  /** The code on the word array, run call by call, follows the block list through every legal run. */
  method Replay(h: Heap, ops: seq<Op>)
    requires h.Valid() && !h.allowOther && h.others == {}
    requires LegalRun(h.blocks, h.size, ops)
    modifies h, h.ram
    ensures h.Valid() && h.others == {}
    ensures h.blocks == Run(old(h.blocks), h.size, ops)
  {
    hide Step, Legal;
    var k := 0;
    while k < |ops|
      invariant k <= |ops|
      invariant h.Valid() && h.others == {}
      invariant LegalRun(h.blocks, h.size, ops[k..])
      invariant Run(h.blocks, h.size, ops[k..]) == Run(old(h.blocks), h.size, ops)
    {
      ghost var rest := ops[k..];
      assert rest[0] == ops[k] && rest[1..] == ops[k + 1..];
      Call(h, ops[k]);
      k := k + 1;
    }
  }

  /** mem_free of a block just returned by mem_malloc restores the blocks, `lfree` and the count. */
  method MallocThenFree(h: Heap, n: Word) returns (r: Pointer)
    requires h.Valid() && !h.allowOther && h.others == {}
    modifies h, h.ram
    ensures h.Valid() && h.blocks == old(h.blocks) && h.lfree == old(h.lfree) && h.statUsed == old(h.statUsed)
    ensures r.At? ==> DataKept(old(h.ram[..]), h.ram[..], UsedSet(h.blocks))
  {
    hide Tiles, UsedSet, UsedBytes, Coalesced, RequestSize, FirstFit, Take, Release, IndexOf, Headers, Header, HintOk, DataKept, LiveAt;
    ghost var bs, m0 := h.blocks, h.ram[..];
    h.HintIsExact();
    ghost var d, i, gone;
    r, d, i, gone := h.MemMalloc(n);
    if r.Null? {
      h.HintIsExact();
      return;
    }
    ghost var m1 := h.ram[..];
    assert old(h.others) - h.others == {};
    GivenBack(h, bs, i, RequestSize(n));
    h.MemFree(r);
    h.HintIsExact();
    DataKeptTrans(m0, m1, h.ram[..], Without(UsedSet(bs), {}), UsedSet(h.blocks), UsedSet(h.blocks));
  }

  /** The block just handed out is live, and freeing it undoes the allocation. */
  lemma GivenBack(h: Heap, bs: seq<Block>, i: nat, want: nat)
    requires h.Valid() && WellFormed(bs, h.size) && i < |bs| && Fits(bs[i], want) && want >= MIN_DATA && want % 4 == 0
    requires h.blocks == Take(bs, i, want)
    ensures var p := Taken(bs, i, want).at + HEADER;
            && LiveAt(h.blocks, p - HEADER) && !h.Refuses(At(p)) && IndexOf(h.blocks, p - HEADER) == i
            && i < |h.blocks| && Release(h.blocks, i) == bs
    ensures Without(UsedSet(bs), {}) == UsedSet(bs)
  {
    hide Tiles, UsedSet, UsedBytes, Coalesced, Take, Release, Headers, Header, HintOk;
    var b := Taken(bs, i, want);
    MallocThenFreeIsIdentity(bs, h.size, i, want);
    IndexOfBlock(h.blocks, 0, h.size, i);
    assert LiveAt(h.blocks, b.at);
    h.LiveIsNotRefused(b.at + HEADER, -1);
  }

  /** The order names every live block once. */
  predicate EachOnce(bs: seq<Block>, order: seq<int>) {
    && (forall j, k | 0 <= j < k < |order| :: order[j] != order[k])
    && (forall p | p in order :: LiveAt(bs, p - HEADER))
    && (forall b | b in UsedSet(bs) :: b.at + HEADER in order)
  }

  function Named(order: seq<int>): set<int> {
    set p | p in order
  }

  lemma NamedOne(order: seq<int>, k: nat)
    requires k < |order|
    ensures Named(order[..k + 1]) == Named(order[..k]) + {order[k]}
  {
    assert order[..k + 1] == order[..k] + [order[k]];
  }

  /** A block that is named later is still live. */
  lemma StillToFree(bs: seq<Block>, cs: seq<Block>, size: nat, order: seq<int>, k: nat)
    requires Tiles(bs, 0, size) && Tiles(cs, 0, size) && EachOnce(bs, order) && k < |order|
    requires UsedSet(cs) == Without(UsedSet(bs), Named(order[..k]))
    ensures LiveAt(cs, order[k] - HEADER)
  {
    hide Tiles, UsedSet, LiveAt;
    var p := order[k];
    assert p in order && p !in Named(order[..k]);
    LiveIff(bs, size, p - HEADER);
    LiveIff(cs, size, p - HEADER);
    assert LiveAt(bs, p - HEADER);
    var b :| b in UsedSet(bs) && b.at == p - HEADER;
    assert b in UsedSet(cs);
  }

  lemma OneMoreFreed(bs: seq<Block>, cs: seq<Block>, size: nat, order: seq<int>, k: nat)
    requires WellFormed(cs, size) && k < |order| && LiveAt(cs, order[k] - HEADER)
    requires UsedSet(cs) == Without(UsedSet(bs), Named(order[..k]))
    ensures UsedSet(Step(cs, size, Free(order[k]))) == Without(UsedSet(bs), Named(order[..k + 1]))
  {
    hide Tiles, UsedSet, Coalesced, Release, LiveAt;
    FreeKeeps(cs, size, order[k]);
    NamedOne(order, k);
  }

  lemma AllFreed(bs: seq<Block>, cs: seq<Block>, size: nat, order: seq<int>)
    requires EachOnce(bs, order) && WellFormed(cs, size) && size >= HEADER + MIN_DATA
    requires UsedSet(cs) == Without(UsedSet(bs), Named(order))
    ensures cs == Fresh(size) && LowestFree(cs, size) == 0 && UsedBytes(cs) == 0
  {
    hide Tiles, UsedSet, Coalesced, LiveAt;
    FreshIsWellFormed(size);
    assert UsedSet(cs) == {};
    UsedBlocksDetermineHeap(cs, Fresh(size), 0, size);
    UsedOne(Block(0, size, false));
  }

  /** On the word array: freeing every live block once, in any order, ends in the state of mem_init. */
  method FreeEverything(h: Heap, order: seq<int>)
    requires h.Valid() && !h.allowOther && h.others == {} && EachOnce(h.blocks, order)
    modifies h, h.ram
    ensures h.Valid() && h.blocks == Fresh(h.size) && h.lfree == 0 && h.statUsed == 0
  {
    hide Tiles, UsedSet, UsedBytes, Coalesced, LiveAt, Step, EachOnce, Headers, Header, HintOk, Without, LowestFree;
    ghost var bs := h.blocks;
    NoneFreed(UsedSet(bs), order);
    for k := 0 to |order|
      invariant h.Valid() && h.others == {}
      invariant UsedSet(h.blocks) == Without(UsedSet(bs), Named(order[..k]))
    {
      StillToFree(bs, h.blocks, h.size, order, k);
      OneMoreFreed(bs, h.blocks, h.size, order, k);
      Call(h, Free(order[k]));
    }
    assert order[..|order|] == order;
    AllFreed(bs, h.blocks, h.size, order);
    h.HintIsExact();
  }

  lemma NoneFreed(live: set<Block>, order: seq<int>)
    ensures live == Without(live, Named(order[..0]))
  {
  }

  // ---------------------------------------------------------------- what owners write

  /** No call of the run is about the block with this data offset. */
  predicate Elsewhere(ops: seq<Op>, p: int) {
    forall k | 0 <= k < |ops| :: ops[k].Malloc? || ops[k].p != p
  }

  /** A block stays live until a call is about it. */
  lemma StaysLive(bs: seq<Block>, size: nat, op: Op, b: Block)
    requires WellFormed(bs, size) && Legal(bs, op) && b in UsedSet(bs) && (op.Malloc? || op.p != b.at + HEADER)
    ensures b in NotAbout(bs, op) && b in UsedSet(Step(bs, size, op))
  {
    hide Tiles, UsedSet, UsedBytes, Coalesced, LiveAt;
    if op.Malloc? {
      var i := FirstFit(bs, RequestSize(op.size));
      if i < |bs| {
        TakeKeeps(bs, size, i, RequestSize(op.size));
      }
    } else {
      LiveIndex(bs, op.p);
      var i := IndexOf(bs, op.p - HEADER);
      if op.Free? {
        ReleaseKeeps(bs, size, i);
      } else if op.Trim? && RequestSize(op.size) <= bs[i].DataSize() {
        ShrinkKeeps(bs, size, i, RequestSize(op.size));
      }
    }
  }

  lemma WordKept(m0: seq<Word>, m1: seq<Word>, live: set<Block>, b: Block, a: nat)
    requires DataKept(m0, m1, live) && b in live && b.at + HEADER <= a < b.next && a < |m0|
    ensures a < |m1| && m1[a] == m0[a]
  {
  }

  /** What an owner writes into its block is still there after any run of calls about other blocks. */
  method StoredStays(h: Heap, p: int, a: nat, v: Word, ops: seq<Op>)
    requires h.Valid() && !h.allowOther && h.others == {}
    requires Legal(h.blocks, Store(p, a, v)) && LegalRun(h.blocks, h.size, ops) && Elsewhere(ops, p)
    modifies h, h.ram
    ensures h.Valid() && h.blocks == Run(old(h.blocks), h.size, ops)
    ensures a < h.ram.Length && h.ram[a] == v
  {
    hide Step, Legal, DataKept, UsedSet, NotAbout, LiveAt, IndexOf;
    ghost var b := OwnBlock(h, p, a, v);
    h.Store(p, a, v);
    var k := 0;
    while k < |ops|
      invariant k <= |ops|
      invariant h.Valid() && h.others == {}
      invariant LegalRun(h.blocks, h.size, ops[k..])
      invariant Run(h.blocks, h.size, ops[k..]) == Run(old(h.blocks), h.size, ops)
      invariant b in UsedSet(h.blocks) && a < h.ram.Length && h.ram[a] == v
    {
      ghost var rest, bs, m := ops[k..], h.blocks, h.ram[..];
      assert rest[0] == ops[k] && rest[1..] == ops[k + 1..];
      StaysLive(bs, h.size, ops[k], b);
      Call(h, ops[k]);
      WordKept(m, h.ram[..], NotAbout(bs, ops[k]), b, a);
      k := k + 1;
    }
  }

  lemma OwnBlock(h: Heap, p: int, a: nat, v: Word) returns (b: Block)
    requires h.Valid() && Legal(h.blocks, Store(p, a, v))
    ensures LiveAt(h.blocks, p - HEADER) && a % 4 == 0 && p <= a < h.blocks[IndexOf(h.blocks, p - HEADER)].next
    ensures b in UsedSet(h.blocks) && b.at + HEADER == p && p <= a < b.next
  {
    hide UsedSet, Tiles;
    LiveIff(h.blocks, h.size, p - HEADER);
    b := h.blocks[IndexOf(h.blocks, p - HEADER)];
  }
}
