/**
 The custom heap of mem.c: mem_init, mem_malloc, mem_free, mem_trim and mem_sanity as
 methods that rewrite block headers in place in one array of words.
 */
module Heap {
  import opened HeapBlocks
  import opened HeapMemory

  /** A data pointer, as a distance from `ram`; it need not lie inside the heap. */
  datatype Pointer = Null | At(offset: int)

  /** LWIP_MEM_ALIGN_SIZE for four-byte alignment: rounding up in 32 bits wraps to zero at the top. */
  function AlignSize(n: Word): (r: Word)
    ensures r % 4 == 0
    ensures n <= 0xFFFF_FFFC ==> n <= r < n + 4
    ensures n > 0xFFFF_FFFC ==> r == 0
  {
    (n + 3) % 0x1_0000_0000 / 4 * 4
  }

  /** The data size the allocator works with for a request of n bytes. */
  function RequestSize(n: Word): (r: Word)
    ensures r % 4 == 0 && r >= MIN_DATA
    ensures n <= 12 ==> r == 12
    ensures 12 < n <= 0xFFFF_FFFC ==> n <= r < n + 4
    ensures r < n <==> n > 0xFFFF_FFFC
  {
    if AlignSize(n) < MIN_DATA then MIN_DATA else AlignSize(n)
  }

  /** Requests that mem_malloc and mem_trim turn down whatever the heap holds: those larger than the heap. */
  predicate TooLarge(n: Word, size: nat): (large: bool)
    ensures size % 4 == 0 && 24 <= size <= 0x8000_0000 ==> (large <==> n > size)
  {
    RequestSize(n) > size || RequestSize(n) < n
  }

  /** No free block has n bytes of data. */
  predicate NoRoomFor(bs: seq<Block>, n: Word) {
    forall i | 0 <= i < |bs| && !bs[i].used :: bs[i].next - bs[i].at - 12 < n
  }

  /** A request fails exactly if it is larger than the data of every free block. */
  lemma FailsIff(bs: seq<Block>, size: nat, n: Word)
    requires Tiles(bs, 0, size) && size % 4 == 0 && HEADER + MIN_DATA <= size <= 0x8000_0000
    ensures TooLarge(n, size) || FirstFit(bs, RequestSize(n)) == |bs| <==> NoRoomFor(bs, n)
  {
    hide Tiles, TooLarge, RequestSize, FirstFit;
    Ordered(bs, 0, size);
    forall k | 0 <= k < |bs| ensures bs[k].DataSize() % 4 == 0 && bs[k].DataSize() < size {
      assert bs[k].next == if k + 1 < |bs| then bs[k + 1].at else size;
      assert bs[k].next % 4 == 0;
    }
  }

  /** What is left of a set of blocks when the ones with these data offsets are freed. */
  ghost function Without(live: set<Block>, gone: set<int>): set<Block> {
    set b | b in live && b.at + HEADER !in gone
  }

  function Peak(most: int, now: int): (r: int)
    ensures r >= most && r >= now && (r == most || r == now)
  {
    if most < now then now else most
  }

  class Heap {
    /** MEM_SIZE_ALIGNED */
    const size: nat
    /** LWIP_ALLOW_MEM_FREE_FROM_OTHER_CONTEXT: mem_free may run inside mem_malloc. */
    const allowOther: bool
    const ram: array<Word>
    var lfree: nat
    /** mem_free_count */
    var freeCount: int
    var statUsed: int
    var statMax: int
    var statErr: nat
    var statIllegal: nat
    /** Data offsets of the live blocks that other contexts own and may free at any time. */
    var others: set<int>
    ghost var blocks: seq<Block>

    /** The heap invariant inside a critical section; `inflight` is as in HintOk. */
    ghost predicate ValidWith(inflight: int)
      reads this, ram
    {
      && size % 4 == 0 && HEADER + MIN_DATA <= size <= 0x8000_0000
      && ram.Length == size + HEADER
      && Linked(ram[..], blocks, size)
      && WellFormed(blocks, size)
      && HintOk(blocks, size, lfree, inflight)
      && statUsed == UsedBytes(blocks) <= statMax
      && (forall p | p in others :: LiveAt(blocks, p - HEADER))
      && (inflight != -1 ==> LiveAt(blocks, inflight) && inflight + HEADER !in others)
    }

    /** The heap invariant between calls: mem_malloc has no block in hand. */
    ghost predicate Valid()
      reads this, ram
    {
      ValidWith(-1)
    }

    /** Between calls `lfree` is exactly the lowest free block, or the end marker. */
    lemma HintIsExact()
      requires Valid()
      ensures lfree == LowestFree(blocks, size)
    {
      HintIsLowestFree(blocks, size, lfree);
    }

    /** mem_init */
    constructor (size: nat, allowOther: bool)
      requires size % 4 == 0 && HEADER + MIN_DATA <= size <= 0x8000_0000
      ensures this.size == size && this.allowOther == allowOther
      ensures Valid() && blocks == [Block(0, size, false)] && others == {}
      ensures fresh(ram)
    {
      this.size := size;
      this.allowOther := allowOther;
      ram := new Word[size + HEADER];
      lfree := 0;
      freeCount := 0;
      statUsed, statMax, statErr, statIllegal := 0, 0, 0, 0;
      others := {};
      blocks := [Block(0, size, false)];
      new;
      ram[0] := size;
      ram[4] := 0;
      ram[8] := SetUsedByte(ram[8], 0);
      ram[size + 8] := SetUsedByte(ram[size + 8], 1);
      ram[size] := size;
      ram[size + 4] := size;
      HeadersOne(ram[..], Block(0, size, false), 0);
      TilesOne(Block(0, size, false));
      UsedOne(Block(0, size, false));
    }

    // -------------------------------------------------------------- links

    /** mem_link_valid: both neighbours point back to this header. */
    predicate LinkValid(mem: nat)
      requires ram.Length == size + HEADER && mem <= size
      reads ram
    {
      var next, prev := ram[mem], ram[mem + 4];
      && next <= size
      && prev <= size
      && (prev == mem || ram[prev] == mem)
      && (next == size || ram[next + 4] == mem)
    }

    /** No block of the heap fails the check. */
    lemma BlocksAreLinked(i: nat, inflight: int)
      requires ValidWith(inflight) && i < |blocks|
      ensures blocks[i].at + HEADER + MIN_DATA <= blocks[i].next <= size
      ensures LinkValid(blocks[i].at)
    {
      Bounds(blocks, size, i);
      HeaderAt(ram[..], blocks, 0, i);
      if i > 0 {
        Bounds(blocks, size, i - 1);
        HeaderAt(ram[..], blocks, 0, i - 1);
      }
      if i + 1 < |blocks| {
        HeaderAt(ram[..], blocks, 0, i + 1);
      }
    }

    // -------------------------------------------------------------- mem_free

    /** The checks by which mem_free turns a pointer down. */
    predicate Refuses(rmem: Pointer)
      requires ram.Length == size + HEADER
      reads ram
    {
      || rmem.Null?
      || rmem.offset % 4 != 0
      || rmem.offset - HEADER < 0 || rmem.offset + MIN_DATA > size
      || UsedByte(ram[rmem.offset - 4]) == 0
      || !LinkValid(rmem.offset - HEADER)
    }

    /** Pointers that are null, not aligned, or with no room for a header and some data around them are refused. */
    lemma StrayIsRefused(rmem: Pointer)
      requires ram.Length == size + HEADER
      requires rmem.Null? || rmem.offset % 4 != 0 || rmem.offset < 12 || rmem.offset > size - 12
      ensures Refuses(rmem)
    {
    }

    /** A pointer to a block that is free, as in a double free, is refused. */
    lemma FreeIsRefused(i: nat, inflight: int)
      requires ValidWith(inflight) && i < |blocks| && !blocks[i].used
      ensures Refuses(At(blocks[i].at + 12))
    {
      HeaderAt(ram[..], blocks, 0, i);
    }

    /** What a call of mem_free expects: a pointer its checks refuse, or the caller's own live block. */
    ghost predicate MayFree(rmem: Pointer, inflight: int)
      requires ram.Length == size + HEADER
      reads this, ram
    {
      !Refuses(rmem) ==>
        LiveAt(blocks, rmem.offset - HEADER) && rmem.offset !in others && rmem.offset - HEADER != inflight
    }

    /** A live block is never taken for an illegal one. */
    lemma LiveIsNotRefused(p: int, inflight: int)
      requires ValidWith(inflight) && LiveAt(blocks, p - HEADER)
      ensures !Refuses(At(p))
    {
      var i := IndexOf(blocks, p - HEADER);
      BlocksAreLinked(i, inflight);
      Bounds(blocks, size, i);
      HeaderAt(ram[..], blocks, 0, i);
    }

    /** One of plug_holes' two steps: the block at `left` swallows the free block at `right` behind it. */
    method Absorb(left: nat, right: nat, ghost i: nat, ghost was: nat)
      requires ram.Length == size + HEADER && size <= 0x8000_0000
      requires Linked(ram[..], blocks, size) && Tiles(blocks, 0, size)
      requires i + 1 < |blocks| && blocks[i].at == left && blocks[i + 1].at == right
      requires !blocks[i].used && !blocks[i + 1].used
      requires Tracks(blocks, size, was, lfree) && was <= size
      modifies this`lfree, this`blocks, ram
      ensures blocks == Merge(old(blocks), i)
      ensures left + 8 < ram.Length && right + 8 < ram.Length
      ensures ram[left + 8] == old(ram[left + 8]) && ram[right + 8] == old(ram[right + 8])
      ensures Linked(ram[..], blocks, size)
      ensures Tracks(blocks, size, was, lfree)
      ensures forall x :: HintOk(old(blocks), size, old(lfree), x) ==> HintOk(blocks, size, lfree, x)
      ensures DataKept(old(ram[..]), ram[..], UsedSet(old(blocks)))
    {
      hide Tiles, UsedSet, UsedBytes, Headers, DataKept, Coalesced, IndexOf;
      ghost var b0, l0, m0 := blocks, lfree, ram[..];
      Bounds(b0, size, i);
      Bounds(b0, size, i + 1);
      HeaderAt(m0, b0, 0, i + 1);
      if lfree == right {
        lfree := left;
      }
      ram[left] := ram[right];
      if ram[right] != size {
        ram[ram[right] + 4] := left;
      }
      blocks := Merge(blocks, i);
      MergeStep(m0, ram[..], b0, i, size);
      MergeTracks(b0, size, i, was, l0);
      forall x | HintOk(b0, size, l0, x) ensures HintOk(blocks, size, lfree, x) {
        MergeHint(b0, size, i, l0, x);
      }
    }

    /** plug_holes: the freed block i, at offset mem, joins its free neighbours. */
    method PlugHoles(mem: nat, ghost i: nat)
      requires ram.Length == size + HEADER && size <= 0x8000_0000
      requires Linked(ram[..], blocks, size) && Tiles(blocks, 0, size)
      requires i < |blocks| && blocks[i].at == mem && !blocks[i].used
      requires Tracks(blocks, size, lfree, lfree) && lfree <= size
      modifies this`lfree, this`blocks, ram
      ensures blocks == Plug(old(blocks), i) && mem + 8 < ram.Length && ram[mem + 8] == old(ram[mem + 8])
      ensures Linked(ram[..], blocks, size)
      ensures Tracks(blocks, size, old(lfree), lfree)
      ensures forall x :: HintOk(old(blocks), size, old(lfree), x) ==> HintOk(blocks, size, lfree, x)
      ensures DataKept(old(ram[..]), ram[..], UsedSet(old(blocks)))
    {
      hide Tiles, UsedSet, UsedBytes, Headers, Header, DataKept, Coalesced, HintOk, Tracks, Merge, Plug;
      ghost var b0, m0 := blocks, ram[..];
      DataKeptSame(m0, UsedSet(b0));
      ForwardAt(b0, i);
      Neighbours(i);
      var nmem := ram[mem];
      if mem != nmem && UsedByte(ram[nmem + 8]) == 0 && nmem != size {
        Absorb(mem, nmem, i, lfree);
        MergeKeeps(b0, size, i);
      }
      ghost var m1 := ram[..];
      assert blocks == Forward(b0, i) && UsedSet(blocks) == UsedSet(b0);
      Neighbours(i);
      var pmem := ram[mem + 4];
      if pmem != mem && UsedByte(ram[pmem + 8]) == 0 {
        Absorb(pmem, mem, i - 1, old(lfree));
        DataKeptTrans(m0, m1, ram[..], UsedSet(b0), UsedSet(b0), UsedSet(b0));
      }
    }

    /** What the header of block i says about its neighbours. */
    lemma Neighbours(i: nat)
      requires ram.Length == size + HEADER
      requires Linked(ram[..], blocks, size) && Tiles(blocks, 0, size) && i < |blocks|
      ensures var b := blocks[i];
              && b.at % 4 == 0 && b.at + HEADER + MIN_DATA <= b.next <= size
              && ram[b.at] == b.next && ram[b.at + 4] == PrevAt(blocks, i)
              && (UsedByte(ram[b.at + 8]) == if b.used then 1 else 0)
              && UsedByte(ram[b.next + 8]) == (if i + 1 < |blocks| && !blocks[i + 1].used then 0 else 1)
              && (b.next == size <==> i + 1 == |blocks|)
              && (i + 1 < |blocks| ==> b.next == blocks[i + 1].at)
              && (i == 0 ==> b.at == 0)
      ensures i > 0 ==> var p := blocks[i - 1];
              && p.at < blocks[i].at
              && UsedByte(ram[p.at + 8]) == if p.used then 1 else 0
    {
      Bounds(blocks, size, i);
      HeaderAt(ram[..], blocks, 0, i);
      if i + 1 < |blocks| {
        HeaderAt(ram[..], blocks, 0, i + 1);
      }
      if i > 0 {
        Bounds(blocks, size, i - 1);
        HeaderAt(ram[..], blocks, 0, i - 1);
      }
    }

    /** What other contexts own stays live when the used set loses at most other blocks. */
    lemma OthersFollow(bs: seq<Block>, cs: seq<Block>, p: int)
      requires Tiles(bs, 0, size) && Tiles(cs, 0, size) && LiveAt(bs, p - HEADER)
      requires forall b | b in UsedSet(bs) && b.at + HEADER == p :: exists c :: c in UsedSet(cs) && c.at == b.at
      ensures LiveAt(cs, p - HEADER)
    {
      LiveIff(bs, size, p - HEADER);
      LiveIff(cs, size, p - HEADER);
    }

    lemma LiveBlock(bs: seq<Block>, at: int)
      requires LiveAt(bs, at)
      ensures var i := IndexOf(bs, at); i < |bs| && bs[i].used && bs[i].at == at
    {
    }

    /** mem_free */
    method MemFree(rmem: Pointer, ghost inflight: int := -1)
      requires ValidWith(inflight) && MayFree(rmem, inflight)
      modifies this`lfree, this`freeCount, this`statUsed, this`statIllegal, this`blocks, ram
      ensures ValidWith(inflight)
      ensures old(Refuses(rmem)) ==>
                && blocks == old(blocks) && ram[..] == old(ram[..]) && lfree == old(lfree)
                && freeCount == old(freeCount) && statUsed == old(statUsed)
                && statIllegal == old(statIllegal) + if rmem.Null? then 0 else 1
      ensures !old(Refuses(rmem)) ==>
                var i := IndexOf(old(blocks), rmem.offset - HEADER);
                && i < |old(blocks)| && blocks == Release(old(blocks), i)
                && UsedSet(blocks) == UsedSet(old(blocks)) - {old(blocks)[i]}
                && freeCount == 1 && statIllegal == old(statIllegal)
                && Refuses(rmem)
                && DataKept(old(ram[..]), ram[..], UsedSet(blocks))
    {
      hide Tiles, UsedSet, UsedBytes, Headers, DataKept, Coalesced, IndexOf, HintOk, Linked, WellFormed, LiveAt, Release;
      if rmem.Null? {
        return;
      }
      if rmem.offset % 4 != 0 {
        statIllegal := statIllegal + 1;
        return;
      }
      var mem := rmem.offset - HEADER;
      if mem < 0 || rmem.offset + MIN_DATA > size {
        statIllegal := statIllegal + 1;
        return;
      }
      if UsedByte(ram[mem + 8]) == 0 {
        statIllegal := statIllegal + 1;
        return;
      }
      if !LinkValid(mem) {
        statIllegal := statIllegal + 1;
        return;
      }
      LiveBlock(blocks, mem);
      Discard(mem, IndexOf(blocks, mem), inflight);
    }

    /** mem_free past its checks: mark the block free, lower the hint, count, join free neighbours. */
    method Discard(mem: nat, ghost i: nat, ghost inflight: int)
      requires ValidWith(inflight)
      requires i < |blocks| && blocks[i].used && blocks[i].at == mem
      requires mem + HEADER !in others && mem != inflight
      modifies this`lfree, this`freeCount, this`statUsed, this`blocks, ram
      ensures ValidWith(inflight)
      ensures blocks == Release(old(blocks), i)
      ensures UsedSet(blocks) == UsedSet(old(blocks)) - {old(blocks)[i]}
      ensures freeCount == 1 && mem + 8 < ram.Length && UsedByte(ram[mem + 8]) == 0
      ensures DataKept(old(ram[..]), ram[..], UsedSet(blocks))
    {
      hide Tiles, UsedSet, UsedBytes, Headers, Header, DataKept, Coalesced, IndexOf, HintOk, Tracks, Plug, LiveAt;
      ghost var b0, m0 := blocks, ram[..];
      Neighbours(i);
      ram[mem + 8] := SetUsedByte(ram[mem + 8], 0);
      if mem < lfree {
        lfree := mem;
      }
      statUsed := statUsed - (ram[mem] - mem);
      blocks := MarkFree(blocks, i);
      ghost var m1 := ram[..];
      assert Linked(m1, blocks, size) && DataKept(m0, m1, UsedSet(b0)) by {
        FlagStep(m0, m1, b0, i, false, size);
      }
      MarkFreeKeeps(b0, size, i);
      MarkFreeHint(b0, size, i, old(lfree), inflight);
      HintTracks(blocks, size, lfree, inflight);
      PlugHoles(mem, i);
      ReleaseKeeps(b0, size, i);
      DataKeptTrans(m0, m1, ram[..], UsedSet(b0), UsedSet(blocks), UsedSet(blocks));
      StillLive(b0, blocks, i, inflight);
      freeCount := 1;
    }

    lemma StillLive(bs: seq<Block>, cs: seq<Block>, i: nat, inflight: int)
      requires Tiles(bs, 0, size) && Tiles(cs, 0, size) && i < |bs|
      requires UsedSet(cs) == UsedSet(bs) - {bs[i]}
      requires bs[i].at + HEADER !in others && bs[i].at != inflight
      requires forall p | p in others :: LiveAt(bs, p - HEADER)
      requires inflight != -1 ==> LiveAt(bs, inflight)
      ensures forall p | p in others :: LiveAt(cs, p - HEADER)
      ensures inflight != -1 ==> LiveAt(cs, inflight)
    {
      hide Tiles, LiveAt, UsedSet;
      forall p | p in others ensures LiveAt(cs, p - HEADER) {
        OneStillLive(bs, cs, i, p);
      }
      if inflight != -1 {
        OneStillLive(bs, cs, i, inflight + HEADER);
      }
    }

    lemma OneStillLive(bs: seq<Block>, cs: seq<Block>, i: nat, p: int)
      requires Tiles(bs, 0, size) && Tiles(cs, 0, size) && i < |bs|
      requires UsedSet(cs) == UsedSet(bs) - {bs[i]}
      requires bs[i].at + HEADER != p && LiveAt(bs, p - HEADER)
      ensures LiveAt(cs, p - HEADER)
    {
      hide Tiles, LiveAt, UsedSet;
      forall b | b in UsedSet(bs) && b.at + HEADER == p ensures exists c :: c in UsedSet(cs) && c.at == b.at {
        assert b in UsedSet(cs);
      }
      OthersFollow(bs, cs, p);
    }

    /** A gap in mem_malloc's critical section: other contexts may free blocks of theirs. */
    method Window(ghost inflight: int)
      requires ValidWith(inflight) && freeCount == 0
      modifies this`lfree, this`freeCount, this`statUsed, this`statIllegal, this`blocks, this`others, ram
      ensures statIllegal == old(statIllegal)
      ensures ValidWith(inflight)
      ensures UsedSet(blocks) == Without(UsedSet(old(blocks)), old(others) - others)
      ensures DataKept(old(ram[..]), ram[..], UsedSet(blocks))
      ensures others <= old(others)
      ensures freeCount != 0 ==> allowOther && others != old(others)
      ensures freeCount == 0 ==>
                && blocks == old(blocks) && ram[..] == old(ram[..]) && lfree == old(lfree) && others == old(others)
    {
      hide Tiles, UsedSet, UsedBytes, Headers, Header, DataKept, Coalesced, IndexOf, HintOk, ValidWith;
      DataKeptSame(ram[..], UsedSet(blocks));
      while *
        invariant statIllegal == old(statIllegal)
        invariant ValidWith(inflight)
        invariant UsedSet(blocks) == Without(UsedSet(old(blocks)), old(others) - others)
        invariant DataKept(old(ram[..]), ram[..], UsedSet(blocks))
        invariant others <= old(others)
        invariant freeCount != 0 ==> allowOther && others != old(others)
        invariant freeCount == 0 ==>
                    && blocks == old(blocks) && ram[..] == old(ram[..]) && lfree == old(lfree) && others == old(others)
        decreases |others|
      {
        var p: int := *;
        if !allowOther || p !in others {
          break;
        }
        ghost var b0, m0 := blocks, ram[..];
        FreeOne(p, inflight);
        DataKeptTrans(old(ram[..]), m0, ram[..], UsedSet(b0), UsedSet(blocks), UsedSet(blocks));
      }
    }

    /** Another context frees one of its blocks. */
    method FreeOne(p: int, ghost inflight: int)
      requires ValidWith(inflight) && p in others
      modifies this`lfree, this`freeCount, this`statUsed, this`statIllegal, this`blocks, this`others, ram
      ensures statIllegal == old(statIllegal)
      ensures ValidWith(inflight) && freeCount == 1
      ensures others == old(others) - {p}
      ensures UsedSet(blocks) == Without(UsedSet(old(blocks)), {p})
      ensures DataKept(old(ram[..]), ram[..], UsedSet(blocks))
    {
      hide Tiles, UsedSet, UsedBytes, Headers, Header, DataKept, Coalesced, IndexOf, HintOk, Release, LinkValid;
      LiveIsNotRefused(p, inflight);
      LiveUnique(p);
      others := others - {p};
      MemFree(At(p), inflight);
    }

    lemma LiveUnique(p: int)
      requires Tiles(blocks, 0, size) && LiveAt(blocks, p - HEADER)
      ensures UsedSet(blocks) - {blocks[IndexOf(blocks, p - HEADER)]} == Without(UsedSet(blocks), {p})
    {
      var i := IndexOf(blocks, p - HEADER);
      forall b | b in UsedSet(blocks) && b.at + HEADER == p ensures b == blocks[i] {
        var k := BlockIndex(blocks, b);
        IndexOfBlock(blocks, 0, size, k);
      }
    }

    // -------------------------------------------------------------- mem_malloc

    /** MEM_STATS_INC_USED */
    method CountUsed(bytes: int)
      modifies this`statUsed, this`statMax
      ensures statUsed == old(statUsed) + bytes
      ensures statMax == Peak(old(statMax), statUsed)
    {
      statUsed := statUsed + bytes;
      if statMax < statUsed {
        statMax := statUsed;
      }
    }

    /**
     The header writes shared by mem_malloc and mem_trim: a new free block at ptr2, which
     ends at `next`, linked in behind mem.
     */
    method PlaceRest(mem: nat, ptr2: nat, next: nat)
      requires ram.Length == size + HEADER && size <= 0x8000_0000
      requires mem + HEADER <= ptr2 && ptr2 + HEADER <= next <= size
      modifies ram
      ensures ChangedOnly(old(ram[..]), ram[..], CutCells(mem, ptr2, next, size))
      ensures ram[mem] == ptr2 && ram[mem + 8] == old(ram[mem + 8])
      ensures ram[ptr2] == next && ram[ptr2 + 4] == mem && UsedByte(ram[ptr2 + 8]) == 0
      ensures next != size ==> ram[next + 4] == ptr2
    {
      ram[ptr2 + 8] := SetUsedByte(ram[ptr2 + 8], 0);
      ram[ptr2] := next;
      ram[ptr2 + 4] := mem;
      ram[mem] := ptr2;
      if ram[ptr2] != size {
        ram[ram[ptr2] + 4] := ptr2;
      }
    }

    /** mem_malloc's large-block case: cut the free block at mem in two. */
    method TakeSplit(mem: nat, want: nat, ghost i: nat)
      requires ram.Length == size + HEADER && size <= 0x8000_0000
      requires Linked(ram[..], blocks, size) && Tiles(blocks, 0, size)
      requires i < |blocks| && blocks[i].at == mem && !blocks[i].used
      requires want % 4 == 0 && blocks[i].DataSize() >= want + HEADER + MIN_DATA
      modifies this`statUsed, this`statMax, this`blocks, ram
      ensures blocks == Take(old(blocks), i, want)
      ensures Linked(ram[..], blocks, size)
      ensures statUsed == old(statUsed) + want + HEADER && statMax == Peak(old(statMax), statUsed)
      ensures DataKept(old(ram[..]), ram[..], UsedSet(old(blocks)))
    {
      hide Tiles, UsedSet, UsedBytes, Headers, DataKept, Coalesced, IndexOf, Linked, Take, ChangedOnly, SameWords;
      ghost var b0, m0 := blocks, ram[..];
      Neighbours(i);
      var ptr2 := mem + HEADER + want;
      ram[mem + 8] := SetUsedByte(ram[mem + 8], 1);
      ghost var m1 := ram[..];
      PlaceRest(mem, ptr2, ram[mem]);
      CountUsed(want + HEADER);
      FlagThenCut(m0, m1, ram[..], mem, ptr2, b0[i].next, size);
      CutStep(m0, ram[..], b0, i, i, ptr2, true, size);
      blocks := Take(blocks, i, want);
      TakeSplits(b0, i, want);
      UsedAround(b0, i);
    }

    lemma TakeSplits(bs: seq<Block>, i: nat, want: nat)
      requires i < |bs| && bs[i].DataSize() >= want + HEADER + MIN_DATA
      ensures var cut := bs[i].at + HEADER + want;
              Take(bs, i, want) == bs[..i] + [Block(bs[i].at, cut, true), Block(cut, bs[i].next, false)] + bs[i + 1..]
    {
    }

    lemma UsedAround(bs: seq<Block>, i: nat)
      requires i < |bs| && !bs[i].used
      ensures UsedSet(bs[..i]) + UsedSet(bs[i + 1..]) == UsedSet(bs)
    {
      assert bs == bs[..i] + [bs[i]] + bs[i + 1..];
      UsedConcat3(bs[..i], [bs[i]], bs[i + 1..]);
      UsedOne(bs[i]);
    }

    /** mem_malloc's near-fit case: the whole block at mem is handed out. */
    method TakeWhole(mem: nat, ghost i: nat)
      requires ram.Length == size + HEADER && size <= 0x8000_0000
      requires Linked(ram[..], blocks, size) && Tiles(blocks, 0, size)
      requires i < |blocks| && blocks[i].at == mem && !blocks[i].used
      modifies this`statUsed, this`statMax, this`blocks, ram
      ensures blocks == old(blocks)[i := Block(mem, old(blocks)[i].next, true)]
      ensures Linked(ram[..], blocks, size)
      ensures statUsed == old(statUsed) + blocks[i].next - mem && statMax == Peak(old(statMax), statUsed)
      ensures DataKept(old(ram[..]), ram[..], UsedSet(old(blocks)))
    {
      hide Tiles, UsedSet, UsedBytes, Headers, Header, DataKept, Coalesced, IndexOf;
      ghost var b0, m0 := blocks, ram[..];
      Neighbours(i);
      ram[mem + 8] := SetUsedByte(ram[mem + 8], 1);
      CountUsed(ram[mem] - mem);
      FlagStep(m0, ram[..], b0, i, true, size);
      blocks := blocks[i := Block(mem, blocks[i].next, true)];
    }

    /** Taking the block that the scan stopped at; the hint may now point to it. */
    method TakeBlock(mem: nat, want: nat, ghost i: nat)
      requires ValidWith(-1)
      requires i < |blocks| && blocks[i].at == mem && Fits(blocks[i], want)
      requires want % 4 == 0 && want >= MIN_DATA
      modifies this`statUsed, this`statMax, this`blocks, ram
      ensures ValidWith(mem) && statMax == Peak(old(statMax), statUsed)
      ensures blocks == Take(old(blocks), i, want)
      ensures UsedSet(blocks) == UsedSet(old(blocks)) + {Taken(old(blocks), i, want)}
      ensures DataKept(old(ram[..]), ram[..], UsedSet(old(blocks)))
    {
      hide Tiles, UsedSet, UsedBytes, Headers, Header, DataKept, Coalesced, IndexOf, HintOk, LiveAt, Linked;
      ghost var b0 := blocks;
      Neighbours(i);
      if ram[mem] - (mem + HEADER) >= want + HEADER + MIN_DATA {
        TakeSplit(mem, want, i);
      } else {
        TakeWhole(mem, i);
      }
      TakeKeeps(b0, size, i, want);
      TakeHint(b0, size, i, want, lfree);
      NewlyLive(b0, i, want);
    }

    lemma NewlyLive(bs: seq<Block>, i: nat, want: nat)
      requires WellFormed(bs, size) && i < |bs| && Fits(bs[i], want) && want % 4 == 0 && want >= MIN_DATA
      requires forall p | p in others :: LiveAt(bs, p - HEADER)
      ensures forall p | p in others :: LiveAt(Take(bs, i, want), p - HEADER) && p != bs[i].at + HEADER
      ensures LiveAt(Take(bs, i, want), bs[i].at)
    {
      hide Tiles, UsedSet, LiveAt, Take, Coalesced;
      var cs := Take(bs, i, want);
      TakeKeeps(bs, size, i, want);
      LiveIff(cs, size, bs[i].at);
      assert Taken(bs, i, want) in UsedSet(cs);
      forall p | p in others ensures LiveAt(cs, p - HEADER) && p != bs[i].at + HEADER {
        LiveIff(bs, size, p - HEADER);
        OthersFollow(bs, cs, p);
        var b :| b in UsedSet(bs) && b.at == p - HEADER;
        if b.at == bs[i].at {
          NotLive(bs, size, i, b);
        }
      }
    }

    /** Where mem_malloc looks for the next free block once it has taken the lowest one. */
    method AdjustLfree(mem: nat)
      requires ValidWith(mem)
      modifies this`lfree, this`freeCount, this`statUsed, this`statIllegal, this`blocks, this`others, ram
      ensures statIllegal == old(statIllegal)
      ensures Valid()
      ensures LiveAt(blocks, mem) && mem + HEADER !in others
      ensures UsedSet(blocks) == Without(UsedSet(old(blocks)), old(others) - others)
      ensures DataKept(old(ram[..]), ram[..], UsedSet(blocks))
      ensures others <= old(others)
      ensures !allowOther ==> blocks == old(blocks) && others == old(others) && statUsed == old(statUsed)
    {
      hide Tiles, UsedSet, UsedBytes, Headers, Header, DataKept, Coalesced, IndexOf, HintOk, LiveAt, Linked;
      DataKeptSame(ram[..], UsedSet(blocks));
      while lfree == mem
        invariant statIllegal == old(statIllegal)
        invariant ValidWith(mem)
        invariant UsedSet(blocks) == Without(UsedSet(old(blocks)), old(others) - others)
        invariant DataKept(old(ram[..]), ram[..], UsedSet(blocks))
        invariant others <= old(others)
        invariant !allowOther ==> blocks == old(blocks) && others == old(others)
        decreases others
      {
        ghost var b0, m0 := blocks, ram[..];
        var done := NextFree(mem);
        DataKeptTrans(old(ram[..]), m0, ram[..], UsedSet(b0), UsedSet(blocks), UsedSet(blocks));
        if done {
          return;
        }
      }
      HintMoved(blocks, size, lfree, mem);
    }

    /** One pass of that search; a block freed meanwhile makes it start over. */
    method NextFree(mem: nat) returns (done: bool)
      requires ValidWith(mem) && lfree == mem
      modifies this`lfree, this`freeCount, this`statUsed, this`statIllegal, this`blocks, this`others, ram
      ensures statIllegal == old(statIllegal)
      ensures done ==> Valid() && LiveAt(blocks, mem) && mem + HEADER !in others && blocks == old(blocks) && others == old(others)
      ensures !done ==> ValidWith(mem) && allowOther && others < old(others)
      ensures UsedSet(blocks) == Without(UsedSet(old(blocks)), old(others) - others)
      ensures DataKept(old(ram[..]), ram[..], UsedSet(blocks))
      ensures others <= old(others)
    {
      hide Tiles, UsedSet, UsedBytes, Headers, Header, DataKept, Coalesced, IndexOf, HintOk, LiveAt, Linked;
      DataKeptSame(ram[..], UsedSet(blocks));
      var cur := lfree;
      ghost var k := HintIndex(blocks, size, lfree, mem);
      CurrentWord(k, mem);
      while UsedByte(ram[cur + 8]) != 0 && cur != size
        invariant statIllegal == old(statIllegal)
        invariant ValidWith(mem) && lfree == old(lfree)
        invariant blocks == old(blocks) && ram[..] == old(ram[..]) && others == old(others)
        invariant k <= |blocks| && cur == (if k < |blocks| then blocks[k].at else size)
        invariant cur <= size && (cur == size ==> k == |blocks|)
        invariant forall j | 0 <= j < k :: blocks[j].used
        invariant UsedByte(ram[cur + 8]) == if k < |blocks| && !blocks[k].used then 0 else 1
        decreases |blocks| - k
      {
        freeCount := 0;
        Window(mem);
        if freeCount != 0 {
          return false;
        }
        Neighbours(k);
        cur := ram[cur];
        k := k + 1;
        CurrentWord(k, mem);
      }
      lfree := cur;
      ScannedHint(blocks, size, k);
      return true;
    }

    /** The used flag the scan reads at block k, or at the end marker. */
    lemma CurrentWord(k: nat, inflight: int)
      requires ValidWith(inflight) && k <= |blocks|
      ensures var cur := if k < |blocks| then blocks[k].at else size;
              cur <= size && (cur == size ==> k == |blocks|)
              && UsedByte(ram[cur + 8]) == if k < |blocks| && !blocks[k].used then 0 else 1
    {
      if k < |blocks| {
        Neighbours(k);
      }
    }

    /** mem_malloc's scan: first fit from the hint, given up when another context frees a block. */
    method Scan(want: nat) returns (again: bool, found: bool, mem: nat, ghost i: nat)
      requires Valid() && want <= size && want >= MIN_DATA
      modifies this`lfree, this`freeCount, this`statUsed, this`statIllegal, this`blocks, this`others, ram
      ensures statIllegal == old(statIllegal)
      ensures Valid()
      ensures UsedSet(blocks) == Without(UsedSet(old(blocks)), old(others) - others)
      ensures DataKept(old(ram[..]), ram[..], UsedSet(blocks))
      ensures again ==> others < old(others) && allowOther && !found
      ensures !again ==>
                && blocks == old(blocks) && others == old(others)
                && i == FirstFit(blocks, want) && (found <==> i < |blocks|)
                && (found ==> mem == blocks[i].at)
    {
      hide Tiles, UsedSet, UsedBytes, Headers, Header, DataKept, Coalesced, IndexOf, HintOk, LiveAt, Linked, FirstFit;
      DataKeptSame(ram[..], UsedSet(blocks));
      again, found, mem, i := false, false, 0, 0;
      var ptr := lfree;
      ghost var k := HintIndex(blocks, size, lfree, -1);
      CurrentWord(k, -1);
      while ptr < size - want
        invariant statIllegal == old(statIllegal)
        invariant Valid()
        invariant blocks == old(blocks) && ram[..] == old(ram[..]) && others == old(others)
        invariant k <= |blocks| && ptr == (if k < |blocks| then blocks[k].at else size)
        invariant forall j | 0 <= j < k :: !Fits(blocks[j], want)
        decreases |blocks| - k
      {
        freeCount := 0;
        Window(-1);
        if freeCount != 0 {
          again := true;
          return;
        }
        Neighbours(k);
        if UsedByte(ram[ptr + 8]) == 0 && ram[ptr] - (ptr + HEADER) >= want {
          found, mem, i := true, ptr, k;
          FirstFitIs(blocks, want, k);
          return;
        }
        ptr := ram[ptr];
        k := k + 1;
      }
      i := |blocks|;
      NoFitBehind(blocks, size, want, k);
    }

    /** The scan may stop `want` bytes before the end: nothing that starts later is large enough. */
    lemma NoFitBehind(bs: seq<Block>, size: nat, want: nat, k: nat)
      requires Tiles(bs, 0, size) && k <= |bs| && want >= MIN_DATA
      requires forall j | 0 <= j < k :: !Fits(bs[j], want)
      requires k < |bs| ==> bs[k].at + want >= size
      ensures FirstFit(bs, want) == |bs|
    {
      Ordered(bs, 0, size);
    }

    lemma FirstFitIs(bs: seq<Block>, want: nat, k: nat)
      requires k < |bs| && Fits(bs[k], want)
      requires forall j | 0 <= j < k :: !Fits(bs[j], want)
      ensures FirstFit(bs, want) == k
    {
    }

    /**
     mem_malloc.  `atDecision` is the block list when the scan ended, with the blocks in `gone`
     freed by then, and `i` the index of the block it took, or the number of blocks when none fits.
     */
    method MemMalloc(sizeIn: Word) returns (r: Pointer, ghost atDecision: seq<Block>, ghost i: nat, ghost gone: set<int>)
      requires Valid()
      modifies this`lfree, this`freeCount, this`statUsed, this`statMax, this`statErr, this`statIllegal, this`blocks, this`others, ram
      ensures Valid()
      ensures others <= old(others)
      ensures !allowOther ==> others == old(others) && atDecision == old(blocks)
      ensures sizeIn == 0 || sizeIn > size ==>
                && r.Null? && blocks == old(blocks) && ram[..] == old(ram[..]) && others == old(others)
      ensures 0 < sizeIn <= size ==>
                && WellFormed(atDecision, size)
                && gone <= old(others) - others && UsedSet(atDecision) == Without(UsedSet(old(blocks)), gone)
                && i == FirstFit(atDecision, RequestSize(sizeIn))
                && (r.Null? <==> i == |atDecision|)
                && (r.Null? ==> blocks == atDecision
                                && UsedSet(blocks) == Without(UsedSet(old(blocks)), old(others) - others))
                && (r.At? ==>
                      var b := Taken(atDecision, i, RequestSize(sizeIn));
                      && r == At(b.at + HEADER) && r.offset !in others
                      && UsedSet(blocks) == Without(UsedSet(old(blocks)), old(others) - others) + {b})
                && (r.At? && !allowOther ==> blocks == Take(old(blocks), i, RequestSize(sizeIn)))
      ensures DataKept(old(ram[..]), ram[..], Without(UsedSet(old(blocks)), old(others) - others))
      ensures sizeIn != 0 ==> (r.Null? <==> NoRoomFor(atDecision, sizeIn))
      ensures sizeIn > size ==> atDecision == old(blocks)
      ensures statIllegal == old(statIllegal)
      ensures statErr == old(statErr) + if 0 < sizeIn <= size && r.Null? then 1 else 0
      ensures statMax == if r.At? then Peak(old(statMax), UsedBytes(Take(atDecision, i, RequestSize(sizeIn)))) else old(statMax)
    {
      hide Tiles, UsedSet, UsedBytes, Headers, Header, DataKept, Coalesced, IndexOf, HintOk, LiveAt, Linked, FirstFit, Take, RequestSize, Peak, NoRoomFor;
      atDecision, i, gone := blocks, 0, {};
      DataKeptSame(ram[..], UsedSet(blocks));
      DataKeptSame(ram[..], Without(UsedSet(blocks), others - others));
      if sizeIn == 0 {
        return Null, atDecision, i, gone;
      }
      var want := RequestSize(sizeIn);
      if want > size || want < sizeIn {
        FailsIff(blocks, size, sizeIn);
        return Null, atDecision, i, gone;
      }
      while true
        invariant Valid()
        invariant others <= old(others) && (!allowOther ==> others == old(others) && blocks == old(blocks))
        invariant UsedSet(blocks) == Without(UsedSet(old(blocks)), old(others) - others)
        invariant DataKept(old(ram[..]), ram[..], UsedSet(blocks))
        invariant statErr == old(statErr) && statMax == old(statMax) && statIllegal == old(statIllegal)
        decreases others
      {
        ghost var b0, m0 := blocks, ram[..];
        var again, found, mem, k := Scan(want);
        DataKeptTrans(old(ram[..]), m0, ram[..], UsedSet(b0), UsedSet(blocks), UsedSet(blocks));
        i := k;
        if found {
          atDecision, gone := blocks, old(others) - others;
          FailsIff(atDecision, size, sizeIn);
          ghost var m1, o1 := ram[..], others;
          r := Grant(mem, want, k);
          DataKeptTrans(old(ram[..]), m1, ram[..], UsedSet(atDecision), Without(UsedSet(atDecision), o1 - others),
                        Without(UsedSet(old(blocks)), old(others) - others));
          return;
        }
        if !again {
          break;
        }
      }
      atDecision, gone := blocks, old(others) - others;
      FailsIff(atDecision, size, sizeIn);
      statErr := statErr + 1;
      return Null, atDecision, i, gone;
    }

    /** The end of a successful mem_malloc: take the block, then repair the hint. */
    method Grant(mem: nat, want: nat, ghost i: nat) returns (r: Pointer)
      requires Valid()
      requires i < |blocks| && blocks[i].at == mem && Fits(blocks[i], want)
      requires want % 4 == 0 && want >= MIN_DATA
      modifies this`lfree, this`freeCount, this`statUsed, this`statMax, this`statIllegal, this`blocks, this`others, ram
      ensures statIllegal == old(statIllegal)
      ensures Valid()
      ensures others <= old(others) && (!allowOther ==> others == old(others) && blocks == Take(old(blocks), i, want))
      ensures statMax == Peak(old(statMax), UsedBytes(Take(old(blocks), i, want)))
      ensures r == At(mem + HEADER) && r.offset !in others
      ensures UsedSet(blocks) == Without(UsedSet(old(blocks)), old(others) - others) + {Taken(old(blocks), i, want)}
      ensures DataKept(old(ram[..]), ram[..], Without(UsedSet(old(blocks)), old(others) - others))
    {
      hide Tiles, UsedSet, UsedBytes, Headers, Header, DataKept, Coalesced, IndexOf, HintOk, LiveAt, Linked, Take;
      TakeBlock(mem, want, i);
      ghost var b1, m1 := blocks, ram[..];
      AdjustLfree(mem);
      ghost var kept := Without(UsedSet(old(blocks)), old(others) - others);
      DataKeptTrans(old(ram[..]), m1, ram[..], UsedSet(old(blocks)), UsedSet(blocks), kept);
      r := At(mem + HEADER);
    }

    // -------------------------------------------------------------- user data

    /** The owner of a live block writes a word of its data, in the array that holds the headers too. */
    method Store(p: int, a: nat, v: Word)
      requires Valid() && LiveAt(blocks, p - HEADER)
      requires p <= a < blocks[IndexOf(blocks, p - HEADER)].next && a % 4 == 0
      modifies ram
      ensures Valid() && a < ram.Length && ram[..] == old(ram[..])[a := v]
      ensures DataKept(old(ram[..]), ram[..], UsedSet(blocks) - {blocks[IndexOf(blocks, p - HEADER)]})
    {
      hide Tiles, UsedSet, UsedBytes, Headers, DataKept, Coalesced, IndexOf, HintOk;
      ghost var i := IndexOf(blocks, p - HEADER);
      ghost var m0, b := ram[..], blocks[i];
      Neighbours(i);
      ram[a] := v;
      HeaderAt(m0, blocks, 0, i);
      HeadersOne(ram[..], b, PrevAt(blocks, i));
      if i + 1 < |blocks| {
        HeaderAt(m0, blocks, 0, i + 1);
        Bounds(blocks, size, i + 1);
      }
      assert blocks == blocks[..i] + [b] + blocks[i + 1..];
      RelinkCells(m0, ram[..], {a}, blocks, blocks[..i], [b], [b], blocks[i + 1..], size);
      RestKept(m0, ram[..], blocks, i, i);
    }

    // -------------------------------------------------------------- mem_trim

    /** mem_trim's range check; pointers outside the heap are returned as they came. */
    predicate Outside(rmem: Pointer) {
      rmem.Null? || rmem.offset < 0 || rmem.offset >= size
    }

    lemma InsideHeap(p: int)
      requires Valid() && LiveAt(blocks, p - HEADER)
      ensures !Outside(At(p))
    {
      Bounds(blocks, size, IndexOf(blocks, p - HEADER));
    }

    /** mem_trim */
    method MemTrim(rmem: Pointer, newSize: Word) returns (r: Pointer)
      requires Valid()
      requires newSize <= size && rmem.At? && 0 <= rmem.offset < size ==> LiveAt(blocks, rmem.offset - HEADER)
      modifies this`lfree, this`freeCount, this`statUsed, this`statIllegal, this`blocks, ram
      ensures Valid()
      ensures newSize > size || Outside(rmem) ==>
                && r == (if newSize > size then Null else rmem)
                && blocks == old(blocks) && ram[..] == old(ram[..]) && lfree == old(lfree)
      ensures newSize <= size && !Outside(rmem) ==>
                var i, want := IndexOf(old(blocks), rmem.offset - HEADER), RequestSize(newSize);
                && i < |old(blocks)|
                && (want > old(blocks)[i].DataSize() ==>
                      r == Null && blocks == old(blocks) && ram[..] == old(ram[..]))
                && (want <= old(blocks)[i].DataSize() ==>
                      && r == rmem && blocks == Shrink(old(blocks), i, want)
                      && UsedSet(blocks) == UsedSet(old(blocks)) - {old(blocks)[i]} + {Shrunk(old(blocks), i, want)}
                      && DataKept(old(ram[..]), ram[..], UsedSet(old(blocks)) - {old(blocks)[i]})
                      && SameWords(old(ram[..]), ram[..], rmem.offset, rmem.offset + want))
                && freeCount == (if want < old(blocks)[i].DataSize() then 1 else old(freeCount))
      ensures statIllegal == old(statIllegal) + if newSize <= size && Outside(rmem) then 1 else 0
    {
      hide Tiles, UsedSet, UsedBytes, Headers, Header, DataKept, Coalesced, HintOk, Linked, RequestSize, Shrink;
      var want := RequestSize(newSize);
      if want > size || want < newSize {
        return Null;
      }
      if Outside(rmem) {
        statIllegal := statIllegal + 1;
        return rmem;
      }
      var mem := rmem.offset - HEADER;
      ghost var i := IndexOf(blocks, mem);
      Neighbours(i);
      var have := ram[mem] - mem - HEADER;
      if want > have {
        return Null;
      }
      if want == have {
        ShrinkSame(blocks, i, want);
        DataKeptSame(ram[..], UsedSet(blocks) - {blocks[i]});
        return rmem;
      }
      TrimBlock(mem, want, i);
      freeCount := 1;
      return rmem;
    }

    lemma ShrinkSame(bs: seq<Block>, i: nat, want: nat)
      requires i < |bs| && bs[i].used && want >= bs[i].DataSize()
      ensures Shrink(bs, i, want) == bs && Shrunk(bs, i, want) == bs[i]
      ensures UsedSet(bs) == UsedSet(bs) - {bs[i]} + {bs[i]}
    {
      UsedSetMembers(bs, bs[i]);
    }

    /** mem_trim's first case: the free successor's header moves down to the new end. */
    method TrimIntoFree(mem: nat, want: nat, ghost i: nat)
      requires ram.Length == size + HEADER && size <= 0x8000_0000
      requires Linked(ram[..], blocks, size) && Tiles(blocks, 0, size)
      requires i + 1 < |blocks| && blocks[i].at == mem && blocks[i].used && !blocks[i + 1].used
      requires want % 4 == 0 && want < blocks[i].DataSize()
      modifies this`lfree, this`statUsed, this`blocks, ram
      ensures blocks == Shrink(old(blocks), i, want) && Linked(ram[..], blocks, size)
      ensures lfree == TrimmedHint(old(blocks), i, want, old(lfree))
      ensures statUsed == old(statUsed) - (old(blocks)[i].DataSize() - want)
      ensures DataKept(old(ram[..]), ram[..], UsedSet(old(blocks)) - {old(blocks)[i]})
      ensures SameWords(old(ram[..]), ram[..], mem + HEADER, mem + HEADER + want)
    {
      hide Tiles, UsedSet, UsedBytes, Headers, Header, DataKept, Coalesced, IndexOf, HintOk;
      hide LiveAt, Linked, Shrink, SameWords, ChangedOnly, CutCells, TrimmedHint;
      ghost var b0, m0 := blocks, ram[..];
      Neighbours(i);
      var have, mem2 := ram[mem] - mem - HEADER, ram[mem];
      var ptr2 := mem + HEADER + want;
      assert ram[mem2] == b0[i + 1].next && mem2 + HEADER < b0[i + 1].next <= size by { Neighbours(i + 1); }
      var next := ram[mem2];
      if lfree == mem2 {
        lfree := ptr2;
      }
      assert lfree == TrimmedHint(b0, i, want, old(lfree)) by { TrimmedIntoFree(b0, i, want, old(lfree)); }
      PlaceRest(mem, ptr2, next);
      statUsed := statUsed - (have - want);
      CutStep(m0, ram[..], b0, i, i + 1, ptr2, true, size);
      blocks := Shrink(blocks, i, want);
      ShrinkMoves(b0, i, want);
      RestKept(m0, ram[..], b0, i, i + 1);
    }

    lemma TrimmedIntoFree(bs: seq<Block>, i: nat, want: nat, l: nat)
      requires i + 1 < |bs| && !bs[i + 1].used
      ensures TrimmedHint(bs, i, want, l) == if l == bs[i + 1].at then bs[i].at + HEADER + want else l
    {
    }

    /** mem_trim's second case: the bytes given back become a free block of their own. */
    method TrimOff(mem: nat, want: nat, ghost i: nat)
      requires ram.Length == size + HEADER && size <= 0x8000_0000
      requires Linked(ram[..], blocks, size) && Tiles(blocks, 0, size)
      requires i < |blocks| && blocks[i].at == mem && blocks[i].used && (i + 1 < |blocks| ==> blocks[i + 1].used)
      requires want % 4 == 0 && want + HEADER + MIN_DATA <= blocks[i].DataSize()
      modifies this`lfree, this`statUsed, this`blocks, ram
      ensures blocks == Shrink(old(blocks), i, want) && Linked(ram[..], blocks, size)
      ensures lfree == TrimmedHint(old(blocks), i, want, old(lfree))
      ensures statUsed == old(statUsed) - (old(blocks)[i].DataSize() - want)
      ensures DataKept(old(ram[..]), ram[..], UsedSet(old(blocks)) - {old(blocks)[i]})
      ensures SameWords(old(ram[..]), ram[..], mem + HEADER, mem + HEADER + want)
    {
      hide Tiles, UsedSet, UsedBytes, Headers, DataKept, Coalesced, IndexOf, HintOk, LiveAt, Linked, Shrink, SameWords, ChangedOnly, LinkValid;
      ghost var b0, m0 := blocks, ram[..];
      Neighbours(i);
      var have, ptr2 := ram[mem] - mem - HEADER, mem + HEADER + want;
      if ptr2 < lfree {
        lfree := ptr2;
      }
      PlaceRest(mem, ptr2, ram[mem]);
      statUsed := statUsed - (have - want);
      CutStep(m0, ram[..], b0, i, i, ptr2, true, size);
      blocks := Shrink(blocks, i, want);
      ShrinkMoves(b0, i, want);
      RestKept(m0, ram[..], b0, i, i);
    }

    /** Everything in use apart from block i lies on either side of the rewritten stretch. */
    lemma RestKept(m0: seq<Word>, m1: seq<Word>, bs: seq<Block>, i: nat, j: nat)
      requires i < |bs| && bs[i].used && (j == i || (j == i + 1 < |bs| && !bs[j].used))
      requires DataKept(m0, m1, UsedSet(bs[..i]) + UsedSet(bs[j + 1..]))
      ensures DataKept(m0, m1, UsedSet(bs) - {bs[i]})
    {
      hide UsedSet, DataKept;
      var mid := bs[i..j + 1];
      assert bs == bs[..i] + mid + bs[j + 1..];
      UsedConcat3(bs[..i], mid, bs[j + 1..]);
      if j == i {
        assert mid == [bs[i]];
        UsedOne(bs[i]);
      } else {
        assert mid == [bs[i], bs[j]];
        UsedTwo(bs[i], bs[j]);
      }
      DataKeptSubset(m0, m1, UsedSet(bs[..i]) + UsedSet(bs[j + 1..]), UsedSet(bs) - {bs[i]});
    }

    /** mem_trim past its checks. */
    method TrimBlock(mem: nat, want: nat, ghost i: nat)
      requires Valid()
      requires i < |blocks| && blocks[i].used && blocks[i].at == mem
      requires want % 4 == 0 && MIN_DATA <= want < blocks[i].DataSize()
      modifies this`lfree, this`statUsed, this`blocks, ram
      ensures Valid()
      ensures blocks == Shrink(old(blocks), i, want)
      ensures UsedSet(blocks) == UsedSet(old(blocks)) - {old(blocks)[i]} + {Shrunk(old(blocks), i, want)}
      ensures DataKept(old(ram[..]), ram[..], UsedSet(old(blocks)) - {old(blocks)[i]})
      ensures SameWords(old(ram[..]), ram[..], mem + HEADER, mem + HEADER + want)
    {
      hide Tiles, UsedSet, UsedBytes, Headers, Header, DataKept, Coalesced, IndexOf, HintOk, LiveAt, Linked, SameWords;
      ghost var b0 := blocks;
      Neighbours(i);
      DataKeptSame(ram[..], UsedSet(blocks) - {blocks[i]});
      SameWordsSame(ram[..], mem + HEADER, mem + HEADER + want);
      ShrinkKeeps(b0, size, i, want);
      ShrinkHint(b0, size, i, want, lfree);
      ShrinkLive(b0, i, want);
      if UsedByte(ram[ram[mem] + 8]) == 0 {
        TrimIntoFree(mem, want, i);
      } else if want + HEADER + MIN_DATA <= ram[mem] - mem - HEADER {
        TrimOff(mem, want, i);
      }
    }

    lemma ShrinkLive(bs: seq<Block>, i: nat, want: nat)
      requires WellFormed(bs, size) && i < |bs| && bs[i].used && want % 4 == 0 && MIN_DATA <= want < bs[i].DataSize()
      requires forall p | p in others :: LiveAt(bs, p - HEADER)
      ensures forall p | p in others :: LiveAt(Shrink(bs, i, want), p - HEADER)
    {
      hide Tiles, UsedSet, LiveAt, Shrink, Coalesced;
      ShrinkKeeps(bs, size, i, want);
      var cs := Shrink(bs, i, want);
      assert Shrunk(bs, i, want) in UsedSet(cs);
      forall p | p in others ensures LiveAt(cs, p - HEADER) {
        OthersFollow(bs, cs, p);
      }
    }

    // -------------------------------------------------------------- mem_sanity

    /** The end marker mem_init wrote is never touched. */
    lemma EndMarker()
      requires Valid()
      ensures ram[size] == size && ram[size + 4] == size && UsedByte(ram[size + 8]) == 1
    {
    }

    lemma LinksAligned(i: nat)
      requires Valid() && i < |blocks|
      ensures var at := blocks[i].at; at + 4 < ram.Length && ram[at] % 4 == 0 && ram[at + 4] % 4 == 0
    {
      Neighbours(i);
      Ordered(blocks, 0, size);
    }

    /** mem_sanity: true when every assertion of the walk holds. */
    method MemSanity() returns (ok: bool)
      requires Valid()
      ensures ok
    {
      hide Tiles, UsedSet, UsedBytes, Headers, Header, Coalesced, IndexOf, HintOk, LiveAt;
      assert blocks != [] by { TilesNonEmpty(blocks, 0, size); }
      Neighbours(0);
      LinksAligned(0);
      var lastUsed := UsedByte(ram[8]);
      ok := (lastUsed == 0 || lastUsed == 1) && ram[4] == 0 && ram[0] <= size && ram[0] % 4 == 0;
      var mem := ram[0];
      ghost var k := 1;
      while mem > 0 && mem < size
        invariant 1 <= k <= |blocks| && mem == (if k < |blocks| then blocks[k].at else size)
        invariant lastUsed == if blocks[k - 1].used then 1 else 0
        invariant ok
        decreases |blocks| - k
      {
        assert k < |blocks| by { CurrentWord(k, -1); }
        Neighbours(k);
        LinksAligned(k);
        BlocksAreLinked(k, -1);
        CoalescedAt(blocks, k - 1);
        ok := ok && mem % 4 == 0 && ram[mem + 4] <= size && ram[mem] <= size;
        ok := ok && ram[mem + 4] % 4 == 0 && ram[mem] % 4 == 0;
        var used := UsedByte(ram[mem + 8]);
        if lastUsed == 0 {
          ok := ok && used == 1;
        } else {
          ok := ok && (used == 0 || used == 1);
        }
        ok := ok && LinkValid(mem);
        lastUsed := used;
        mem := ram[mem];
        k := k + 1;
      }
      if k < |blocks| {
        Neighbours(k);
      }
      EndMarker();
      ok := ok && mem == size && UsedByte(ram[mem + 8]) == 1 && ram[mem + 4] == size && ram[mem] == size;
    }
  }
}
