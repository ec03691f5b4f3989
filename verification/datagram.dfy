/**
 The copy loop of lwip_recvfrom_udp_raw: one datagram into the buffers of an iovec.
 */
module Datagrams {
  import opened Pbufs
  import opened PbufChains

  /** A buffer of the caller's: iov_len bytes of its memory from position iov_base on. */
  datatype Iovec = Iovec(iov_base: nat, iov_len: nat)

  /** Bytes the buffers before index i hold together. */
  function Room(iov: seq<Iovec>, i: nat): nat
    requires i <= |iov|
  {
    if i == 0 then 0 else Room(iov, i - 1) + iov[i - 1].iov_len
  }

  predicate Inside(iov: seq<Iovec>, size: nat) {
    forall i | 0 <= i < |iov| :: iov[i].iov_base + iov[i].iov_len <= size
  }

  /** What buffer i is to receive of the datagram. */
  function Share(iov: seq<Iovec>, i: nat, view: seq<Byte>): (r: seq<Byte>)
    requires i < |iov|
    ensures |r| <= iov[i].iov_len
  {
    Slice(view, Room(iov, i), iov[i].iov_len)
  }

  /** The memory once the first i buffers have received their shares, one after the other. */
  function Filled(was: seq<Byte>, iov: seq<Iovec>, i: nat, view: seq<Byte>): (r: seq<Byte>)
    requires i <= |iov| && Inside(iov, |was|)
    ensures |r| == |was|
  {
    if i == 0 then was
    else Written(Filled(was, iov, i - 1, view), iov[i - 1].iov_base, Share(iov, i - 1, view))
  }

  // ---------------------------------------------------------------- what the buffers hold

  /** Position k of the memory is in the part of buffer i that receives something. */
  predicate Covers(iov: seq<Iovec>, i: nat, view: seq<Byte>, k: nat)
    requires i < |iov|
  {
    iov[i].iov_base <= k < iov[i].iov_base + |Share(iov, i, view)|
  }

  /** Memory that none of the buffers from index j to i - 1 covers stays as it is. */
  lemma {:induction false} Uncovered(was: seq<Byte>, iov: seq<Iovec>, j: nat, i: nat, view: seq<Byte>, k: nat)
    requires j <= i <= |iov| && Inside(iov, |was|) && k < |was|
    requires forall c | j <= c < i :: !Covers(iov, c, view, k)
    ensures Filled(was, iov, i, view)[k] == Filled(was, iov, j, view)[k]
    decreases i
  {
    hide Share;
    if j < i {
      Uncovered(was, iov, j, i - 1, view, k);
      assert !Covers(iov, i - 1, view, k);
    }
  }

  /** Every byte is that of the last buffer over it, or as before if there is none. */
  lemma LastBufferWins(was: seq<Byte>, iov: seq<Iovec>, j: nat, view: seq<Byte>, k: nat)
    requires j <= |iov| && Inside(iov, |was|) && k < |was|
    requires forall c | j <= c < |iov| :: !Covers(iov, c, view, k)
    requires j > 0 ==> Covers(iov, j - 1, view, k)
    ensures Filled(was, iov, |iov|, view)[k] == if j == 0 then was[k] else Share(iov, j - 1, view)[k - iov[j - 1].iov_base]
  {
    hide Share;
    Uncovered(was, iov, j, |iov|, view, k);
  }

  predicate NoOverlap(iov: seq<Iovec>) {
    forall i, j | 0 <= i < j < |iov| ::
      iov[i].iov_base + iov[i].iov_len <= iov[j].iov_base || iov[j].iov_base + iov[j].iov_len <= iov[i].iov_base
  }

  /** What the first i buffers have received, read back in order. */
  function ReadBack(memory: seq<Byte>, iov: seq<Iovec>, i: nat, view: seq<Byte>): seq<Byte>
    requires i <= |iov| && Inside(iov, |memory|)
  {
    if i == 0 then []
    else ReadBack(memory, iov, i - 1, view) + memory[iov[i - 1].iov_base..][..|Share(iov, i - 1, view)|]
  }

  /** Buffers that do not overlap end up with their shares. */
  lemma HoldsShare(was: seq<Byte>, iov: seq<Iovec>, i: nat, view: seq<Byte>)
    requires i < |iov| && Inside(iov, |was|) && NoOverlap(iov)
    ensures Filled(was, iov, |iov|, view)[iov[i].iov_base..][..|Share(iov, i, view)|] == Share(iov, i, view)
  {
    hide Share, Filled;
    var share, at := Share(iov, i, view), iov[i].iov_base;
    forall k | 0 <= k < |share| ensures Filled(was, iov, |iov|, view)[at + k] == share[k] {
      LastBufferWins(was, iov, i + 1, view, at + k);
    }
    assert Filled(was, iov, |iov|, view)[at..][..|share|] == share;
  }

  /** Read back in order, they are the datagram, as far as there is room. */
  lemma {:induction false} SharesAreDatagram(was: seq<Byte>, iov: seq<Iovec>, i: nat, view: seq<Byte>)
    requires i <= |iov| && Inside(iov, |was|) && NoOverlap(iov)
    ensures ReadBack(Filled(was, iov, |iov|, view), iov, i, view) == view[..Min(|view|, Room(iov, i))]
  {
    hide Filled, NoOverlap;
    if i > 0 {
      SharesAreDatagram(was, iov, i - 1, view);
      HoldsShare(was, iov, i - 1, view);
    }
  }

  // ---------------------------------------------------------------- the loop

  /** The share a buffer gets is what the loop copies into it. */
  lemma ShareIsCopied(view: seq<Byte>, offset: nat, n: nat)
    requires offset <= |view|
    ensures Slice(view, offset, n) == Slice(view, offset, Min(n, |view| - offset))
    ensures |Slice(view, offset, n)| == Min(n, |view| - offset)
  {
  }

  lemma DatagramLength(p: Pbuf, s: seq<Pbuf>)
    requires Chain(p, s) && TotLenOk(s)
    ensures |View(s)| == p.tot_len
  {
    TotLenIsViewLength(p, s);
  }

  lemma RoomStep(iov: seq<Iovec>, i: nat)
    requires i <= |iov|
    ensures Room(iov, 0) == 0
    ensures i < |iov| ==> Room(iov, i + 1) == Room(iov, i) + iov[i].iov_len
  {
  }

  lemma NothingFilled(was: seq<Byte>, iov: seq<Iovec>, view: seq<Byte>)
    requires Inside(iov, |was|)
    ensures Filled(was, iov, 0, view) == was
  {
  }

  lemma OneMoreFilled(was: seq<Byte>, iov: seq<Iovec>, i: nat, view: seq<Byte>)
    requires Inside(iov, |was|) && i < |iov|
    ensures Share(iov, i, view) == Slice(view, Room(iov, i), iov[i].iov_len)
    ensures Filled(was, iov, i + 1, view) == Written(Filled(was, iov, i, view), iov[i].iov_base, Share(iov, i, view))
  {
  }

  /** Buffers behind the end of the datagram get nothing. */
  lemma {:induction false} NothingLeft(was: seq<Byte>, iov: seq<Iovec>, i: nat, j: nat, view: seq<Byte>)
    requires i <= j <= |iov| && Inside(iov, |was|) && (i < j ==> Room(iov, i) >= |view|)
    ensures Room(iov, i) <= Room(iov, j) && Filled(was, iov, i, view) == Filled(was, iov, j, view)
    decreases j
  {
    if i < j {
      NothingLeft(was, iov, i, j - 1, view);
      WrittenNothing(Filled(was, iov, i, view), iov[j - 1].iov_base);
    }
  }

  /**
   Fills the buffers in order with the datagram; `copied` counts the bytes, and what does
   not fit is dropped.
   */
  method CopyToIovs(p: Pbuf, memory: array<Byte>, iov: seq<Iovec>, ghost s: seq<Pbuf>) returns (copied: U16)
    requires Chain(p, s) && TotLenOk(s)
    requires Inside(iov, memory.Length)
    modifies memory
    ensures copied == Min(|View(s)|, Room(iov, |iov|))
    ensures memory[..] == Filled(old(memory[..]), iov, |iov|, View(s))
  {
    hide Chain, TotLenOk, View, Slice, Written, Room, Filled, Share;
    DatagramLength(p, s);
    var buflen := p.tot_len;
    ghost var view, was := View(s), memory[..];
    RoomStep(iov, 0);
    NothingFilled(was, iov, view);
    copied := 0;
    var i := 0;
    while i < |iov| && copied < buflen
      invariant Chain(p, s) && View(s) == view
      invariant i <= |iov| && copied == Min(|view|, Room(iov, i))
      invariant memory[..] == Filled(was, iov, i, view)
    {
      RoomStep(iov, i);
      var lenLeft: U16 := buflen - copied;
      var copylen: U16;
      if iov[i].iov_len > lenLeft {
        copylen := lenLeft;
      } else {
        copylen := iov[i].iov_len;
      }
      ShareIsCopied(view, copied, iov[i].iov_len);
      OneMoreFilled(was, iov, i, view);
      var n := CopyPartial(p, memory, iov[i].iov_base, copylen, copied, s);
      copied := copied + copylen;
      i := i + 1;
    }
    NothingLeft(was, iov, i, |iov|, view);
  }
}
