/**
 Reading and trimming pbuf chains: pbuf_copy_partial, pbuf_remove_header, pbuf_free_header
 and the datagram copy loop of lwip_recvfrom_udp_raw.
 */
module PbufChains {
  import opened Pbufs

  /** s lists the pbufs from p on along `next`, to the end. */
  ghost predicate Chain(p: Pbuf?, s: seq<Pbuf>)
    reads s`next, s`payload, s`len
    decreases |s|
  {
    if s == [] then p == null
    else p == s[0] && s[0].InBounds() && Chain(s[0].next, s[1..])
  }

  /** The bytes of a chain, buffer after buffer. */
  ghost function View(s: seq<Pbuf>): seq<Byte>
    reads s`payload, s`len
    decreases |s|
  {
    if s == [] then []
    else (if s[0].InBounds() then s[0].Bytes() else []) + View(s[1..])
  }

  /** The invariant pbuf.h gives for tot_len. */
  ghost predicate TotLenOk(s: seq<Pbuf>)
    reads s`tot_len, s`len
    decreases |s|
  {
    s != [] ==>
      && s[0].tot_len == s[0].len + (if |s| > 1 then s[1].tot_len else 0)
      && TotLenOk(s[1..])
  }

  function Min(a: int, b: int): (m: int)
    ensures m <= a && m <= b && (m == a || m == b)
  {
    if a < b then a else b
  }

  /** Up to n bytes of v from `offset` on. */
  function Slice(v: seq<Byte>, offset: nat, n: nat): (r: seq<Byte>)
    ensures |r| == if offset + n <= |v| then n else if offset < |v| then |v| - offset else 0
    ensures forall k | 0 <= k < |r| :: r[k] == v[offset + k]
  {
    if offset >= |v| then [] else v[offset..Min(offset + n, |v|)]
  }

  lemma {:induction false} TotLenIsViewLength(p: Pbuf?, s: seq<Pbuf>)
    requires Chain(p, s) && TotLenOk(s)
    ensures |View(s)| == if s == [] then 0 else s[0].tot_len
    decreases |s|
  {
    if s != [] {
      TotLenIsViewLength(s[0].next, s[1..]);
    }
  }

  lemma SliceSkip(a: seq<Byte>, b: seq<Byte>, offset: nat, n: nat)
    requires offset >= |a|
    ensures Slice(a + b, offset, n) == Slice(b, offset - |a|, n)
  {
  }

  lemma SliceCut(a: seq<Byte>, b: seq<Byte>, offset: nat, n: nat)
    requires offset < |a| || offset == 0
    ensures var m := Min(|a| - offset, n);
            Slice(a + b, offset, n) == a[offset..offset + m] + Slice(b, 0, n - m)
  {
    var m := Min(|a| - offset, n);
    var whole, front, back := Slice(a + b, offset, n), a[offset..offset + m], Slice(b, 0, n - m);
    assert |whole| == m + |back|;
    forall k | 0 <= k < |whole| ensures whole[k] == (front + back)[k] {
      assert whole[k] == (a + b)[offset + k];
    }
    assert whole == front + back;
  }

  /** The buffer after a copy of `bytes` to position `at`. */
  function Written(was: seq<Byte>, at: nat, bytes: seq<Byte>): seq<Byte>
    requires at + |bytes| <= |was|
  {
    was[..at] + bytes + was[at + |bytes|..]
  }

  lemma WrittenTwice(was: seq<Byte>, at: nat, a: seq<Byte>, b: seq<Byte>)
    requires at + |a| + |b| <= |was|
    ensures Written(Written(was, at, a), at + |a|, b) == Written(was, at, a + b)
  {
  }

  lemma WrittenNothing(was: seq<Byte>, at: nat)
    requires at <= |was|
    ensures Written(was, at, []) == was
  {
  }

  lemma WrittenIs(was: seq<Byte>, at: nat, bytes: seq<Byte>, now: seq<Byte>)
    requires at + |bytes| <= |was| == |now|
    requires forall k | 0 <= k < |now| :: now[k] == if at <= k < at + |bytes| then bytes[k - at] else was[k]
    ensures now == Written(was, at, bytes)
  {
  }

  /** MEMCPY from a pbuf's payload. */
  method CopyBytes(p: Pbuf, from: nat, n: nat, data: array<Byte>, at: nat)
    requires p.InBounds() && from + n <= p.len
    requires at + n <= data.Length
    modifies data
    ensures data[..] == Written(old(data[..]), at, p.Bytes()[from..from + n])
  {
    ghost var was, bytes := data[..], p.Bytes()[from..from + n];
    forall i | at <= i < at + n {
      data[i] := p.area[p.payload + from + i - at];
    }
    forall i | at <= i < at + n ensures data[i] == bytes[i - at] {
    }
    WrittenIs(was, at, bytes, data[..]);
  }

  lemma ChainHead(p: Pbuf, s: seq<Pbuf>, k: nat)
    requires k <= |s| && Chain(p, s[k..])
    ensures k < |s| && s[k] == p && p.InBounds() && Chain(p.next, s[k + 1..])
    ensures View(s[k..]) == p.Bytes() + View(s[k + 1..])
  {
    assert s[k..] != [];
    assert s[k..][1..] == s[k + 1..];
  }

  /** Nothing is left to copy at the end of the chain, or of the request. */
  lemma SliceEnd(v: seq<Byte>, offset: nat, n: nat, p: Pbuf?, s: seq<Pbuf>)
    requires Chain(p, s) && v == View(s) && (n == 0 || p == null)
    ensures Slice(v, offset, n) == []
  {
  }

  /** pbuf_copy_partial: `dataptr` is `data` from position `at` on, or NULL. */
  method CopyPartial(buf: Pbuf?, data: array?<Byte>, at: nat, len0: U16, offset0: U16, ghost s: seq<Pbuf>) returns (copied: U16)
    requires Chain(buf, s)
    requires data != null ==> at + |Slice(View(s), offset0, len0)| <= data.Length
    modifies data
    ensures copied == if data == null then 0 else |Slice(View(s), offset0, len0)|
    ensures data != null ==> data[..] == Written(old(data[..]), at, Slice(View(s), offset0, len0))
  {
    hide Chain, View, Slice, Written;
    copied := 0;
    if buf == null {
      SliceEnd(View(s), offset0, len0, buf, s);
      if data != null {
        WrittenNothing(data[..], at);
      }
      return;
    }
    if data == null {
      return;
    }
    var left: U16, len: U16, offset: U16 := 0, len0, offset0;
    var p := buf;
    ghost var k, todo := 0, Slice(View(s), offset0, len0);
    ghost var final := Written(data[..], at, todo);
    assert s[0..] == s;
    while len != 0 && p != null
      invariant k <= |s| && Chain(p, s[k..])
      invariant left == copied == len0 - len
      invariant todo == Slice(View(s[k..]), offset, len)
      invariant copied + |todo| == |Slice(View(s), offset0, len0)|
      invariant at + left + |todo| <= data.Length
      invariant Written(data[..], at + left, todo) == final
      decreases |s| - k
    {
      ChainHead(p, s, k);
      ghost var rest := View(s[k + 1..]);
      if offset != 0 && offset >= p.len {
        SliceSkip(p.Bytes(), rest, offset, len);
        offset := offset - p.len;
      } else {
        var n: U16 := p.len - offset;
        if n > len {
          n := len;
        }
        SliceCut(p.Bytes(), rest, offset, len);
        todo := Slice(rest, 0, len - n);
        WrittenTwice(data[..], at + left, p.Bytes()[offset..offset + n], todo);
        CopyBytes(p, offset, n, data, at + left);
        copied := copied + n;
        left := left + n;
        len := len - n;
        offset := 0;
      }
      p := p.next;
      k := k + 1;
    }
    SliceEnd(View(s[k..]), offset, len, p, s[k..]);
    WrittenNothing(data[..], at + left);
  }

  // ---------------------------------------------------------------- trimming

  /** A chain is determined by its first pbuf. */
  lemma {:induction false} ChainUnique(p: Pbuf?, s: seq<Pbuf>, t: seq<Pbuf>)
    requires Chain(p, s) && Chain(p, t)
    ensures s == t
    decreases |s|
  {
    if s != [] {
      ChainUnique(s[0].next, s[1..], t[1..]);
      assert s == [s[0]] + s[1..] && t == [t[0]] + t[1..];
    }
  }

  lemma {:induction false} ChainSuffix(p: Pbuf?, s: seq<Pbuf>, k: nat)
    requires Chain(p, s) && k < |s|
    ensures Chain(s[k], s[k..])
    decreases k
  {
    if k > 0 {
      ChainSuffix(s[0].next, s[1..], k - 1);
      assert s[1..][k - 1..] == s[k..];
    } else {
      assert s[0..] == s;
    }
  }

  /** A chain that ends does not come back to its first pbuf. */
  lemma ChainHeadIsNew(p: Pbuf, s: seq<Pbuf>)
    requires Chain(p, s)
    ensures p !in s[1..]
  {
    forall k | 1 <= k < |s| ensures s[k] != p {
      if s[k] == p {
        ChainSuffix(p, s, k);
        ChainUnique(p, s, s[k..]);
      }
    }
  }

  /** pbuf_remove_header: hides the first bytes of one buffer. */
  method RemoveHeader(p: Pbuf?, decrement: nat) returns (failed: bool)
    requires p != null ==> p.InBounds()
    modifies (if p == null then {} else {p})`payload, (if p == null then {} else {p})`len, (if p == null then {} else {p})`tot_len
    ensures failed <==> p == null || decrement > 0xFFFF || decrement > old(p.len)
    ensures p != null && failed ==> p.payload == old(p.payload) && p.len == old(p.len) && p.tot_len == old(p.tot_len)
    ensures !failed ==> p.InBounds() && p.Bytes() == old(p.Bytes())[decrement..] && p.len == old(p.len) - decrement
    ensures !failed ==> p.tot_len == (old(p.tot_len) - decrement) % 0x1_0000
  {
    if p == null || decrement > 0xFFFF {
      return true;
    }
    if decrement == 0 {
      return false;
    }
    if decrement > p.len {
      return true;
    }
    p.payload := p.payload + decrement;
    p.len := p.len - decrement;
    p.tot_len := (p.tot_len - decrement) % 0x1_0000;
    return false;
  }

  /** pbuf_free_header's `f->next = 0`: the pointer to the successor is the caller's from now on. */
  method CutBehind(pool: Pool, f: Pbuf) returns (next: Pbuf?)
    requires pool.Valid() && f in pool.live
    modifies pool`held, f`next
    ensures pool.Valid() && next == old(f.next) && f.next == null
    ensures pool.held == old(pool.held) + One(next)
    ensures pool.AllRefs() == old(pool.AllRefs())
    ensures f in pool.AllLinks() && pool.AllLinks()[f] == null
    ensures next != null ==> next in pool.live
  {
    hide Graph, Pointers;
    ghost var links, refs := pool.AllLinks(), pool.AllRefs();
    GraphCuts(links, refs, pool.held, f);
    next := f.next;
    f.next := null;
    pool.held := pool.held + One(next);
    assert pool.AllLinks() == links[f := null] && pool.AllRefs() == refs;
    LinkStaysInside(links, refs, old(pool.held), f);
  }

  lemma LinkStaysInside(links: Links, refs: map<Pbuf, int>, held: multiset<Pbuf>, f: Pbuf)
    requires Graph(links, refs, held, null) && f in links
    ensures links[f] != null ==> links[f] in links
  {
  }

  /** Giving up a pbuf with no successor frees it alone, or nothing. */
  lemma FreedAlone(links: Links, refs: map<Pbuf, int>, f: Pbuf, freed: seq<Pbuf>, stop: Pbuf?)
    requires Freed(links, refs, f, freed, stop) && f in links && links[f] == null && f in refs
    requires stop != null ==> stop in refs && refs[stop] > 1
    ensures if refs[f] == 1 then freed == [f] && stop == null else freed == [] && stop == f
  {
    if freed != [] {
      assert Freed(links, refs, null, freed[1..], stop);
      assert freed == [freed[0]] + freed[1..];
    }
  }

  lemma TailOf(f: Pbuf, s: seq<Pbuf>)
    requires Chain(f, s)
    ensures s != [] && s[0] == f && Chain(f.next, s[1..])
    ensures TotLenOk(s) ==> TotLenOk(s[1..])
  {
  }

  lemma RefsValue(pool: Pool, f: Pbuf)
    requires f in pool.live
    ensures f in pool.AllRefs() && pool.AllRefs()[f] == f.ref
  {
  }

  lemma HeldStill(h: multiset<Pbuf>, f: Pbuf, p: Pbuf?, s: seq<Pbuf>)
    requires s != [] && f !in s[1..] && Chain(p, s[1..]) && h[f] > 0
    ensures p != f && (h + One(p))[f] > 0
    ensures p != null ==> (h + One(p) - One(f))[p] > 0
  {
  }

  lemma FreedOne(refs: map<Pbuf, int>, f: Pbuf)
    requires f in refs
    ensures Elements([]) == {} && Elements([f]) == {f}
    ensures RefsAfter(refs, [f], null) == refs - {f}
    ensures RefsAfter(refs, [], f) == refs[f := refs[f] - 1]
  {
  }

  /** One buffer of pbuf_free_header's loop that is used up: cut off, and given up. */
  method DropFirst(pool: Pool, f: Pbuf, ghost s: seq<Pbuf>) returns (p: Pbuf?)
    requires pool.Valid() && pool.held[f] > 0 && f in pool.live && Chain(f, s)
    modifies pool, pool.live`ref, f`next
    ensures pool.Valid() && (p != null ==> pool.held[p] > 0 && p in pool.live)
    ensures pool.held == old(pool.held) + One(p) - One(f)
    ensures s != [] && p == old(f.next) && Chain(p, s[1..])
    ensures View(s[1..]) == old(View(s[1..])) && (old(TotLenOk(s)) ==> TotLenOk(s[1..]))
    ensures pool.live == if old(f.ref) == 1 then old(pool.live) - {f} else old(pool.live)
    ensures pool.AllRefs() == if old(f.ref) == 1 then old(pool.AllRefs()) - {f} else old(pool.AllRefs())[f := old(f.ref) - 1]
  {
    hide *;
    ChainHeadIsNew(f, s);
    TailOf(f, s);
    ghost var refs := pool.AllRefs();
    RefsValue(pool, f);
    p := CutBehind(pool, f);
    ghost var links := pool.AllLinks();
    HeldStill(old(pool.held), f, p, s);
    var count, freed, stop := pool.Free(f);
    FreedAlone(links, refs, f, freed, stop);
    FreedOne(refs, f);
  }

  /** v without its first n bytes. */
  function Drop(v: seq<Byte>, n: nat): (r: seq<Byte>)
    ensures |r| == if n <= |v| then |v| - n else 0
    ensures forall k | 0 <= k < |r| :: r[k] == v[n + k]
  {
    v[Min(n, |v|)..]
  }

  lemma DropPast(a: seq<Byte>, b: seq<Byte>, n: nat)
    ensures n >= |a| ==> Drop(a + b, n) == Drop(b, n - |a|)
    ensures n < |a| ==> Drop(a + b, n) == a[n..] + b
    ensures Drop(b, 0) == b
  {
  }

  /** Where pbuf_free_header's loop stands: the chain from p on, less `left` bytes, is the goal. */
  ghost predicate Trimming(pool: Pool, s: seq<Pbuf>, p: Pbuf?, left: nat, goal: seq<Byte>)
    reads pool, pool.live`next, pool.live`ref, s`next, s`payload, s`len, s`tot_len
  {
    && pool.Valid()
    && (p != null ==> pool.held[p] > 0)
    && Chain(p, s) && TotLenOk(s) && Elements(s) <= pool.live
    && Drop(View(s), left) == goal
  }

  /** A used-up buffer goes; the rest of the chain takes its place. */
  method TrimWhole(pool: Pool, f: Pbuf, left: U16, ghost s: seq<Pbuf>, ghost goal: seq<Byte>,
                   ghost was: Counts, ghost gone: seq<Pbuf>) returns (p: Pbuf?)
    requires Trimming(pool, s, f, left, goal) && left >= f.len
    requires Dropped(was, Counts(pool.held, pool.AllRefs()), f, gone) && f !in gone
    modifies pool, pool.live`ref, f`next
    ensures s != [] && s[0] == f && f.len == old(f.len) && Trimming(pool, s[1..], p, left - f.len, goal)
    ensures Dropped(was, Counts(pool.held, pool.AllRefs()), p, gone + [f]) && pool.live <= old(pool.live)
  {
    hide *;
    Opened(pool, s, f, left, goal);
    ChainHeadIsNew(f, s);
    HeadAndTail(pool, f, s);
    DropPast(f.Bytes(), View(s[1..]), left);
    RefsValue(pool, f);
    ghost var now := Counts(pool.held, pool.AllRefs());
    p := DropFirst(pool, f, s);
    TailLives(pool, old(pool.live), f, s);
    Closed(pool, s[1..], p, left - f.len, goal);
    DroppedNext(was, now, Counts(pool.held, pool.AllRefs()), f, p, gone);
  }

  lemma Opened(pool: Pool, s: seq<Pbuf>, p: Pbuf?, left: nat, goal: seq<Byte>)
    requires Trimming(pool, s, p, left, goal)
    ensures pool.Valid() && (p != null ==> pool.held[p] > 0) && Chain(p, s) && TotLenOk(s) && Elements(s) <= pool.live
    ensures Drop(View(s), left) == goal
  {
  }

  /** What the loop looks at next. */
  lemma Front(pool: Pool, s: seq<Pbuf>, p: Pbuf, left: nat, goal: seq<Byte>)
    requires Trimming(pool, s, p, left, goal)
    ensures s != [] && s[0] == p && p in pool.live
  {
    hide *;
    Opened(pool, s, p, left, goal);
    HeadAndTail(pool, p, s);
  }

  lemma Closed(pool: Pool, s: seq<Pbuf>, p: Pbuf?, left: nat, goal: seq<Byte>)
    requires pool.Valid() && (p != null ==> pool.held[p] > 0) && Chain(p, s) && TotLenOk(s) && Elements(s) <= pool.live
    requires Drop(View(s), left) == goal
    ensures Trimming(pool, s, p, left, goal)
  {
  }

  lemma HeadAndTail(pool: Pool, f: Pbuf, s: seq<Pbuf>)
    requires Chain(f, s) && Elements(s) <= pool.live
    ensures s != [] && s[0] == f && f.InBounds() && |f.Bytes()| == f.len && f in pool.live
    ensures View(s) == f.Bytes() + View(s[1..]) && Elements(s[1..]) <= pool.live
    ensures Chain(f.next, s[1..]) && s == [f] + s[1..]
  {
    assert f in Elements(s);
  }

  lemma TailLives(pool: Pool, live: set<Pbuf>, f: Pbuf, s: seq<Pbuf>)
    requires s != [] && Elements(s[1..]) <= live && f !in s[1..] && live - {f} <= pool.live
    ensures Elements(s[1..]) <= pool.live
  {
  }

  /** The last buffer touched keeps its tail; its first bytes are hidden. */
  method TrimPart(pool: Pool, p: Pbuf, left: U16, ghost s: seq<Pbuf>, ghost goal: seq<Byte>)
    requires Trimming(pool, s, p, left, goal) && 0 < left < p.len
    modifies p`payload, p`len, p`tot_len
    ensures Trimming(pool, s, p, 0, goal)
  {
    hide *;
    Opened(pool, s, p, left, goal);
    ChainHeadIsNew(p, s);
    HeadAndTail(pool, p, s);
    DropPast(p.Bytes(), View(s[1..]), left);
    TailOf(p, s);
    FirstTotLen(s);
    ghost var whole, was := p.tot_len, View(s[1..]);
    var failed := RemoveHeader(p, left);
    assert View(s[1..]) == was;
    RemadeView(s);
    RemadeLengths(s, whole, left);
    DropPast([], View(s), 0);
    Closed(pool, s, p, 0, goal);
  }

  lemma FirstTotLen(s: seq<Pbuf>)
    requires TotLenOk(s) && s != []
    ensures s[0].tot_len == s[0].len + if |s| > 1 then s[1].tot_len else 0
    ensures s[0].tot_len >= s[0].len
  {
  }

  /** The chain once the first buffer has lost `left` bytes at its front. */
  lemma RemadeView(s: seq<Pbuf>)
    requires s != [] && s[0].InBounds() && Chain(s[0].next, s[1..])
    ensures Chain(s[0], s) && View(s) == s[0].Bytes() + View(s[1..])
  {
  }

  /** And its lengths. */
  lemma RemadeLengths(s: seq<Pbuf>, whole: U16, left: nat)
    requires s != [] && TotLenOk(s[1..]) && left <= whole
    requires whole == s[0].len + left + (if |s| > 1 then s[1].tot_len else 0)
    requires s[0].tot_len == (whole - left) % 0x1_0000
    ensures TotLenOk(s)
  {
    assert s[0].tot_len == whole - left;
  }

  /** The pointers held outside of chains, and all reference counts. */
  datatype Counts = Counts(held: multiset<Pbuf>, refs: map<Pbuf, int>)

  /** The reference counts once each pbuf of s has lost one pointer, and gone if it was the last. */
  function GivenUp(refs: map<Pbuf, int>, s: seq<Pbuf>): (r: map<Pbuf, int>)
    ensures r.Keys <= refs.Keys
  {
    map f | f in refs && !(f in s && refs[f] == 1) :: if f in s then refs[f] - 1 else refs[f]
  }

  /** A pointer to p has come to those held, and the pbufs of `gone` have lost one pointer each. */
  predicate Dropped(was: Counts, now: Counts, p: Pbuf?, gone: seq<Pbuf>) {
    now.held == was.held + One(p) && now.refs == GivenUp(was.refs, gone)
  }

  lemma DroppedNone(c: Counts, q: Pbuf?)
    requires q != null ==> c.held[q] > 0
    ensures Dropped(c.(held := c.held - One(q)), c, q, [])
  {
  }

  lemma DroppedNext(was: Counts, now: Counts, next: Counts, f: Pbuf, p: Pbuf?, gone: seq<Pbuf>)
    requires Dropped(was, now, f, gone) && f !in gone && f in now.refs
    requires next.held == now.held + One(p) - One(f)
    requires next.refs == if now.refs[f] == 1 then now.refs - {f} else now.refs[f := now.refs[f] - 1]
    ensures Dropped(was, next, p, gone + [f])
  {
    assert now.refs[f] == was.refs[f];
    assert forall g :: g in gone + [f] <==> g in gone || g == f;
    assert next.refs == GivenUp(was.refs, gone + [f]);
  }

  /** Pbufs with a single pointer each go altogether. */
  lemma SolePointersGone(refs: map<Pbuf, int>, s: seq<Pbuf>, k: nat)
    requires AllOnes(refs, s) && k <= |s|
    ensures GivenUp(refs, s[..k]) == RefsAfter(refs, s[..k], null)
    ensures GivenUp(refs, s[..k]).Keys == refs.Keys - Elements(s[..k])
  {
    assert forall f | f in s[..k] :: f in s;
  }

  predicate NoRepeats(s: seq<Pbuf>) {
    forall i, k | 0 <= i < k < |s| :: s[i] != s[k]
  }

  /** A pbuf occurs once on a chain. */
  lemma ChainDistinct(q: Pbuf?, s: seq<Pbuf>)
    requires Chain(q, s)
    ensures NoRepeats(s)
  {
    forall i, k | 0 <= i < k < |s| ensures s[i] != s[k] {
      ChainSuffix(q, s, i);
      ChainHeadIsNew(s[i], s[i..]);
      assert s[i..][1..][k - i - 1] == s[k];
    }
  }

  lemma Reached(p: Pbuf?, t: seq<Pbuf>, left: nat)
    requires Chain(p, t) && (left == 0 || p == null)
    ensures Drop(View(t), left) == View(t)
  {
  }

  /** Every pbuf of s has a single pointer to it. */
  predicate AllOnes(refs: map<Pbuf, int>, s: seq<Pbuf>) {
    forall r | r in s :: r in refs && refs[r] == 1
  }

  /**
   pbuf_free_header: drops `size` bytes from the front of a chain, freeing buffers used up.
   The caller's pointer to q becomes one to the new first buffer.  Buffers that somebody else
   points to survive, cut off from the chain.
   */
  method FreeHeader(pool: Pool, q: Pbuf?, size: U16, ghost s: seq<Pbuf>) returns (p: Pbuf?, ghost k: nat)
    requires pool.Valid() && (q != null ==> pool.held[q] > 0)
    requires Chain(q, s) && TotLenOk(s) && Elements(s) <= pool.live
    modifies pool, pool.live`ref, s`next, s`payload, s`len, s`tot_len
    ensures pool.Valid() && (p != null ==> pool.held[p] > 0)
    ensures pool.held == old(pool.held) - One(q) + One(p)
    ensures k <= |s| && Chain(p, s[k..]) && TotLenOk(s[k..]) && Elements(s[k..]) <= pool.live
    ensures View(s[k..]) == Drop(old(View(s)), size)
    ensures pool.AllRefs() == GivenUp(old(pool.AllRefs()), s[..k]) && pool.live == pool.AllRefs().Keys
  {
    hide *;
    p, k := q, 0;
    ghost var gone: seq<Pbuf>, t: seq<Pbuf> := [], s;
    ghost var goal, was := Drop(View(s), size), Counts(pool.held - One(q), pool.AllRefs());
    var left: U16 := size;
    Closed(pool, s, q, size, goal);
    DroppedNone(Counts(pool.held, pool.AllRefs()), q);
    SplitNow(q, s);
    while left != 0 && p != null
      invariant SplitAt(s, k, gone, t)
      invariant Trimming(pool, t, p, left, goal)
      invariant Dropped(was, Counts(pool.held, pool.AllRefs()), p, gone)
      invariant pool.live <= old(pool.live)
      decreases |t|, left
    {
      Front(pool, t, p, left, goal);
      Onward(s, k, gone, t);
      if left >= p.len {
        var f: Pbuf, rest: U16 := p, left - p.len;
        p := TrimWhole(pool, f, left, t, goal, was, gone);
        left := rest;
        k, gone, t := k + 1, gone + [f], t[1..];
      } else {
        TrimPart(pool, p, left, t, goal);
        left := 0;
      }
    }
    Opened(pool, t, p, left, goal);
    Reached(p, t, left);
    SplitMeans(s, k, gone, t);
    DroppedMeans(was, Counts(pool.held, pool.AllRefs()), p, gone);
    RefsKeys(pool);
  }

  /** The first k pbufs of s, and the rest. */
  predicate SplitAt(s: seq<Pbuf>, k: nat, gone: seq<Pbuf>, t: seq<Pbuf>) {
    k <= |s| && gone == s[..k] && t == s[k..] && NoRepeats(s)
  }

  lemma SplitNow(q: Pbuf?, s: seq<Pbuf>)
    requires Chain(q, s)
    ensures SplitAt(s, 0, [], s)
  {
    ChainDistinct(q, s);
  }

  lemma Onward(s: seq<Pbuf>, k: nat, gone: seq<Pbuf>, t: seq<Pbuf>)
    requires SplitAt(s, k, gone, t) && t != []
    ensures t[0] !in gone && t[0] in s && SplitAt(s, k + 1, gone + [t[0]], t[1..])
  {
  }

  lemma SplitMeans(s: seq<Pbuf>, k: nat, gone: seq<Pbuf>, t: seq<Pbuf>)
    requires SplitAt(s, k, gone, t)
    ensures k <= |s| && gone == s[..k] && t == s[k..]
  {
  }

  lemma DroppedMeans(was: Counts, now: Counts, p: Pbuf?, gone: seq<Pbuf>)
    requires Dropped(was, now, p, gone)
    ensures now.held == was.held + One(p) && now.refs == GivenUp(was.refs, gone)
  {
  }

  lemma RefsKeys(pool: Pool)
    ensures pool.AllRefs().Keys == pool.live
  {
  }
}
