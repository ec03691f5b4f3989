/**
 Packet buffers of pbuf.c: reference-counted buffers linked into chains, possibly with
 shared tails, and pbuf_free.
 */
module Pbufs {

  type Byte = x: int | 0 <= x < 256
  type U16 = x: int | 0 <= x < 0x1_0000

  class Pbuf {
    var next: Pbuf?
    /** The memory `payload` points into, and how far into it `payload` points. */
    const area: seq<Byte>
    var payload: nat
    var tot_len: U16
    var len: U16
    /** LWIP_PBUF_REF_T, an eight-bit counter */
    var ref: Byte

    constructor (area: seq<Byte>)
      requires |area| < 0x1_0000
      ensures this.area == area && next == null && payload == 0 && len == tot_len == |area| && ref == 1
    {
      this.area := area;
      next, payload, tot_len, len, ref := null, 0, |area|, |area|, 1;
    }

    ghost predicate InBounds()
      reads this`payload, this`len
    {
      payload + len <= |area|
    }

    /** The bytes of this one buffer. */
    ghost function Bytes(): (s: seq<Byte>)
      requires InBounds()
      reads this`payload, this`len
      ensures |s| == len
    {
      area[payload..payload + len]
    }
  }

  // ---------------------------------------------------------------- the graph of pointers

  /** `next` of every allocated pbuf. */
  type Links = map<Pbuf, Pbuf?>

  /** The pbufs whose `next` is p. */
  ghost function Before(links: Links, p: Pbuf): set<Pbuf> {
    set q | q in links && links[q] == p
  }

  /** All pointers to p: those held outside of chains, those from chains, and possibly one more. */
  ghost function Pointers(links: Links, held: multiset<Pbuf>, extra: Pbuf?, p: Pbuf): int {
    held[p] + |Before(links, p)| + if p == extra then 1 else 0
  }

  /**
   The promise of pbuf.h: the reference count of every pbuf equals the number of pointers to
   it.  Besides, no count is zero and no pointer leads to a pbuf that is not allocated.
   */
  ghost predicate Graph(links: Links, refs: map<Pbuf, int>, held: multiset<Pbuf>, extra: Pbuf?) {
    && links.Keys == refs.Keys
    && (forall p | p in links :: refs[p] == Pointers(links, held, extra, p) && refs[p] > 0)
    && (forall p | p in links && links[p] != null :: links[p] in links)
    && (forall p | p in held :: p in links)
    && (extra != null ==> extra in links)
  }

  lemma BeforeWithout(links: Links, p: Pbuf, r: Pbuf)
    requires p in links
    ensures |Before(links - {p}, r)| == |Before(links, r)| - if links[p] == r then 1 else 0
  {
    assert Before(links - {p}, r) == Before(links, r) - {p};
    assert p in Before(links, r) <==> links[p] == r;
  }

  /** The last pointer to p is given up: p goes, and its pointer to its successor is the next to give up. */
  lemma GraphForgets(links: Links, refs: map<Pbuf, int>, held: multiset<Pbuf>, p: Pbuf)
    requires Graph(links, refs, held, p) && refs[p] == 1
    ensures Graph(links - {p}, refs - {p}, held, links[p])
    ensures links[p] != null ==> links[p] in links - {p}
  {
    assert Pointers(links, held, p, p) == 1;
    assert Before(links, p) == {} && held[p] == 0;
    forall q | q in links ensures links[q] != p {
      assert q !in Before(links, p);
    }
    forall r | r in links - {p} ensures refs[r] == Pointers(links - {p}, held, links[p], r) {
      BeforeWithout(links, p, r);
      assert refs[r] == Pointers(links, held, p, r);
    }
  }

  /** Another pointer to p remains: nothing else changes. */
  lemma GraphKeeps(links: Links, refs: map<Pbuf, int>, held: multiset<Pbuf>, p: Pbuf)
    requires Graph(links, refs, held, p) && refs[p] > 1
    ensures Graph(links, refs[p := refs[p] - 1], held, null)
  {
    forall r | r in links ensures refs[p := refs[p] - 1][r] == Pointers(links, held, null, r) {
      assert refs[r] == Pointers(links, held, p, r);
    }
  }

  /** A held pointer becomes the one to give up. */
  lemma GraphHandsOver(links: Links, refs: map<Pbuf, int>, held: multiset<Pbuf>, p: Pbuf)
    requires Graph(links, refs, held, null) && held[p] > 0
    ensures p in links && Graph(links, refs, held - multiset{p}, p)
  {
    forall r | r in links ensures refs[r] == Pointers(links, held - multiset{p}, p, r) {
      assert refs[r] == Pointers(links, held, null, r);
    }
  }

  /** A new pbuf with one pointer to it, and none from it. */
  lemma GraphAdds(links: Links, refs: map<Pbuf, int>, held: multiset<Pbuf>, p: Pbuf)
    requires Graph(links, refs, held, null) && p !in links
    ensures Graph(links[p := null], refs[p := 1], held + multiset{p}, null)
  {
    var links', refs', held' := links[p := null], refs[p := 1], held + multiset{p};
    assert held[p] == 0;
    forall r | r in links' ensures refs'[r] == Pointers(links', held', null, r) {
      assert Before(links', r) == Before(links, r);
      assert r != p ==> refs[r] == Pointers(links, held, null, r);
      assert r == p ==> Before(links, r) == {};
    }
  }

  /** Cutting the link behind f while holding on to what it led to. */
  lemma GraphCuts(links: Links, refs: map<Pbuf, int>, held: multiset<Pbuf>, f: Pbuf)
    requires Graph(links, refs, held, null) && f in links
    ensures Graph(links[f := null], refs, held + One(links[f]), null)
  {
    hide Pointers;
    forall r | r in links ensures refs[r] == Pointers(links[f := null], held + One(links[f]), null, r) {
      PointersCut(links, held, f, r);
    }
  }

  lemma PointersCut(links: Links, held: multiset<Pbuf>, f: Pbuf, r: Pbuf)
    requires f in links
    ensures Pointers(links[f := null], held + One(links[f]), null, r) == Pointers(links, held, null, r)
  {
    assert Before(links[f := null], r) == Before(links, r) - {f};
    assert f in Before(links, r) <==> links[f] == r;
  }

  function One(p: Pbuf?): multiset<Pbuf> {
    if p == null then multiset{} else multiset{p}
  }

  /** Each pbuf on the path is linked to the next one. */
  ghost predicate LinkedPath(links: Links, path: seq<Pbuf>) {
    forall i | 0 <= i < |path| - 1 :: path[i] in links && links[path[i]] == path[i + 1]
  }

  /**
   Nothing is leaked: if the links make no cycle (some rank grows along every link), each
   allocated pbuf is reached from a pointer that somebody holds.
   */
  lemma {:induction false} HeldPointersReachAll(links: Links, refs: map<Pbuf, int>, held: multiset<Pbuf>, rank: map<Pbuf, nat>, p: Pbuf)
      returns (path: seq<Pbuf>)
    requires Graph(links, refs, held, null) && p in links
    requires rank.Keys == links.Keys
    requires forall q | q in links && links[q] != null :: rank[q] < rank[links[q]]
    ensures path != [] && path[|path| - 1] == p && path[0] in held && LinkedPath(links, path)
    decreases rank[p]
  {
    if p in held {
      path := [p];
    } else {
      assert refs[p] == Pointers(links, held, null, p);
      assert Before(links, p) != {};
      var q := AnyOf(Before(links, p));
      var prefix := HeldPointersReachAll(links, refs, held, rank, q);
      path := prefix + [p];
      forall i | 0 <= i < |path| - 1 ensures path[i] in links && links[path[i]] == path[i + 1] {
        if i < |prefix| - 1 {
          assert prefix[i] in links && links[prefix[i]] == prefix[i + 1];
        }
      }
    }
  }

  lemma AnyOf(s: set<Pbuf>) returns (q: Pbuf)
    requires s != {}
    ensures q in s
  {
    q :| q in s;
  }

  // ---------------------------------------------------------------- pbuf_free

  /** What pbuf_free deallocates: the pbufs from p on whose only pointer is the one being given up. */
  ghost predicate Freed(links: Links, refs: map<Pbuf, int>, p: Pbuf?, freed: seq<Pbuf>, stop: Pbuf?)
    decreases |freed|
  {
    if freed == [] then stop == p
    else
      && p == freed[0] && freed[0] in links && freed[0] in refs && refs[freed[0]] == 1
      && Freed(links, refs, links[freed[0]], freed[1..], stop)
  }

  lemma {:induction false} FreedGrows(links: Links, refs: map<Pbuf, int>, p: Pbuf?, freed: seq<Pbuf>, stop: Pbuf)
    ensures Freed(links, refs, p, freed, stop) && stop in links && stop in refs && refs[stop] == 1
            ==> Freed(links, refs, p, freed + [stop], links[stop])
    decreases |freed|
  {
    if freed == [] {
      assert (freed + [stop])[1..] == [];
    } else if freed[0] in links {
      assert (freed + [stop])[1..] == freed[1..] + [stop];
      FreedGrows(links, refs, links[freed[0]], freed[1..], stop);
    }
  }

  function Elements(s: seq<Pbuf>): set<Pbuf> {
    set f | f in s
  }

  /** A counter kept in eight bits. */
  function InByte(n: nat): (b: Byte)
    ensures n < 256 ==> b == n
    ensures (n - b) % 256 == 0
  {
    n % 256
  }

  /**
   All pbufs that are allocated, with the pointers held outside of chains: by applications
   and by the stack.
   */
  class Pool {
    ghost var live: set<Pbuf>
    ghost var held: multiset<Pbuf>

    ghost function AllLinks(): Links
      reads this, live`next
    {
      map p | p in live :: p.next
    }

    ghost function AllRefs(): map<Pbuf, int>
      reads this, live`ref
    {
      map p | p in live :: p.ref
    }

    ghost predicate ValidWith(extra: Pbuf?)
      reads this, live`next, live`ref
    {
      Graph(AllLinks(), AllRefs(), held, extra)
    }

    /** Every pbuf's `ref` equals the pointers to it, and no pointer leads to a freed pbuf. */
    ghost predicate Valid()
      reads this, live`next, live`ref
    {
      ValidWith(null)
    }

    /** No pbufs. */
    constructor ()
      ensures Valid() && live == {} && held == multiset{}
    {
      live, held := {}, multiset{};
    }

    /** A new pbuf, to which the stack holds the only pointer. */
    method Adopt(area: seq<Byte>) returns (p: Pbuf)
      requires Valid() && |area| < 0x1_0000
      modifies this
      ensures Valid() && fresh(p) && live == old(live) + {p} && held == old(held) + multiset{p}
      ensures p.InBounds() && p.Bytes() == area
      ensures p.area == area && p.next == null && p.payload == 0 && p.len == p.tot_len == |area| && p.ref == 1
      ensures AllRefs() == old(AllRefs())[p := 1]
    {
      hide Graph;
      ghost var links, refs := AllLinks(), AllRefs();
      p := new Pbuf(area);
      assert p !in live;
      GraphAdds(links, refs, held, p);
      live, held := live + {p}, held + multiset{p};
      assert AllLinks() == links[p := null] && AllRefs() == refs[p := 1];
    }

    /** The pointer the caller gives up stops being held and becomes the loop's own. */
    ghost method HandOver(p: Pbuf)
      requires Valid() && held[p] > 0
      modifies this`held
      ensures held == old(held) - One(p) && ValidWith(p) && p in live
      ensures AllLinks() == old(AllLinks()) && AllRefs() == old(AllRefs())
    {
      hide Graph, Pointers;
      ghost var links, refs := AllLinks(), AllRefs();
      GraphHandsOver(links, refs, held, p);
      assert p in links;
      held := held - multiset{p};
      assert AllLinks() == links && AllRefs() == refs;
    }

    /** One turn of pbuf_free's loop: gives up the extra pointer to p. */
    method GiveUp(p: Pbuf) returns (gone: bool)
      requires ValidWith(p) && p in live
      modifies this`live, p`ref
      ensures ValidWith(if gone then p.next else null) && (gone && p.next != null ==> p.next in live)
      ensures gone <==> old(p.ref) == 1
      ensures p in old(AllRefs()) && old(AllRefs())[p] == old(p.ref)
      ensures p in old(AllLinks()) && old(AllLinks())[p] == p.next
      ensures if gone then AllLinks() == old(AllLinks()) - {p} && AllRefs() == old(AllRefs()) - {p}
              else AllLinks() == old(AllLinks()) && AllRefs() == old(AllRefs())[p := old(p.ref) - 1]
      ensures live == if gone then old(live) - {p} else old(live)
      ensures old(p.ref) > 0 && p.next == old(p.next)
    {
      hide Graph;
      ghost var links, refs := AllLinks(), AllRefs();
      assert refs[p] > 0 by { Positive(links, refs, held, p, p); }
      p.ref := p.ref - 1;
      gone := p.ref == 0;
      if gone {
        live := live - {p};
        assert AllLinks() == links - {p} && AllRefs() == refs - {p};
        GraphForgets(links, refs, held, p);
      } else {
        assert AllRefs() == refs[p := refs[p] - 1];
        GraphKeeps(links, refs, held, p);
      }
    }

    lemma Positive(links: Links, refs: map<Pbuf, int>, held: multiset<Pbuf>, extra: Pbuf?, p: Pbuf)
      requires Graph(links, refs, held, extra) && p in links
      ensures p in refs && refs[p] > 0
    {
    }

    /** How far pbuf_free has come: p is the pbuf to give up next, the rest as in Free. */
    ghost predicate Progress(links: Links, refs: map<Pbuf, int>, p0: Pbuf?, p: Pbuf?, freed: seq<Pbuf>, stop: Pbuf?)
      reads this, live`next, live`ref
    {
      && ValidWith(p)
      && (p != null ==> p in live && stop == null)
      && (stop != null ==> stop in live && stop in refs && refs[stop] > 1)
      && Freed(links, refs, p0, freed, if p != null then p else stop)
      && AllLinks() == LinksAfter(links, freed)
      && AllRefs() == RefsAfter(refs, freed, stop)
    }

    /** One turn of the loop, with its bookkeeping. */
    method Turn(p: Pbuf, ghost links: Links, ghost refs: map<Pbuf, int>, ghost p0: Pbuf?, ghost freed: seq<Pbuf>) returns (gone: bool)
      requires Progress(links, refs, p0, p, freed, null) && p in live
      modifies this`live, p`ref
      ensures live == if gone then old(live) - {p} else old(live)
      ensures if gone then Progress(links, refs, p0, p.next, freed + [p], null) else Progress(links, refs, p0, null, freed, p)
    {
      hide Graph, Freed, Elements, InByte, RefsAfter, LinksAfter, AllLinks, AllRefs, ValidWith;
      gone := GiveUp(p);
      StopStep(refs, freed, p);
      LinkKept(links, freed, p);
      FreeStep(links, refs, p0, freed, p);
    }

    lemma ProgressMade(links: Links, refs: map<Pbuf, int>, p0: Pbuf?, freed: seq<Pbuf>, stop: Pbuf?)
      requires Progress(links, refs, p0, null, freed, stop)
      ensures Valid() && live == links.Keys - Elements(freed)
      ensures Freed(links, refs, p0, freed, stop)
      ensures AllLinks() == LinksAfter(links, freed) && AllRefs() == RefsAfter(refs, freed, stop)
      ensures stop != null ==> stop in live && stop in refs && refs[stop] > 1
    {
      assert AllLinks().Keys == live;
    }

    /** pbuf_free: gives up one held pointer.  `freed` is what it deallocated, `stop` where it stopped. */
    method Free(p0: Pbuf?) returns (count: Byte, ghost freed: seq<Pbuf>, ghost stop: Pbuf?)
      requires Valid() && (p0 != null ==> held[p0] > 0)
      modifies this, live`ref
      ensures Valid()
      ensures held == old(held) - One(p0)
      ensures Freed(old(AllLinks()), old(AllRefs()), p0, freed, stop)
      ensures live == old(live) - Elements(freed)
      ensures AllLinks() == LinksAfter(old(AllLinks()), freed)
      ensures AllRefs() == RefsAfter(old(AllRefs()), freed, stop)
      ensures stop != null ==> stop in live && stop in old(AllRefs()) && old(AllRefs())[stop] > 1
      ensures (|freed| < 256 ==> count == |freed|) && (|freed| - count) % 256 == 0
    {
      hide *;
      count, freed, stop := 0, [], null;
      ghost var links, refs := AllLinks(), AllRefs();
      LinksKeys();
      FreeStarts(links, refs, p0);
      if p0 == null {
        return;
      }
      HandOver(p0);
      FirstProgress(links, refs, p0);
      var p: Pbuf? := p0;
      while p != null
        invariant Progress(links, refs, p0, p, freed, stop)
        invariant p != null ==> p in live && stop == null
        invariant live <= old(live) && held == old(held) - One(p0)
        invariant count == InByte(|freed|)
        decreases p != null, live
      {
        var q := p.next;
        var gone := Turn(p, links, refs, p0, freed);
        if gone {
          CountStep(|freed|);
          freed := freed + [p];
          count := InByte(count + 1);
          p := q;
          NextIsLive(links, refs, p0, p, freed);
        } else {
          stop := p;
          p := null;
        }
      }
      ProgressMade(links, refs, p0, freed, stop);
    }

    lemma LinksKeys()
      ensures AllLinks().Keys == live
    {
    }

    lemma FirstProgress(links: Links, refs: map<Pbuf, int>, p: Pbuf)
      requires ValidWith(p) && p in live && links == AllLinks() && refs == AllRefs()
      ensures Progress(links, refs, p, p, [], null)
    {
      FreeStarts(links, refs, p);
    }

    lemma NextIsLive(links: Links, refs: map<Pbuf, int>, p0: Pbuf?, p: Pbuf?, freed: seq<Pbuf>)
      requires Progress(links, refs, p0, p, freed, null)
      ensures p != null ==> p in live
    {
    }
  }

  /** The reference counts once `freed` is gone and one pointer to `stop` is given up. */
  function RefsAfter(refs: map<Pbuf, int>, freed: seq<Pbuf>, stop: Pbuf?): map<Pbuf, int> {
    map p | p in refs && p !in freed :: if p == stop then refs[p] - 1 else refs[p]
  }

  function LinksAfter(links: Links, freed: seq<Pbuf>): Links {
    map p | p in links && p !in freed :: links[p]
  }

  lemma FreeStarts(links: Links, refs: map<Pbuf, int>, p: Pbuf?)
    ensures Freed(links, refs, p, [], p) && Elements([]) == {} && InByte(0) == 0
    ensures RefsAfter(refs, [], null) == refs && LinksAfter(links, []) == links
    ensures p == null ==> One(p) == multiset{}
  {
  }

  lemma FreeStep(links: Links, refs: map<Pbuf, int>, p0: Pbuf?, freed: seq<Pbuf>, p: Pbuf)
    ensures Elements(freed + [p]) == Elements(freed) + {p}
    ensures Freed(links, refs, p0, freed, p) && p in links && p in refs && refs[p] == 1
            ==> Freed(links, refs, p0, freed + [p], links[p])
    ensures RefsAfter(refs, freed + [p], null) == RefsAfter(refs, freed, null) - {p}
    ensures LinksAfter(links, freed + [p]) == LinksAfter(links, freed) - {p}
  {
    FreedGrows(links, refs, p0, freed, p);
  }

  lemma CountStep(n: nat)
    ensures InByte(InByte(n) + 1) == InByte(n + 1)
  {
  }

  lemma LinkKept(links: Links, freed: seq<Pbuf>, p: Pbuf)
    requires p in LinksAfter(links, freed)
    ensures p in links && LinksAfter(links, freed)[p] == links[p]
  {
  }

  lemma StopStep(refs: map<Pbuf, int>, freed: seq<Pbuf>, p: Pbuf)
    requires p in RefsAfter(refs, freed, null)
    ensures p in refs && RefsAfter(refs, freed, null)[p] == refs[p]
    ensures RefsAfter(refs, freed, p) == RefsAfter(refs, freed, null)[p := refs[p] - 1]
  {
  }
}
