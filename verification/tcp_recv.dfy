/**
 lwip_recv_tcp of sockets.c: reading a TCP stream out of packet buffers, with what one call
 leaves over kept for the next.
 */
module TcpReceive {
  import opened Pbufs
  import opened PbufChains
  import opened Netconns
  import opened TcpCalls

  // ---------------------------------------------------------------- owned chains

  /** A chain in good order: it ends, and its lengths add up. */
  ghost predicate ChainOk(c: seq<Pbuf>)
    reads c`next, c`payload, c`len, c`tot_len
  {
    c != [] && Chain(c[0], c) && TotLenOk(c)
  }

  /** The socket holds the only pointer to the chain. */
  predicate Exclusive(live: set<Pbuf>, refs: map<Pbuf, int>, held: multiset<Pbuf>, c: seq<Pbuf>) {
    c != [] && Elements(c) <= live && AllOnes(refs, c) && held[c[0]] > 0
  }

  predicate Disjoint(cs: seq<seq<Pbuf>>) {
    forall i, j | 0 <= i < j < |cs| :: Elements(cs[i]) !! Elements(cs[j])
  }

  function Members(cs: seq<seq<Pbuf>>): (ms: set<Pbuf>)
    ensures forall i, p | 0 <= i < |cs| && p in cs[i] :: p in ms
  {
    if cs == [] then {} else Elements(cs[0]) + Members(cs[1..])
  }

  function Firsts(cs: seq<seq<Pbuf>>): seq<Pbuf>
    requires forall i | 0 <= i < |cs| :: cs[i] != []
  {
    seq(|cs|, i requires 0 <= i < |cs| => cs[i][0])
  }

  ghost function Views(cs: seq<seq<Pbuf>>): (vs: seq<seq<Byte>>)
    reads Members(cs)`payload, Members(cs)`len
    ensures |vs| == |cs| && forall i | 0 <= i < |cs| :: vs[i] == View(cs[i])
  {
    if cs == [] then [] else [View(cs[0])] + Views(cs[1..])
  }

  function Flat(vs: seq<seq<Byte>>): seq<Byte> {
    if vs == [] then [] else vs[0] + Flat(vs[1..])
  }

  /** The pbufs of the data messages. */
  function DataOf(ms: seq<Msg>): seq<Pbuf> {
    if ms == [] then []
    else if ms[0].Data? then [ms[0].p] + DataOf(ms[1..])
    else DataOf(ms[1..])
  }

  /** The unread pbufs: the leftover of the last call, then the data messages. */
  function Unread(lastdata: Pbuf?, ms: seq<Msg>): seq<Pbuf> {
    (if lastdata == null then [] else [lastdata]) + DataOf(ms)
  }

  class Sock {
    const conn: Netconn
    const pool: Pool
    var lastdata: Pbuf?
    /** The chains of the unread pbufs. */
    ghost var chains: seq<seq<Pbuf>>

    ghost predicate Valid()
      reads this, conn`recvmbox, conn`wire, conn`finPending, conn`mboxValid, conn`pendingErr
      reads conn`mboxClosed, conn`nonBlocking, conn`pcb
      reads pool, pool.live`next, pool.live`ref
      reads Members(chains)`next, Members(chains)`payload, Members(chains)`len, Members(chains)`tot_len
    {
      && conn.Valid() && pool.Valid()
      && (conn.finPending ==> lastdata == null)
      && (forall i | 0 <= i < |chains| :: ChainOk(chains[i]) && Exclusive(pool.live, pool.AllRefs(), pool.held, chains[i]))
      && Disjoint(chains)
      && Firsts(chains) == Unread(lastdata, conn.Pending())
    }

    /** All bytes not yet returned to the application, in order. */
    ghost function Stream(): seq<Byte>
      reads this`chains, Members(chains)`payload, Members(chains)`len
    {
      Flat(Views(chains))
    }

    /** The allocated pbufs that are none of the socket's. */
    ghost function Others(): set<Pbuf>
      reads this`chains, pool`live
    {
      pool.live - Members(chains)
    }

    lemma OthersIs()
      ensures Others() == pool.live - Members(chains)
    {
    }

    /** How many bytes the first unread pbuf chain holds. */
    ghost function FirstLen(): nat
      reads this`chains, Members(chains)`payload, Members(chains)`len
    {
      if chains == [] then 0 else |View(chains[0])|
    }

    ghost function Here(): Side
      reads this`lastdata, this`chains, Members(chains)`payload, Members(chains)`len
      reads conn`recvmbox, conn`wire, conn`finPending, conn`mboxValid, conn`pendingErr, conn`mboxClosed, conn`nonBlocking, conn`pcb
    {
      Side(conn.Value(), conn.wire, lastdata != null, FirstLen())
    }

    lemma HereIs()
      ensures Here().link == conn.Value() && Here().wire == conn.wire && Here().left == (lastdata != null) && Here().first == FirstLen()
      ensures Here().link.box == conn.recvmbox && conn.Pending() == Here().link.box + Messages(Here().wire)
      ensures Here().link.fin == conn.finPending && Here().link.open == conn.mboxValid && Here().link.pcb == conn.pcb
      ensures Here().link.pending == conn.pendingErr
      ensures conn.Valid() == LinkOk(Here().link, Here().wire)
    {
    }

    /** A socket for a netconn that may have received data already; cs are the chains of that data. */
    constructor (conn: Netconn, pool: Pool, ghost cs: seq<seq<Pbuf>>)
      requires conn.Valid() && pool.Valid() && Disjoint(cs)
      requires forall i | 0 <= i < |cs| :: cs[i] != [] && ChainOk(cs[i]) && Exclusive(pool.live, pool.AllRefs(), pool.held, cs[i])
      requires Firsts(cs) == DataOf(conn.Pending())
      ensures Valid() && this.conn == conn && this.pool == pool && lastdata == null && chains == cs
      ensures Stream() == Flat(Views(cs))
    {
      hide *;
      this.conn, this.pool, lastdata, chains := conn, pool, null, cs;
      new;
      UnreadIs(null, conn.Pending());
      Reclosed(Views(cs));
    }

    /** The stack is to do something more: if it posts data, that is in a chain of its own. */
    method Plan(ev: Event, ghost c: seq<Pbuf>)
      requires Valid() && MessagesOk(conn.Pending() + Messages([ev])) && (conn.finPending ==> !PostsData(ev))
      requires if PostsData(ev) then ChainOk(c) && c[0] == ev.msg.p && Exclusive(pool.live, pool.AllRefs(), pool.held, c)
                                     && Elements(c) !! Members(chains)
               else c == []
      modifies this`chains, conn`wire
      ensures Valid() && conn.wire == old(conn.wire) + [ev]
      ensures Stream() == old(Stream()) + View(c)
      ensures chains == old(chains) + if PostsData(ev) then [c] else []
    {
      hide *;
      Opened();
      HereIs();
      ghost var cs, views, posted := chains, Views(chains), PostsData(ev);
      if posted {
        ExclusiveMeans(pool.live, pool.AllRefs(), pool.held, c);
      }
      MorePosted(conn.recvmbox, conn.wire, ev, lastdata);
      ghost var more := if posted then [c] else [];
      ghost var seen := if posted then [View(c)] else [];
      WireGrows(conn.Value(), conn.wire, ev);
      conn.wire := conn.wire + [ev];
      chains := cs + more;
      HereIs();
      forall j | 0 <= j < |chains| ensures ChainOk(chains[j]) && View(chains[j]) == (views + seen)[j] {
        var d: seq<Pbuf> := chains[j];
        assert forall p: Pbuf | p in d ::
            p.next == old(p.next) && p.payload == old(p.payload) && p.len == old(p.len) && p.tot_len == old(p.tot_len);
        assert old(ChainOk(d)) && View(d) == old(View(d));
        assert ChainOk(d);
      }
      MoreChains(cs, more);
      MoreFirsts(cs, more);
      Reclosed(views + seen);
      FlatMore(views, c, posted);
    }

    /** What FinError is for a FIN put off. */
    lemma FinTold()
      ensures conn.finPending && conn.pcb ==> FinError(conn.Value()) == ErrClsd
      ensures conn.finPending && !conn.pcb ==> FinError(conn.Value()) == if conn.pendingErr == ErrOk then ErrRst else conn.pendingErr
    {
    }

    /** The head of the loop: what is left from the last call, or else a message from the mailbox. */
    method NextPbuf(dontBlock: bool, noFin: bool) returns (err: Err, ghost seen: Link)
      requires Valid()
      modifies conn, this`lastdata
      ensures Valid() && (err == ErrOk <==> lastdata != null)
      ensures chains == old(chains) && Stream() == old(Stream()) && FirstLen() == old(FirstLen())
      ensures Fetched(old(Here()), seen, conn.Value(), conn.wire, old(Tries(conn.Value(), dontBlock)), noFin) && LinkOk(seen, conn.wire)
      ensures old(lastdata) != null ==> lastdata == old(lastdata)
      ensures old(lastdata) == null ==>
                err == FetchError(seen, old(Tries(conn.Value(), dontBlock)), noFin) && (err == ErrOk <==> MetOf(seen).MetData?)
      ensures conn.credit == old(conn.credit)
      ensures conn.waits == old(conn.waits) + if old(lastdata == null && Waits(conn.Value(), dontBlock)) then 1 else 0
    {
      hide *;
      seen := conn.Value();
      HereIs();
      Opened();
      ghost var start, tried := Here(), Tries(conn.Value(), dontBlock);
      if lastdata != null {
        LeftoverFirst(start, seen, tried, noFin);
        return ErrOk, seen;
      }
      ghost var views := Views(chains);
      var p;
      err, p, seen := conn.RecvDataTcp(dontBlock, true, noFin);
      FetchKeeps(seen, conn.wire, tried, noFin);
      FetchedNow(start, seen, conn.wire, tried, noFin);
      UnreadAfter(start.link, start.wire, seen, conn.wire, tried, noFin);
      if err == ErrOk {
        lastdata := p;
      }
      HereIs();
      ghost var cs: seq<seq<Pbuf>> := chains;
      forall j | 0 <= j < |cs| ensures ChainOk(cs[j]) && View(cs[j]) == old(View(cs[j])) {
        var d: seq<Pbuf> := cs[j];
        assert forall p: Pbuf | p in d ::
            p.next == old(p.next) && p.payload == old(p.payload) && p.len == old(p.len) && p.tot_len == old(p.tot_len);
        assert old(ChainOk(d));
        assert ChainOk(d) && View(d) == old(View(d));
      }
      assert forall q: Pbuf | q in pool.live :: q.next == old(q.next);
      assert forall q: Pbuf | q in pool.live :: q.ref == old(q.ref);
      assert pool.Valid() && pool.AllRefs() == old(pool.AllRefs());
      Reclosed(views);
    }

    /** The first unread chain, when a pbuf is left over. */
    lemma HeadChain()
      requires Valid() && lastdata != null
      ensures chains != [] && chains[0] != [] && chains[0][0] == lastdata
      ensures Chain(lastdata, chains[0]) && TotLenOk(chains[0]) && |View(chains[0])| == lastdata.tot_len == FirstLen()
      ensures Exclusive(pool.live, pool.AllRefs(), pool.held, chains[0])
      ensures Views(chains) == [View(chains[0])] + Views(chains[1..])
      ensures Stream() == Flat(Views(chains)) == View(chains[0]) + Flat(Views(chains[1..]))
    {
      hide Chain, View, TotLenOk, Graph, Disjoint, Exclusive;
      assert Firsts(chains)[0] == lastdata;
      assert ChainOk(chains[0]);
      TotLenIsViewLength(lastdata, chains[0]);
      assert Views(chains)[0] == View(chains[0]) && Views(chains)[1..] == Views(chains[1..]);
    }

    /** The rest of the chains is untouched by what is done to the first one. */
    lemma Rest(cs: seq<seq<Pbuf>>, j: nat)
      requires Disjoint(cs) && 1 <= j < |cs|
      ensures forall p | p in cs[j] :: p !in cs[0]
    {
      var c, d := cs[0], cs[j];
      assert Elements(c) !! Elements(d);
      forall p | p in d ensures p !in c {
        assert p in Elements(d);
      }
    }

    /** pbuf_free_header on the first chain: the others are untouched. */
    method CutFirst(n: U16, ghost cs: seq<seq<Pbuf>>) returns (p: Pbuf?, ghost k: nat)
      requires Valid() && lastdata != null && cs == chains && cs != [] && n <= lastdata.tot_len
      modifies pool, pool.live`ref
      modifies Members(cs)`next, Members(cs)`payload, Members(cs)`len, Members(cs)`tot_len
      ensures pool.Valid() && k <= |cs[0]| && Chain(p, cs[0][k..]) && TotLenOk(cs[0][k..])
      ensures View(cs[0][k..]) == Drop(old(View(cs[0])), n)
      ensures pool.live == old(pool.live) - Elements(cs[0][..k]) && Elements(cs[0][k..]) <= pool.live
      ensures pool.held == old(pool.held) - One(old(lastdata)) + One(p)
      ensures pool.AllRefs() == RefsAfter(old(pool.AllRefs()), cs[0][..k], null)
      ensures forall j | 1 <= j < |cs| :: ChainOk(cs[j]) && View(cs[j]) == old(View(cs[j]))
    {
      hide *;
      HeadChain();
      Opened();
      ExclusiveMeans(pool.live, pool.AllRefs(), pool.held, cs[0]);
      ghost var refs := pool.AllRefs();
      RefsKeys(pool);
      p, k := FreeHeader(pool, lastdata, n, cs[0]);
      SolePointersGone(refs, cs[0], k);
      forall j | 1 <= j < |cs| ensures ChainOk(cs[j]) && View(cs[j]) == old(View(cs[j])) {
        Rest(cs, j);
        var d: seq<Pbuf> := cs[j];
        assert forall p: Pbuf | p in d ::
            p.next == old(p.next) && p.payload == old(p.payload) && p.len == old(p.len) && p.tot_len == old(p.tot_len);
        assert old(ChainOk(d));
        assert ChainOk(d) && View(d) == old(View(d));
      }
    }

    /** Part of the leftover was read: its first bytes go. */
    method TrimHead(n: U16)
      requires Valid() && lastdata != null && n < lastdata.tot_len
      modifies this`lastdata, this`chains, pool, pool.live`ref
      modifies Members(chains)`next, Members(chains)`payload, Members(chains)`len, Members(chains)`tot_len
      ensures Valid() && lastdata != null && |chains| == |old(chains)|
      ensures n <= |old(Stream())| && Stream() == old(Stream())[n..]
      ensures Others() == old(Others())
      ensures pool.live <= old(pool.live) && Members(chains) <= old(Members(chains))
    {
      hide *;
      HeadChain();
      Opened();
      OthersIs();
      ghost var cs, c := chains, chains[0];
      ghost var live, refs, held := pool.live, pool.AllRefs(), pool.held;
      ghost var view, tails := View(c), Views(cs[1..]);
      ghost var k;
      lastdata, k := CutFirst(n, cs);
      SameViews(cs, tails);
      TrimmedView(view, n, lastdata, c[k..]);
      AllStillExclusive(live, refs, held, cs, k, lastdata);
      TrimmedExclusive(live, refs, held, c, k, lastdata, pool.live);
      chains := [c[k..]] + cs[1..];
      NewHead(cs, c[k..], tails);
      KeptApart(live, cs, c, k);
      SkipFirst(view, Flat(tails), n);
      OthersIs();
    }

    lemma AllStillExclusive(live: set<Pbuf>, refs: map<Pbuf, int>, held: multiset<Pbuf>, cs: seq<seq<Pbuf>>, k: nat, p: Pbuf?)
      requires Disjoint(cs) && cs != [] && cs[0] != [] && k <= |cs[0]|
      requires forall j | 0 <= j < |cs| :: Exclusive(live, refs, held, cs[j])
      ensures forall j | 1 <= j < |cs| ::
                Exclusive(live - Elements(cs[0][..k]), RefsAfter(refs, cs[0][..k], null), held - One(cs[0][0]) + One(p), cs[j])
    {
      hide Exclusive, Disjoint;
      forall j | 1 <= j < |cs|
        ensures Exclusive(live - Elements(cs[0][..k]), RefsAfter(refs, cs[0][..k], null), held - One(cs[0][0]) + One(p), cs[j])
      {
        Rest(cs, j);
        StillExclusive(live, refs, held, cs[0], k, p, cs[j]);
      }
    }

    /** All of the leftover was read: its chain goes. */
    method DropHead()
      requires Valid() && lastdata != null
      modifies this`lastdata, this`chains, pool, pool.live`ref
      ensures Valid() && lastdata == null && |chains| < |old(chains)|
      ensures old(lastdata.tot_len) <= |old(Stream())| && Stream() == old(Stream())[old(lastdata.tot_len)..]
      ensures Others() == old(Others())
      ensures pool.live <= old(pool.live) && Members(chains) <= old(Members(chains))
    {
      hide *;
      HeadChain();
      Opened();
      OthersIs();
      ghost var cs, c := chains, chains[0];
      ghost var live, refs, held := pool.live, pool.AllRefs(), pool.held;
      ghost var view, tails, whole := View(c), Views(cs[1..]), lastdata.tot_len;
      ghost var links := pool.AllLinks();
      ExclusiveMeans(live, refs, held, c);
      ChainInLinks(pool, lastdata, c);
      var p := lastdata;
      lastdata := null;
      var count, freed, stop := pool.Free(p);
      FreesWholeChain(links, refs, p, c, freed, stop);
      forall j | 1 <= j < |cs| ensures ChainOk(cs[j]) && View(cs[j]) == old(View(cs[j])) {
        var d: seq<Pbuf> := cs[j];
        assert forall p: Pbuf | p in d ::
            p.next == old(p.next) && p.payload == old(p.payload) && p.len == old(p.len) && p.tot_len == old(p.tot_len);
        assert old(ChainOk(d));
        assert ChainOk(d) && View(d) == old(View(d));
      }
      SameViews(cs, tails);
      assert c[..|c|] == c;
      NothingHeld(held - One(p));
      AllStillExclusive(live, refs, held, cs, |c|, null);
      chains := cs[1..];
      NoHead(cs, tails, p);
      KeptApart(live, cs, c, |c|);
      SkipFirst(view, Flat(tails), whole);
      NothingLeft(view, Flat(tails));
      OthersIs();
    }

    /** The socket without its first chain is in order again. */
    lemma NoHead(cs: seq<seq<Pbuf>>, tails: seq<seq<Byte>>, p: Pbuf)
      requires conn.Valid() && pool.Valid() && lastdata == null
      requires cs != [] && Disjoint(cs) && chains == cs[1..]
      requires forall j | 1 <= j < |cs| :: ChainOk(cs[j]) && cs[j] != [] && Exclusive(pool.live, pool.AllRefs(), pool.held, cs[j])
      requires cs[0] != [] && Firsts(cs) == Unread(p, conn.Pending())
      requires tails == Views(cs[1..])
      ensures Valid() && Stream() == Flat(tails)
    {
      hide Exclusive, ChainOk, View, Graph;
      assert Firsts(chains) == Firsts(cs)[1..];
    }

    lemma Reclosed(views: seq<seq<Byte>>)
      requires conn.Valid() && pool.Valid() && (conn.finPending ==> lastdata == null) && Disjoint(chains)
      requires forall i | 0 <= i < |chains| :: ChainOk(chains[i]) && chains[i] != []
                && Exclusive(pool.live, pool.AllRefs(), pool.held, chains[i])
      requires Firsts(chains) == Unread(lastdata, conn.Pending())
      requires |views| == |chains| && forall i | 0 <= i < |chains| :: View(chains[i]) == views[i]
      ensures Valid() && Views(chains) == views && Stream() == Flat(views)
      ensures FirstLen() == if views == [] then 0 else |views[0]|
    {
      hide Exclusive, ChainOk, View, Graph;
    }

    lemma Opened()
      requires Valid()
      ensures conn.Valid() && pool.Valid() && (conn.finPending ==> lastdata == null) && Disjoint(chains)
      ensures forall i | 0 <= i < |chains| :: ChainOk(chains[i]) && chains[i] != []
                && Exclusive(pool.live, pool.AllRefs(), pool.held, chains[i])
      ensures Firsts(chains) == Unread(lastdata, conn.Pending()) && Stream() == Flat(Views(chains))
      ensures FirstLen() == if chains == [] then 0 else |Views(chains)[0]|
    {
    }

    /** The socket with its first chain cut down is in order again. */
    lemma NewHead(cs: seq<seq<Pbuf>>, c: seq<Pbuf>, tails: seq<seq<Byte>>)
      requires conn.Valid() && pool.Valid() && !conn.finPending
      requires cs != [] && Disjoint(cs) && chains == [c] + cs[1..] && Elements(c) <= Elements(cs[0])
      requires ChainOk(c) && c != [] && c[0] == lastdata && Exclusive(pool.live, pool.AllRefs(), pool.held, c)
      requires forall j | 1 <= j < |cs| :: ChainOk(cs[j]) && cs[j] != [] && Exclusive(pool.live, pool.AllRefs(), pool.held, cs[j])
      requires cs[0] != [] && Firsts(cs) == Unread(cs[0][0], conn.Pending())
      requires tails == Views(cs[1..])
      ensures Valid() && Stream() == View(c) + Flat(tails)
    {
      hide Exclusive, ChainOk, View, Graph;
      assert Firsts(chains) == [lastdata] + Firsts(cs)[1..];
      assert chains[1..] == cs[1..];
      assert Views(chains) == [View(c)] + Views(cs[1..]);
      assert Views(chains)[1..] == tails;
    }

    /** pbuf_copy_partial from the leftover to the caller's buffer. */
    method CopyOut(mem: array?<Byte>, recvd: nat, n: U16)
      requires Valid() && lastdata != null && n <= lastdata.tot_len
      requires if mem == null then recvd == n == 0 else recvd + n <= mem.Length
      modifies mem
      ensures Valid() && n <= |Stream()| && Stream() == old(Stream()) && FirstLen() == old(FirstLen())
      ensures recvd + n <= |old(Contents(mem))| && Contents(mem) == Written(old(Contents(mem)), recvd, Stream()[..n])
    {
      hide *;
      HeadChain();
      Opened();
      ghost var cs, c, views := chains, chains[0], Views(chains);
      ContentsLength(mem);
      WrittenNothing([], 0);
      FrontSlice(View(c), Flat(Views(chains[1..])), n);
      var copied := CopyPartial(lastdata, mem, recvd, n, 0, c);
      forall j | 0 <= j < |cs| ensures ChainOk(cs[j]) && View(cs[j]) == old(View(cs[j])) {
        var d: seq<Pbuf> := cs[j];
        assert forall p: Pbuf | p in d ::
            p.next == old(p.next) && p.payload == old(p.payload) && p.len == old(p.len) && p.tot_len == old(p.tot_len);
        assert old(ChainOk(d));
        assert ChainOk(d) && View(d) == old(View(d));
      }
      assert forall q: Pbuf | q in pool.live :: q.next == old(q.next);
      assert forall q: Pbuf | q in pool.live :: q.ref == old(q.ref);
      assert conn.Valid() && pool.Valid() && pool.AllRefs() == old(pool.AllRefs());
      Reclosed(views);
      ContentsLength(mem);
    }


    /** What was copied out goes, all of the leftover or its first bytes. */
    method Consume(n: U16)
      requires Valid() && lastdata != null && n <= lastdata.tot_len
      modifies this`lastdata, this`chains, pool, pool.live`ref
      modifies Members(chains)`next, Members(chains)`payload, Members(chains)`len, Members(chains)`tot_len
      ensures Valid() && n <= |old(Stream())| && Stream() == old(Stream())[n..]
      ensures n < old(lastdata.tot_len) ==> lastdata != null && |chains| == |old(chains)|
      ensures n == old(lastdata.tot_len) ==> lastdata == null && |chains| < |old(chains)|
      ensures Others() == old(Others())
      ensures pool.live <= old(pool.live) && Members(chains) <= old(Members(chains))
    {
      hide *;
      if lastdata.tot_len - n > 0 {
        TrimHead(n);
      } else {
        DropHead();
      }
    }

    /** One turn of lwip_recv_tcp's loop: the next pbuf, copied out and, unless peeking, consumed. */
    method Turn(mem: array?<Byte>, recvd: nat, left: nat, peek: bool, dontBlock: bool, noFin: bool)
        returns (err: Err, n: U16, ghost seen: Link)
      requires Valid() && recvd + left <= ISIZE_MAX
      requires if mem == null then recvd == left == 0 else recvd + left <= mem.Length
      modifies this, conn, pool, pool.live`ref, mem
      modifies Members(chains)`next, Members(chains)`payload, Members(chains)`len, Members(chains)`tot_len
      ensures Valid() && n <= left && ReadOff(old(Stream()), Stream(), old(Contents(mem)), Contents(mem), recvd, n, peek)
      ensures Others() == old(Others()) && pool.live <= old(pool.live) && Members(chains) <= old(Members(chains))
      ensures Fetched(old(Here()), seen, conn.Value(), conn.wire, old(Tries(conn.Value(), dontBlock)), noFin) && LinkOk(seen, conn.wire)
      ensures old(lastdata) == null ==>
                err == FetchError(seen, old(Tries(conn.Value(), dontBlock)), noFin) && (err == ErrOk <==> MetOf(seen).MetData?)
      ensures if err == ErrOk then n == Min(left, old(FirstLen())) else n == 0 && lastdata == null && old(lastdata) == null
      ensures err == ErrOk && peek ==> lastdata != null && n == Min(left, FirstLen())
      ensures err == ErrOk && !peek && n < left ==> lastdata == null && |chains| < |old(chains)|
      ensures |chains| <= |old(chains)|
      ensures conn.credit == old(conn.credit)
      ensures conn.waits == old(conn.waits) + if old(lastdata == null && Waits(conn.Value(), dontBlock)) then 1 else 0
    {
      hide *;
      ghost var stream, buffer := Stream(), Contents(mem);
      n := 0;
      err, seen := NextPbuf(dontBlock, noFin);
      ghost var link := conn.Value();
      ContentsLength(mem);
      if err != ErrOk {
        NothingRead(stream, buffer, recvd, peek);
        return;
      }
      HeadChain();
      var copylen: U16;
      if left > lastdata.tot_len {
        copylen := lastdata.tot_len;
      } else {
        copylen := left;
      }
      NoOverflow(recvd, copylen);
      if AsIsize(recvd + copylen) < recvd {
        copylen := ClampTo(ISIZE_MAX - recvd);
      }
      CopyOut(mem, recvd, copylen);
      n := copylen;
      ReadOffNow(stream, buffer, Contents(mem), recvd, n);
      if !peek {
        Consume(copylen);
      }
      assert conn.Value() == link;
    }

    /** One turn, in the terms of the whole call, in which `all` was to be read into `buffer`. */
    method Round(mem: array?<Byte>, recvd: nat, left: nat, dontBlock: bool, noFin: bool,
                 ghost call: Call, ghost all: seq<Byte>, ghost buffer: seq<Byte>, peek: bool) returns (err: Err, n: U16, ghost seen: Link)
      requires Valid() && recvd + left == call.limit <= ISIZE_MAX && call.peek == peek && dontBlock == (noFin || call.dontWait)
      requires if mem == null then recvd == left == 0 else recvd + left <= mem.Length
      requires ReadOff(all, Stream(), buffer, Contents(mem), 0, recvd, peek)
      requires Underway(call, Here(), Progress(recvd, noFin, true))
      modifies this, conn, pool, pool.live`ref, mem
      modifies Members(chains)`next, Members(chains)`payload, Members(chains)`len, Members(chains)`tot_len
      ensures Valid() && n <= left && ReadOff(all, Stream(), buffer, Contents(mem), 0, recvd + n, peek)
      ensures Others() == old(Others()) && pool.live <= old(pool.live) && Members(chains) <= old(Members(chains))
      ensures if err == ErrOk then Underway(call, Here(), Progress(recvd + n, true, n < left && !peek))
              else n == 0 && StopsAt(call, Failed(seen, err, noFin), Here(), recvd)
      ensures err == ErrOk && !peek && n < left ==> |chains| < |old(chains)|
      ensures conn.credit == old(conn.credit)
      ensures conn.waits == old(conn.waits) + if old(lastdata == null && Waits(conn.Value(), dontBlock)) then 1 else 0
    {
      hide *;
      ghost var stream, halfway, was, pr := Stream(), Contents(mem), Here(), Progress(recvd, noFin, true);
      HereIs();
      OnlyOnePeek(call, was, pr);
      TriesIs(call, was, pr);
      err, n, seen := Turn(mem, recvd, left, peek, dontBlock, noFin);
      HereIs();
      ReadOn(all, stream, Stream(), buffer, halfway, Contents(mem), recvd, n, peek);
      if err == ErrOk {
        GoesOn(call, was, pr, seen, Here(), n);
      } else {
        StopsWith(call, was, pr, seen, err, Here());
      }
    }

    /** The do loop of lwip_recv_tcp: to the end, or to the first error. */
    method ReadLoop(mem: array?<Byte>, limit: nat, peek: bool, dontWait: bool) returns (recvd: nat, err: Err, ghost stop: Stop)
      requires Valid() && limit <= ISIZE_MAX
      requires if mem == null then limit == 0 else limit <= mem.Length
      modifies this, conn, pool, pool.live`ref, mem
      modifies Members(chains)`next, Members(chains)`payload, Members(chains)`len, Members(chains)`tot_len
      ensures Valid() && ReadOff(old(Stream()), Stream(), old(Contents(mem)), Contents(mem), 0, recvd, peek)
      ensures Others() == old(Others()) && pool.live <= old(pool.live) && Members(chains) <= old(Members(chains))
      ensures StopsAt(Call(old(Here()), limit, peek, dontWait), stop, Here(), recvd)
      ensures err == if stop.Failed? then stop.err else ErrOk
      ensures conn.credit == old(conn.credit)
      ensures conn.waits == old(conn.waits) + if old(lastdata == null && Waits(conn.Value(), dontWait)) then 1 else 0
    {
      hide *;
      ghost var all, buffer, call := Stream(), Contents(mem), Call(Here(), limit, peek, dontWait);
      ghost var waited := conn.waits + if lastdata == null && Waits(conn.Value(), dontWait) then 1 else 0;
      ContentsLength(mem);
      Opened();
      HereIs();
      NothingRead(all, buffer, 0, peek);
      Starts(call);
      var left: nat := limit;
      recvd := 0;
      var dontBlock, noFin, again := dontWait, false, true;
      err, stop := ErrOk, Enough;
      while again
        invariant Valid() && err == ErrOk && (dontBlock <==> noFin || dontWait)
        invariant ReadOff(all, Stream(), buffer, Contents(mem), 0, recvd, peek) && recvd + left == limit
        invariant Others() == old(Others()) && pool.live <= old(pool.live) && Members(chains) <= old(Members(chains))
        invariant conn.credit == old(conn.credit)
        invariant noFin ==> conn.waits == waited
        invariant !noFin ==> again && conn.waits == old(conn.waits) && lastdata == old(lastdata) && conn.Value() == old(conn.Value())
        invariant Underway(call, Here(), Progress(recvd, noFin, again))
        decreases again, |chains|
      {
        var n;
        DontWaitTwice(conn.Value(), dontBlock);
        ghost var seen;
        err, n, seen := Round(mem, recvd, left, dontBlock, noFin, call, all, buffer, peek);
        if err != ErrOk {
          return recvd, err, Failed(seen, err, noFin);
        }
        recvd := recvd + n;
        left := left - n;
        dontBlock, noFin := true, true;
        again := left > 0 && !peek;
      }
      EnoughRead(call, Here(), recvd, noFin);
    }

    /**
     lwip_recv_tcp.  `errno` is the error it reports, or ErrOk; `stop` tells how its loop ended.
     An error met after data has been read is dropped.
     */
    method RecvTcp(mem: array?<Byte>, len: nat, peek: bool, dontWait: bool) returns (ret: int, errno: Err, ghost stop: Stop)
      requires Valid()
      requires if mem == null then len == 0 else len <= mem.Length
      modifies this, conn, pool, pool.live`ref, mem
      modifies Members(chains)`next, Members(chains)`payload, Members(chains)`len, Members(chains)`tot_len
      ensures Valid() && -1 <= ret <= Limit(len)
      ensures ReadOff(old(Stream()), Stream(), old(Contents(mem)), Contents(mem), 0, Count(ret), peek)
      ensures conn.credit == old(conn.credit) + if peek then 0 else Count(ret)
      ensures Others() == old(Others()) && pool.live <= old(pool.live) && Members(chains) <= old(Members(chains))
      // the connection, and the error
      ensures StopsAt(Call(old(Here()), Limit(len), peek, dontWait), stop, Here(), Count(ret))
      ensures errno == if stop.Failed? && ret <= 0 then stop.err else ErrOk
      ensures ret <= 0 && stop.Failed? ==> ret == if stop.err == ErrClsd then 0 else -1
      // how much is read
      ensures stop.Enough? ==> ret == Min(Limit(len), if peek then FirstLen() else Limit(len))
      ensures stop.Failed? ==> lastdata == null && (NoData(conn.recvmbox) || MetOf(stop.seen).MetFailure? || !conn.mboxValid)
      ensures stop.Enough? || stop.later ==> Count(ret) >= Min(Limit(len), old(FirstLen()))
      ensures old(lastdata) != null ==> stop.Enough? || stop.later
      ensures peek && ret > 0 ==> stop.Enough? && lastdata != null
      // the FIN
      ensures ret == 0 && len > 0 && !peek ==> errno == ErrClsd
      ensures errno == ErrClsd ==> stop.Failed? && (ClosingPends(stop.seen) || (old(Stream()) == [] && !conn.mboxValid))
      ensures old(conn.finPending) ==> errno == FinError(old(conn.Value())) && ret <= 0 && (old(conn.pcb) ==> !conn.mboxValid)
      ensures old(conn.mboxValid) && !conn.mboxValid ==> errno == ErrClsd && old(Stream()) == []
      ensures !old(conn.mboxValid) && old(lastdata) == null ==> ret == -1
      ensures stop.Failed? && MetOf(stop.seen).MetClosed? && ret > 0 ==>
                conn.finPending && Stream() == [] && conn.pcb == stop.seen.pcb && conn.pendingErr == stop.seen.pending
      ensures conn.pcb ==> old(conn.pcb)
      // waiting: once, and only with nothing to return
      ensures conn.waits == old(conn.waits) + if old(lastdata == null && Waits(conn.Value(), dontWait)) then 1 else 0
    {
      hide *;
      ghost var call, all, buffer := Call(Here(), Limit(len), peek, dontWait), Stream(), Contents(mem);
      HereIs();
      Opened();
      var limit := if len <= ISIZE_MAX then len else ISIZE_MAX;
      var recvd, err;
      recvd, err, stop := ReadLoop(mem, limit, peek, dontWait);
      HereIs();
      EndMeans(call, stop, Here(), recvd);
      EndOf(call, stop, Here(), recvd);
      TellsMeans(stop, Here());
      Drained();
      ret := recvd;
      if err != ErrOk && recvd == 0 {
        NothingGone(all, Stream(), buffer, Contents(mem), peek);
        ret := if err == ErrClsd then 0 else -1;
        return ret, err, stop;
      }
      if recvd > 0 && !peek {
        conn.credit := conn.credit + recvd;
      }
      errno := ErrOk;
    }

    /**
     What a peek returns is what the next read of the same length starts with.  A peek without
     data is not idle: it tells the FIN, so that the read fails.
     */
    method PeekThenRead(peeked: array<Byte>, read: array<Byte>, dontWait: bool)
        returns (r1: int, r2: int, e1: Err, e2: Err, ghost stop: Stop)
      requires Valid() && peeked.Length == read.Length && peeked != read
      modifies this, conn, pool, pool.live`ref, peeked, read
      modifies Members(chains)`next, Members(chains)`payload, Members(chains)`len, Members(chains)`tot_len
      ensures Valid() && (r1 > 0 ==> r1 <= r2 <= read.Length && read[..r1] == peeked[..r1])
      ensures Count(r2) <= |old(Stream())| && Count(r2) <= read.Length && read[..Count(r2)] == old(Stream())[..Count(r2)]
      ensures conn.credit == old(conn.credit) + Count(r2)
      ensures e1 == ErrClsd ==> r1 == 0 && stop.Failed? && (ClosingPends(stop.seen) || (old(Stream()) == [] && r2 == -1))
    {
      hide *;
      ghost var all, before1, before2 := Stream(), Contents(peeked), Contents(read);
      ghost var stop2;
      ContentsLength(read);
      r1, e1, stop := RecvTcp(peeked, peeked.Length, true, dontWait);
      ContentsLength(peeked);
      FrontRead(all, Stream(), before1, Contents(peeked), Count(r1), true);
      r2, e2, stop2 := RecvTcp(read, read.Length, false, dontWait);
      ContentsLength(read);
      ContentsLength(peeked);
      FrontRead(all, Stream(), before2, Contents(read), Count(r2), false);
      SamePrefix(all, Count(r1), Count(r2), peeked[..], read[..]);
    }

    /**
     Any sequence of calls, each with its length and a peek flag: the bytes they return, in
     order, are the bytes of the stream, and as many are acknowledged.
     */
    method ReadAll(requests: seq<(nat, bool)>, dontWait: bool) returns (out: seq<Byte>)
      requires Valid()
      modifies this, conn, pool, pool.live`ref
      modifies Members(chains)`next, Members(chains)`payload, Members(chains)`len, Members(chains)`tot_len
      ensures Valid() && out + Stream() == old(Stream())
      ensures conn.credit == old(conn.credit) + |out|
      ensures Others() == old(Others())
    {
      hide *;
      out := [];
      for i := 0 to |requests|
        invariant Valid() && out + Stream() == old(Stream())
        invariant conn.credit == old(conn.credit) + |out|
        invariant Others() == old(Others()) && pool.live <= old(pool.live) && Members(chains) <= old(Members(chains))
      {
        var mem := new Byte[requests[i].0];
        ghost var was, buffer := Stream(), Contents(mem);
        var ret, errno;
        ghost var stop;
        ret, errno, stop := RecvTcp(mem, requests[i].0, requests[i].1, dontWait);
        ContentsLength(mem);
        FrontRead(was, Stream(), buffer, Contents(mem), Count(ret), requests[i].1);
        if ret > 0 && !requests[i].1 {
          Regroup(out, mem[..ret], Stream());
          out := out + mem[..ret];
        }
      }
    }

    /** A call that meets the FIN after data returns the data; the next one returns 0, and the one after it fails. */
    method ReadThenFin(first: array<Byte>, second: array<Byte>, third: array<Byte>, dontWait: bool)
        returns (r1: int, r2: int, r3: int, ghost stop: Stop)
      requires Valid() && first.Length > 0
      modifies this, conn, pool, pool.live`ref, first, second, third
      modifies Members(chains)`next, Members(chains)`payload, Members(chains)`len, Members(chains)`tot_len
      ensures Valid()
      ensures stop.Failed? && MetOf(stop.seen).MetClosed? && r1 > 0 ==>
                r1 == |old(Stream())| && if stop.seen.pcb then r2 == 0 && r3 == -1 else r2 == if stop.seen.pending == ErrClsd then 0 else -1
      ensures r1 == 0 ==> stop.Failed? && (ClosingPends(stop.seen) || (old(Stream()) == [] && r2 == -1))
    {
      hide *;
      ghost var all, buffer := Stream(), Contents(first);
      var e1, e2, e3;
      ghost var stop2, stop3;
      r1, e1, stop := RecvTcp(first, first.Length, false, dontWait);
      FrontRead(all, Stream(), buffer, Contents(first), Count(r1), false);
      FinTold();
      r2, e2, stop2 := RecvTcp(second, second.Length, false, dontWait);
      r3, e3, stop3 := RecvTcp(third, third.Length, false, dontWait);
    }

    /** Without a leftover and without data messages to come the stream has ended. */
    lemma Drained()
      requires Valid()
      ensures lastdata == null && NoData(conn.Pending()) ==> Stream() == [] && FirstLen() == 0
    {
      hide Exclusive, ChainOk, View, Graph, NoData, Messages;
      DataOfNone(conn.Pending());
    }
  }

  /** Views read before a change, when the chains are still the same. */
  lemma SameViews(cs: seq<seq<Pbuf>>, tails: seq<seq<Byte>>)
    requires cs != [] && |tails| == |cs| - 1
    requires forall j | 1 <= j < |cs| :: View(cs[j]) == tails[j - 1]
    ensures tails == Views(cs[1..])
  {
  }

  lemma TrimmedView(view: seq<Byte>, n: nat, p: Pbuf?, c: seq<Pbuf>)
    requires n < |view| && Chain(p, c) && TotLenOk(c) && View(c) == Drop(view, n)
    ensures c != [] && p == c[0] && ChainOk(c) && View(c) == view[n..]
  {
  }

  /** A chain apart from c is as exclusive as before once the first k pbufs of c are gone. */
  lemma StillExclusive(live: set<Pbuf>, refs: map<Pbuf, int>, held: multiset<Pbuf>, c: seq<Pbuf>, k: nat, p: Pbuf?, d: seq<Pbuf>)
    requires Exclusive(live, refs, held, d) && c != [] && k <= |c| && forall q | q in d :: q !in c
    ensures Exclusive(live - Elements(c[..k]), RefsAfter(refs, c[..k], null), held - One(c[0]) + One(p), d)
  {
    assert d[0] in d && c[0] in c;
    forall q | q in d ensures q !in c[..k] {
      assert q in c[..k] ==> q in c;
    }
  }

  lemma TrimmedExclusive(live: set<Pbuf>, refs: map<Pbuf, int>, held: multiset<Pbuf>, c: seq<Pbuf>, k: nat, p: Pbuf?, live': set<Pbuf>)
    requires Exclusive(live, refs, held, c) && k < |c| && c[k] == p
    requires live' == live - Elements(c[..k]) && Elements(c[k..]) <= live'
    ensures Exclusive(live', RefsAfter(refs, c[..k], null), held - One(c[0]) + One(p), c[k..])
    ensures Elements(c[k..]) <= Elements(c)
  {
    forall q | q in c[k..] ensures q in c && q !in c[..k] {
      assert q in Elements(c[k..]);
    }
  }

  /** The links of the pool lead along the chain. */
  ghost predicate LinkedChain(links: Links, p: Pbuf?, c: seq<Pbuf>)
    decreases |c|
  {
    if c == [] then p == null
    else p == c[0] && p in links && LinkedChain(links, links[p], c[1..])
  }

  lemma {:induction false} ChainInLinks(pool: Pool, p: Pbuf?, c: seq<Pbuf>)
    requires Chain(p, c) && Elements(c) <= pool.live
    ensures LinkedChain(pool.AllLinks(), p, c)
    decreases |c|
  {
    if c != [] {
      assert c[0] in Elements(c);
      assert Elements(c[1..]) <= Elements(c);
      ChainInLinks(pool, c[0].next, c[1..]);
    }
  }

  /** Giving up a chain of singly referenced pbufs frees all of it. */
  lemma {:induction false} FreesWholeChain(links: Links, refs: map<Pbuf, int>, p: Pbuf?, c: seq<Pbuf>, freed: seq<Pbuf>, stop: Pbuf?)
    requires LinkedChain(links, p, c) && AllOnes(refs, c) && Freed(links, refs, p, freed, stop)
    requires stop != null ==> stop in refs && refs[stop] > 1
    ensures freed == c && stop == null
    decreases |c|
  {
    if c != [] {
      assert c[0] in c;
      assert freed != [];
      assert forall q | q in c[1..] :: q in c;
      FreesWholeChain(links, refs, links[c[0]], c[1..], freed[1..], stop);
      assert c == [c[0]] + c[1..] && freed == [freed[0]] + freed[1..];
    }
  }

  /** Cutting the first chain down takes the same pbufs from the pool as from the socket. */
  lemma KeptApart(live: set<Pbuf>, cs: seq<seq<Pbuf>>, c: seq<Pbuf>, k: nat)
    requires cs != [] && cs[0] == c && k <= |c|
    ensures (live - Elements(c[..k])) - Members([c[k..]] + cs[1..]) == live - Members(cs)
    ensures (live - Elements(c)) - Members(cs[1..]) == live - Members(cs)
    ensures Members([c[k..]] + cs[1..]) <= Members(cs) && Members(cs[1..]) <= Members(cs)
  {
    assert ([c[k..]] + cs[1..])[1..] == cs[1..];
    assert c == c[..k] + c[k..];
    assert Elements(c) == Elements(c[..k]) + Elements(c[k..]);
  }

  lemma NothingHeld(held: multiset<Pbuf>)
    ensures held + One(null) == held
  {
  }

  lemma SkipFirst(a: seq<Byte>, b: seq<Byte>, n: nat)
    requires n <= |a|
    ensures n <= |a + b| && a[n..] + b == (a + b)[n..]
  {
  }

  lemma NothingLeft(a: seq<Byte>, b: seq<Byte>)
    ensures a[|a|..] + b == b
  {
  }

  lemma FrontSlice(a: seq<Byte>, b: seq<Byte>, n: nat)
    requires n <= |a|
    ensures Slice(a, 0, n) == a[..n] == (a + b)[..n] && |Slice(a, 0, n)| == n
  {
  }

  ghost function Contents(mem: array?<Byte>): seq<Byte>
    reads mem
  {
    if mem == null then [] else mem[..]
  }

  lemma Regroup(a: seq<Byte>, b: seq<Byte>, c: seq<Byte>)
    ensures (a + b) + c == a + (b + c)
  {
  }

  lemma ContentsLength(mem: array?<Byte>)
    ensures if mem == null then Contents(mem) == [] else Contents(mem) == mem[..]
  {
  }

  lemma DontWaitTwice(c: Link, dontBlock: bool)
    ensures dontBlock ==> !Waits(c, dontBlock)
  {
  }

  lemma TriesIs(call: Call, was: Side, pr: Progress)
    requires Underway(call, was, pr)
    ensures Tries(was.link, pr.later || call.dontWait) == TriesOf(call, pr.later)
  {
  }

  lemma EnoughRead(call: Call, now: Side, recvd: nat, later: bool)
    requires Underway(call, now, Progress(recvd, later, false))
    ensures StopsAt(call, Enough, now, recvd)
  {
  }

  lemma EndOf(call: Call, stop: Stop, now: Side, recvd: nat)
    requires StopsAt(call, stop, now, recvd)
    ensures recvd <= call.limit
    ensures stop.Enough? ==> recvd == (if call.peek then Min(call.limit, now.first) else call.limit) && (call.peek ==> now.left)
    ensures stop.Failed? ==> !now.left && stop.err != ErrOk && (call.peek ==> recvd == 0)
    ensures stop.Enough? || stop.later ==> recvd >= Min(call.limit, call.start.first)
    ensures stop.Failed? && !stop.later ==> recvd == 0 && !call.start.left
  {
    hide AfterData, LinkOk, FetchError, HadData, Arrived, Messages, Flagged;
  }

  lemma UnreadIs(lastdata: Pbuf?, ms: seq<Msg>)
    ensures lastdata == null ==> Unread(lastdata, ms) == DataOf(ms)
  {
  }

  lemma {:induction false} DataOfConcat(xs: seq<Msg>, ys: seq<Msg>)
    ensures DataOf(xs + ys) == DataOf(xs) + DataOf(ys)
  {
    if xs == [] {
      assert xs + ys == ys;
    } else {
      assert (xs + ys)[1..] == xs[1..] + ys;
      DataOfConcat(xs[1..], ys);
    }
  }

  predicate PostsData(ev: Event) { ev.Posts? && ev.msg.Data? }

  lemma MessagesMore(wire: seq<Event>, ev: Event)
    ensures Messages(wire + [ev]) == Messages(wire) + Messages([ev])
    ensures Messages([ev]) == if ev.Posts? then [ev.msg] else []
  {
    MessagesConcat(wire, [ev]);
    assert [ev][1..] == [];
  }

  lemma WireGrows(c: Link, wire: seq<Event>, ev: Event)
    requires LinkOk(c, wire) && MessagesOk(c.box + Messages(wire) + Messages([ev])) && (c.fin ==> !PostsData(ev))
    ensures LinkOk(c, wire + [ev])
  {
    hide MessagesOk;
    MessagesMore(wire, ev);
    assert c.box + Messages(wire + [ev]) == c.box + Messages(wire) + Messages([ev]);
  }

  lemma MorePosted(box: seq<Msg>, wire: seq<Event>, ev: Event, lastdata: Pbuf?)
    ensures box + Messages(wire + [ev]) == box + Messages(wire) + Messages([ev])
    ensures Unread(lastdata, box + Messages(wire + [ev])) ==
            Unread(lastdata, box + Messages(wire)) + if PostsData(ev) then [ev.msg.p] else []
  {
    MessagesMore(wire, ev);
    DataOfConcat(box + Messages(wire), Messages([ev]));
    assert DataOf(Messages([ev])) == if PostsData(ev) then [ev.msg.p] else [] by {
      if ev.Posts? {
        assert [ev.msg][1..] == [];
      }
    }
    assert box + Messages(wire + [ev]) == (box + Messages(wire)) + Messages([ev]);
  }

  lemma ApartFrom(cs: seq<seq<Pbuf>>, c: seq<Pbuf>, i: nat)
    requires i < |cs| && Elements(c) !! Members(cs)
    ensures Elements(cs[i]) !! Elements(c)
  {
    hide Members;
    forall p | p in Elements(cs[i]) ensures p !in Elements(c) {
      assert p in cs[i];
    }
  }

  /** One chain more, or none, apart from the others. */
  lemma MoreChains(cs: seq<seq<Pbuf>>, more: seq<seq<Pbuf>>)
    requires Disjoint(cs) && |more| <= 1 && (more != [] ==> Elements(more[0]) !! Members(cs))
    ensures Disjoint(cs + more)
  {
    hide Members, Elements;
    var all := cs + more;
    forall i, j | 0 <= i < j < |all| ensures Elements(all[i]) !! Elements(all[j]) {
      if j == |cs| {
        ApartFrom(cs, more[0], i);
      }
    }
  }

  lemma MoreFirsts(cs: seq<seq<Pbuf>>, more: seq<seq<Pbuf>>)
    requires |more| <= 1 && (more != [] ==> more[0] != [])
    requires forall i | 0 <= i < |cs| :: cs[i] != []
    ensures forall i | 0 <= i < |cs + more| :: (cs + more)[i] != []
    ensures Firsts(cs + more) == Firsts(cs) + if more == [] then [] else [more[0][0]]
  {
    assert forall i | 0 <= i < |cs| :: (cs + more)[i] == cs[i];
    if more != [] {
      assert (cs + more)[|cs|] == more[0];
    }
  }

  lemma {:induction false} FlatAdd(vs: seq<seq<Byte>>, v: seq<Byte>)
    ensures Flat(vs + [v]) == Flat(vs) + v
  {
    if vs == [] {
      assert (vs + [v])[1..] == [];
    } else {
      assert (vs + [v])[1..] == vs[1..] + [v];
      FlatAdd(vs[1..], v);
    }
  }

  lemma FlatMore(vs: seq<seq<Byte>>, c: seq<Pbuf>, some: bool)
    requires !some ==> c == []
    ensures Flat(vs + if some then [View(c)] else []) == Flat(vs) + View(c)
  {
    if some {
      FlatAdd(vs, View(c));
    } else {
      assert vs + [] == vs;
    }
  }

  /** Nothing is fetched while a pbuf is left over. */
  lemma LeftoverFirst(a: Side, seen: Link, tried: bool, noFin: bool)
    requires a.left
    ensures Fetched(a, seen, a.link, a.wire, tried, noFin)
  {
  }

  lemma FetchedNow(a: Side, seen: Link, wire: seq<Event>, tried: bool, noFin: bool)
    requires !a.left && Arrived(a.link, a.wire, seen, wire) && (a.link.fin || !a.link.open ==> wire == a.wire)
    ensures Fetched(a, seen, FetchAfter(seen, tried, noFin), wire, tried, noFin)
  {
  }

  lemma ExclusiveMeans(live: set<Pbuf>, refs: map<Pbuf, int>, held: multiset<Pbuf>, c: seq<Pbuf>)
    requires Exclusive(live, refs, held, c)
    ensures c != [] && Elements(c) <= live && AllOnes(refs, c) && held[c[0]] > 0
  {
  }

  /** Fetching takes the first message off; the unread pbufs stay the same. */
  lemma UnreadAfter(a: Link, wire: seq<Event>, seen: Link, wire': seq<Event>, tried: bool, noFin: bool)
    requires Arrived(a, wire, seen, wire') && LinkOk(seen, wire')
    ensures Unread(FetchedPbuf(seen), FetchAfter(seen, tried, noFin).box + Messages(wire')) == Unread(null, a.box + Messages(wire))
    ensures FetchedPbuf(seen) != null <==> MetOf(seen).MetData?
    ensures FetchAfter(seen, tried, noFin).fin ==> FetchedPbuf(seen) == null
  {
    hide MessagesOk, FetchError, DataOf, Messages, Flagged, NoData, Arrived;
    ArrivedOk(a, wire, seen, wire');
    FetchKeeps(seen, wire', tried, noFin);
    DataOfFirst(seen.box, Messages(wire'));
    DataOfNone(seen.box + Messages(wire'));
    DataOfNone(FetchAfter(seen, tried, noFin).box + Messages(wire'));
    if seen.box != [] {
      DataOfNone(seen.box[1..] + Messages(wire'));
    }
  }

  lemma {:induction false} DataOfNone(ms: seq<Msg>)
    ensures NoData(ms) ==> DataOf(ms) == []
  {
    if NoData(ms) && ms != [] {
      assert forall i | 0 <= i < |ms| - 1 :: ms[1..][i] == ms[i + 1];
      DataOfNone(ms[1..]);
    }
  }

  lemma DataOfFirst(box: seq<Msg>, ms: seq<Msg>)
    ensures box != [] ==> DataOf(box + ms) == (if box[0].Data? then [box[0].p] else []) + DataOf(box[1..] + ms)
    ensures DataOf([]) == [] && [] + ms == ms
  {
    if box != [] {
      assert (box + ms)[1..] == box[1..] + ms;
    }
  }
}
