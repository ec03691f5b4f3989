/**
 What becomes of an error that lwip_recv_tcp meets: after it has read some data, it returns the
 data and trusts in getting the same error again with the next call; without data it tells the
 error, and takes it away, even in a call that only peeks.
 */
module TcpErrors {
  import opened Pbufs
  import opened PbufChains
  import opened Netconns
  import opened TcpCalls
  import opened TcpReceive

  /** A call that starts with no pbuf left over, and during which the stack does nothing. */
  lemma QuietEnd(call: Call, stop: Stop, now: Side, recvd: nat)
    requires StopsAt(call, stop, now, recvd) && !call.start.left && now.wire == call.start.wire
    ensures var c := call.start.link;
            if MetOf(c).MetData? then (stop.Failed? ==> stop.later && stop.seen == c.(box := AfterData(c.box)))
            else stop == Failed(c, FetchError(c, Tries(c, call.dontWait), false), false) && stop.err != ErrOk && recvd == 0
  {
    hide LinkOk, Messages;
    assert call.start.wire[..0] == [];
    if stop.Failed? {
      if stop.later {
        AfterDataStops(stop.seen.box);
      } else {
        QuietIsSame(call.start, stop.seen, now.wire);
      }
    }
  }

  lemma {:induction false} AfterDataStops(ms: seq<Msg>)
    ensures AfterData(ms) != [] ==> !AfterData(ms)[0].Data?
    ensures ms == [] || !ms[0].Data? ==> AfterData(ms) == ms
  {
    if ms != [] && ms[0].Data? {
      AfterDataStops(ms[1..]);
    }
  }

  /** What the fetch that dropped the error found, when the stack did nothing during its call. */
  lemma SeenByDrop(a: Side, seen: Link, wire: seq<Event>, dontWait: bool)
    requires OnlyData(a, seen, wire) && wire == a.wire && !MetOf(seen).MetData? && !a.link.fin
    ensures ComesAgain(seen, dontWait) <==> ComesAgain(a.link.(box := AfterData(a.link.box)), dontWait)
  {
    assert a.wire[..0] == [];
    AfterDataStops(seen.box);
  }

  /**
   Two calls between which the stack does nothing.  The second one reports the error that the
   first one dropped if and only if `ComesAgain` holds of the connection as the dropping fetch found
   it; that is how it was before the first call, behind the data, if the stack did nothing at all.
   (Were the next message an empty pbuf, the second call would go on behind it.)
   */
  method ReadAgain(s: Sock, first: array<Byte>, second: array<Byte>, wait1: bool, wait2: bool)
      returns (r1: int, r2: int, errno: Err, ghost stop: Stop, ghost between: Side)
    requires s.Valid() && second.Length > 0
    modifies s, s.conn, s.pool, s.pool.live`ref, first, second
    modifies Members(s.chains)`next, Members(s.chains)`payload, Members(s.chains)`len, Members(s.chains)`tot_len
    ensures s.Valid()
    ensures r1 > 0 && stop.Failed? ==>
              && stop.err == FetchError(stop.seen, true, true) && between.link == FetchAfter(stop.seen, true, true)
              && (s.conn.wire == between.wire && (MetOf(between.link).MetData? ==> between.first > 0) ==>
                    (r2 <= 0 && errno == stop.err <==> ComesAgain(stop.seen, wait2)))
              && (old(s.conn.wire) == between.wire ==>
                    (ComesAgain(stop.seen, wait2) <==>
                     ComesAgain(old(s.conn.Value()).(box := AfterData(old(s.conn.recvmbox))), wait2)))
  {
    hide *;
    ghost var start1, limit1 := s.Here(), Limit(first.Length);
    s.HereIs();
    var e1;
    ghost var stop2;
    r1, e1, stop := s.RecvTcp(first, first.Length, false, wait1);
    s.HereIs();
    between := s.Here();
    ghost var limit2 := Limit(second.Length);
    r2, errno, stop2 := s.RecvTcp(second, second.Length, false, wait2);
    s.HereIs();
    if r1 > 0 && stop.Failed? {
      Dropped(Call(start1, limit1, false, wait1), stop, between, Count(r1), wait2);
      if s.conn.wire == between.wire {
        SecondCall(Call(between, limit2, false, wait2), stop2, s.Here(), Count(r2));
      }
    }
  }

  /** The error of the next fetch. */
  function NextFetch(c: Link, dontWait: bool): Err { FetchError(c, Tries(c, dontWait), false) }

  lemma Dropped(call: Call, stop: Stop, now: Side, recvd: nat, dontWait: bool)
    requires StopsAt(call, stop, now, recvd) && stop.Failed? && recvd > 0
    ensures stop.later && stop.err == FetchError(stop.seen, true, true) && now.link == FetchAfter(stop.seen, true, true) && !now.left
    ensures stop.err != ErrOk
    ensures NextFetch(now.link, dontWait) == stop.err <==> ComesAgain(stop.seen, dontWait)
    ensures now.wire == call.start.wire ==>
              (ComesAgain(stop.seen, dontWait) <==> ComesAgain(call.start.link.(box := AfterData(call.start.link.box)), dontWait))
  {
    hide AfterData, ComesAgain, FetchAfter, Messages, Flagged, NoData;
    DataIsNoError(stop.seen, now.wire, true, true);
    ComesAgainIff(stop.seen, dontWait);
    if now.wire == call.start.wire {
      SeenByDrop(call.start, stop.seen, now.wire, dontWait);
    }
  }

  lemma DataIsNoError(c: Link, wire: seq<Event>, tried: bool, noFin: bool)
    requires LinkOk(c, wire)
    ensures FetchError(c, tried, noFin) == ErrOk <==> MetOf(c).MetData?
    ensures forall m | m in c.box :: IsMessage(m)
  {
    FetchKeeps(c, wire, tried, noFin);
    forall i | 0 <= i < |c.box| ensures IsMessage(c.box[i]) {
      assert c.box[i] == (c.box + Messages(wire))[i];
    }
  }

  lemma SecondCall(call: Call, stop: Stop, now: Side, recvd: nat)
    requires StopsAt(call, stop, now, recvd) && !call.start.left && now.wire == call.start.wire && call.limit > 0
    ensures var next := NextFetch(call.start.link, call.dontWait);
            && (next != ErrOk ==> stop.Failed? && stop.err == next && recvd == 0)
            && (next == ErrOk ==> MetOf(call.start.link).MetData? && (call.start.first > 0 ==> recvd > 0))
  {
    hide AfterData, LinkOk, OnlyData, Messages, Flagged;
    QuietEnd(call, stop, now, recvd);
  }

  // ---------------------------------------------------------------- the errors of lwip_recv_tcp

  /** The error of a connection in which the stack does nothing, in the terms of api.c. */
  lemma ErrorTable(c: Link, dontWait: bool)
    ensures var err := FetchError(c, Tries(c, dontWait), false);
            && (!c.open ==> err == ErrConn)
            && (c.open && c.fin && c.pcb ==> err == ErrClsd)
            && (c.open && c.fin && !c.pcb ==> err == if c.pending != ErrOk then c.pending else ErrRst)
            && (c.open && !c.fin && c.box == [] ==>
                  err == if c.pending != ErrOk then c.pending
                         else if c.closed then ErrConn
                         else if c.nonBlocking || dontWait then ErrWouldBlock
                         else ErrTimeout)
            && (c.open && !c.fin && c.box != [] ==>
                  match c.box[0]
                  case Data(_) => err == ErrOk
                  case Failure(e) => err == e
                  case Closed => err == if c.pcb then ErrClsd else if c.pending != ErrOk then c.pending else ErrRst)
  {
  }

  /** And what such a fetch leaves behind. */
  lemma AfterTable(c: Link, dontWait: bool)
    ensures var d := FetchAfter(c, Tries(c, dontWait), false);
            && (c.open && (c.fin || (c.box != [] && c.box[0].Closed?)) ==>
                  if c.pcb then !d.open else d.open && !d.fin && d.pending == ErrOk)
            && (c.open && !c.fin && c.box == [] ==> d.open && d.pending == ErrOk)
            && (c.open && !c.fin && c.box != [] && c.box[0].Failure? ==> d.open && d.pending == c.pending && d.box == c.box[1..])
  {
  }

  lemma QuietAfter(call: Call, stop: Stop, now: Side, recvd: nat)
    requires StopsAt(call, stop, now, recvd) && !call.start.left && now.wire == call.start.wire
    ensures !MetOf(call.start.link).MetData? ==> now.link == FetchAfter(call.start.link, Tries(call.start.link, call.dontWait), false)
  {
    hide AfterData, LinkOk, OnlyData, Messages, Flagged, FetchAfter;
    QuietEnd(call, stop, now, recvd);
  }

  /** A call with no pbuf left over, during which the stack does nothing: when it returns which error. */
  method QuietRead(s: Sock, mem: array<Byte>, peek: bool, dontWait: bool) returns (ret: int, errno: Err)
    requires s.Valid() && mem.Length > 0 && s.lastdata == null
    modifies s, s.conn, s.pool, s.pool.live`ref, mem
    modifies Members(s.chains)`next, Members(s.chains)`payload, Members(s.chains)`len, Members(s.chains)`tot_len
    ensures s.Valid()
    ensures errno != ErrOk ==> ret == if errno == ErrClsd then 0 else -1
    ensures s.conn.wire == old(s.conn.wire) && !old(s.conn.mboxValid) ==> errno == ErrConn
    ensures s.conn.wire == old(s.conn.wire) && old(s.conn.mboxValid && s.conn.finPending) ==>
              && errno == (if old(s.conn.pcb) then ErrClsd
                           else if old(s.conn.pendingErr) != ErrOk then old(s.conn.pendingErr)
                           else ErrRst)
              && if old(s.conn.pcb) then !s.conn.mboxValid else s.conn.mboxValid && !s.conn.finPending && s.conn.pendingErr == ErrOk
    ensures s.conn.wire == old(s.conn.wire) && old(s.conn.mboxValid && !s.conn.finPending && s.conn.recvmbox == []) ==>
              && errno == (if old(s.conn.pendingErr) != ErrOk then old(s.conn.pendingErr)
                           else if old(s.conn.mboxClosed) then ErrConn
                           else if old(s.conn.nonBlocking) || dontWait then ErrWouldBlock
                           else ErrTimeout)
              && s.conn.mboxValid && s.conn.pendingErr == ErrOk
    ensures s.conn.wire == old(s.conn.wire) && old(s.conn.mboxValid && !s.conn.finPending && s.conn.recvmbox != []) ==>
              match old(s.conn.recvmbox[0])
              case Data(_) => old(s.FirstLen()) > 0 ==> errno == ErrOk && ret > 0
              case Failure(e) =>
                errno == e && s.conn.recvmbox == old(s.conn.recvmbox[1..]) && s.conn.pendingErr == old(s.conn.pendingErr)
              case Closed =>
                && errno == (if old(s.conn.pcb) then ErrClsd
                             else if old(s.conn.pendingErr) != ErrOk then old(s.conn.pendingErr)
                             else ErrRst)
                && if old(s.conn.pcb) then !s.conn.mboxValid else s.conn.mboxValid && s.conn.pendingErr == ErrOk
  {
    hide *;
    ghost var start, stop := s.Here(), Enough;
    s.HereIs();
    ghost var c := s.conn.Value();
    LinkIs(s.conn);
    ErrorTable(c, dontWait);
    AfterTable(c, dontWait);
    s.Opened();
    DataIsNoError(c, s.conn.wire, Tries(c, dontWait), false);
    BoxKind(c);
    ret, errno, stop := s.RecvTcp(mem, mem.Length, peek, dontWait);
    s.HereIs();
    LinkIs(s.conn);
    if s.conn.wire == start.wire {
      SecondCall(Call(start, Limit(mem.Length), peek, dontWait), stop, s.Here(), Count(ret));
      QuietAfter(Call(start, Limit(mem.Length), peek, dontWait), stop, s.Here(), Count(ret));
      NextFetchIs(c, dontWait);
    }
  }

  lemma BoxKind(c: Link)
    ensures MetOf(c).MetData? <==> c.open && !c.fin && c.box != [] && c.box[0].Data?
  {
  }

  lemma LinkIs(conn: Netconn)
    ensures conn.Value() == Link(conn.recvmbox, conn.mboxValid, conn.finPending, conn.pendingErr, conn.mboxClosed, conn.nonBlocking, conn.pcb)
  {
  }

  lemma NextFetchIs(c: Link, dontWait: bool)
    ensures NextFetch(c, dontWait) == FetchError(c, Tries(c, dontWait), false)
  {
  }

  /**
   From a side that was marked closed, a fetch that finds nothing and no pending error says that
   there is no connection; it does not ask to try again.  Only a side that was open, blocking and
   without error times out.
   */
  lemma ClosedIsFinal(a: Link, wire: seq<Event>, seen: Link, wire': seq<Event>, dontWait: bool, noFin: bool)
    requires Arrived(a, wire, seen, wire') && a.open && !a.fin && seen.box == [] && seen.pending == ErrOk
    ensures a.closed ==> FetchError(seen, Tries(a, dontWait), noFin) == ErrConn
    ensures FetchError(seen, Tries(a, dontWait), noFin) == ErrTimeout ==>
              !a.closed && !a.nonBlocking && !dontWait && a.pending == ErrOk
    ensures FetchError(seen, Tries(a, dontWait), noFin) == ErrWouldBlock ==>
              !seen.closed && (a.nonBlocking || dontWait || a.pending != ErrOk)
  {
    hide Flagged, Messages;
  }

  // ---------------------------------------------------------------- an error that is told

  /**
   A call, which may be a peek, that tells an error, and a second one; in between the stack does
   nothing.  The second one reports the same error if and only if `TellsAgain` holds of the
   connection as the first one found it.
   */
  method FailAgain(s: Sock, first: array<Byte>, second: array<Byte>, peek: bool, dontWait: bool)
      returns (r1: int, r2: int, e1: Err, e2: Err, ghost stop: Stop, ghost between: Side)
    requires s.Valid() && second.Length > 0
    modifies s, s.conn, s.pool, s.pool.live`ref, first, second
    modifies Members(s.chains)`next, Members(s.chains)`payload, Members(s.chains)`len, Members(s.chains)`tot_len
    ensures s.Valid()
    ensures r1 <= 0 && stop.Failed? && !stop.later ==>
              var tried := old(Tries(s.conn.Value(), dontWait));
              && e1 == stop.err == FetchError(stop.seen, tried, false) && between.link == FetchAfter(stop.seen, tried, false)
              && (s.conn.wire == between.wire && (MetOf(between.link).MetData? ==> between.first > 0) ==>
                    (r2 <= 0 && e2 == e1 <==> TellsAgain(stop.seen, tried, dontWait)))
              && (old(s.conn.wire) == between.wire ==> stop.seen == old(s.conn.Value()))
  {
    hide *;
    ghost var start1, limit1 := s.Here(), Limit(first.Length);
    s.HereIs();
    ghost var stop2;
    r1, e1, stop := s.RecvTcp(first, first.Length, peek, dontWait);
    s.HereIs();
    between := s.Here();
    ghost var limit2 := Limit(second.Length);
    r2, e2, stop2 := s.RecvTcp(second, second.Length, false, dontWait);
    s.HereIs();
    if r1 <= 0 && stop.Failed? && !stop.later {
      Told(Call(start1, limit1, peek, dontWait), stop, between, Count(r1), dontWait);
      if s.conn.wire == between.wire {
        SecondCall(Call(between, limit2, false, dontWait), stop2, s.Here(), Count(r2));
      }
    }
  }

  lemma Told(call: Call, stop: Stop, now: Side, recvd: nat, dontWait: bool)
    requires StopsAt(call, stop, now, recvd) && stop.Failed? && !stop.later && call.dontWait == dontWait
    ensures var tried := Tries(call.start.link, dontWait);
            && stop.err == FetchError(stop.seen, tried, false) && now.link == FetchAfter(stop.seen, tried, false) && !now.left
            && stop.err != ErrOk
            && (NextFetch(now.link, dontWait) == stop.err <==> TellsAgain(stop.seen, tried, dontWait))
    ensures now.wire == call.start.wire ==> stop.seen == call.start.link
  {
    hide AfterData, TellsAgain, FetchAfter, Messages, Flagged, NoData, HadData;
    var tried := Tries(call.start.link, dontWait);
    DataIsNoError(stop.seen, now.wire, tried, false);
    TellsAgainIff(stop.seen, tried, dontWait);
    QuietIsSame(call.start, stop.seen, now.wire);
  }

  /** A connection with one message of one byte, and a pending error. */
  function OneByte(p: Pbuf): Link {
    Link([Data(p)], true, false, ErrRst, false, true, true)
  }

  lemma OneByteRead(p: Pbuf, stop: Stop, now: Side, recvd: nat)
    requires StopsAt(Call(Side(OneByte(p), [], false, 1), 2, false, true), stop, now, recvd) && recvd <= 1
    ensures recvd == 1 && stop.Failed? && now.link == OneByte(p).(box := [], pending := ErrOk) && now.wire == [] && !now.left
  {
    hide LinkOk;
    QuietEnd(Call(Side(OneByte(p), [], false, 1), 2, false, true), stop, now, recvd);
    assert [Data(p)][1..] == [];
  }

  lemma NothingKnown(p: Pbuf, first: nat, stop: Stop, now: Side, recvd: nat)
    requires StopsAt(Call(Side(OneByte(p).(box := [], pending := ErrOk), [], false, first), 2, false, true), stop, now, recvd)
    ensures stop.Failed? && stop.err == ErrWouldBlock && recvd == 0
  {
    hide LinkOk, AfterData;
    QuietEnd(Call(Side(OneByte(p).(box := [], pending := ErrOk), [], false, first), 2, false, true), stop, now, recvd);
  }

  lemma SingleChain(pool: Pool, p: Pbuf)
    requires p in pool.live && p.ref == 1 && pool.held[p] > 0 && p.next == null && p.InBounds() && p.tot_len == p.len
    ensures ChainOk([p]) && Exclusive(pool.live, pool.AllRefs(), pool.held, [p]) && Disjoint([[p]])
    ensures Firsts([[p]]) == [p] == DataOf([Data(p)]) && Flat(Views([[p]])) == View([p]) == p.Bytes()
  {
    assert [p][1..] == [] && [[p]][1..] == [] && [Data(p)][1..] == [];
  }

  /** A socket that has received one byte, and then a reset. */
  method OneByteSock() returns (s: Sock, p: Pbuf)
    ensures fresh(s) && fresh(s.conn) && fresh(s.pool) && fresh(p) && s.pool.live == Members(s.chains) == {p}
    ensures s.Valid() && s.Here() == Side(OneByte(p), [], false, 1) && |s.Stream()| == 1
  {
    hide *;
    var pool := new Pool();
    p := pool.Adopt([7]);
    OneMessage(p);
    var conn := new Netconn([Data(p)], ErrRst, true);
    SingleChain(pool, p);
    s := new Sock(conn, pool, [[p]]);
    s.HereIs();
    OneChain(s, p);
  }

  /** A run in which a pending error is lost: the first call returns a byte, the second one knows of nothing. */
  method PendingErrorLost() returns (r1: int, e1: Err, r2: int, e2: Err)
    ensures r1 == 1 && e1 == ErrOk && r2 == -1 && e2 == ErrWouldBlock
  {
    hide *;
    var s, p := OneByteSock();
    var first, second := new Byte[2], new Byte[2];
    ghost var all, buffer, stop := s.Stream(), Contents(first), Enough;
    r1, e1, stop := s.RecvTcp(first, 2, false, true);
    FrontRead(all, s.Stream(), buffer, Contents(first), Count(r1), false);
    OneByteRead(p, stop, s.Here(), Count(r1));
    ghost var between := s.Here();
    assert between == Side(OneByte(p).(box := [], pending := ErrOk), [], false, between.first);
    r2, e2, stop := s.RecvTcp(second, 2, false, true);
    NothingKnown(p, between.first, stop, s.Here(), Count(r2));
  }

  /** A socket whose peer has closed. */
  function PeerClosed(): Link { Link([Closed], true, false, ErrOk, false, true, true) }

  lemma PeerClosedTold(peek: bool, stop: Stop, now: Side, recvd: nat)
    requires StopsAt(Call(Side(PeerClosed(), [], false, 0), 2, peek, true), stop, now, recvd)
    ensures recvd == 0 && stop.Failed? && stop.err == ErrClsd && !now.link.open && !now.left
  {
    hide LinkOk;
    QuietEnd(Call(Side(PeerClosed(), [], false, 0), 2, peek, true), stop, now, recvd);
  }

  lemma NoChains(pool: Pool)
    ensures Disjoint([]) && Firsts([]) == DataOf([Closed]) == [] && Flat(Views([])) == [] && MessagesOk([Closed])
    ensures PeerClosed() == Link([Closed], true, false, ErrOk, false, true, true)
  {
    assert [Closed][1..] == [];
  }

  lemma NoChain(s: Sock)
    requires s.chains == []
    ensures s.FirstLen() == 0 && Members(s.chains) == {}
  {
  }

  method ClosedSock() returns (s: Sock)
    ensures fresh(s) && fresh(s.conn) && fresh(s.pool) && s.pool.live == Members(s.chains) == {}
    ensures s.Valid() && s.Here() == Side(PeerClosed(), [], false, 0)
  {
    hide *;
    var pool := new Pool();
    NoChains(pool);
    var conn := new Netconn([Closed], ErrOk, true);
    s := new Sock(conn, pool, []);
    s.HereIs();
    NoChain(s);
  }

  /** A run in which a peek takes the FIN: it returns 0, and the read behind it fails instead of returning 0. */
  method PeekTakesFin() returns (r1: int, r2: int, e2: Err)
    ensures r1 == 0 && r2 == -1 && e2 == ErrConn
  {
    hide *;
    var s := ClosedSock();
    var first, second := new Byte[2], new Byte[2];
    var e1;
    ghost var stop;
    r1, e1, stop := s.RecvTcp(first, 2, true, true);
    PeerClosedTold(true, stop, s.Here(), Count(r1));
    s.HereIs();
    ghost var between := s.Here();
    r2, e2, stop := s.RecvTcp(second, 2, false, true);
    EndMeans(Call(between, 2, false, true), stop, s.Here(), Count(r2));
  }

  lemma OneChain(s: Sock, p: Pbuf)
    requires s.chains == [[p]] && p.InBounds() && p.len == 1
    ensures s.FirstLen() == |s.Stream()| == 1 && Members(s.chains) == {p}
  {
    assert [p][1..] == [] && [[p]][1..] == [];
    assert View([p]) == p.Bytes();
    assert Views([[p]]) == [View([p])];
    assert Flat([View([p])]) == View([p]) + Flat([]);
  }

  lemma OneMessage(p: Pbuf)
    ensures MessagesOk([Data(p)]) && [Data(p)] + [] == [Data(p)]
    ensures OneByte(p) == Link([Data(p)], true, false, ErrRst, false, true, true)
  {
  }
}
