/**
 One call of lwip_recv_tcp of sockets.c in terms of values: the bytes it moves, the messages
 it takes from the connection, and how its loop ends.
 */
module TcpCalls {
  import opened Pbufs
  import opened PbufChains
  import opened Netconns

  const ISIZE_MAX: int := 0x7FFF_FFFF

  // ---------------------------------------------------------------- bytes

  /** The value of a 32-bit signed result. */
  function AsIsize(x: int): int {
    var w := x % 0x1_0000_0000;
    if w > ISIZE_MAX then w - 0x1_0000_0000 else w
  }

  function ClampTo(x: int): U16 { x % 0x1_0000 }

  /** The clamp of lwip_recv_tcp for an overflowing count never applies. */
  lemma NoOverflow(recvd: nat, n: nat)
    ensures recvd + n <= ISIZE_MAX ==> AsIsize(recvd + n) >= recvd
  {
  }

  /** The bytes a call returned. */
  function Count(ret: int): (n: nat)
    ensures ret >= 0 ==> n == ret
    ensures ret <= 0 ==> n == 0
  {
    if ret < 0 then 0 else ret
  }

  /** How much a call may return. */
  function Limit(len: nat): (n: nat)
    ensures n <= len && n <= ISIZE_MAX && (len > 0 ==> n > 0)
    ensures len <= 0x7FFF_FFFF ==> n == len
    ensures n < len ==> n == ISIZE_MAX
  {
    if len <= ISIZE_MAX then len else ISIZE_MAX
  }

  /** Of the bytes `was`, n were read into a buffer at `recvd`, and are gone unless peeked. */
  predicate ReadOff(was: seq<Byte>, now: seq<Byte>, buffer: seq<Byte>, after: seq<Byte>, recvd: nat, n: nat, peek: bool) {
    && n <= |was| && recvd + n <= |buffer|
    && after == Written(buffer, recvd, was[..n])
    && now == if peek then was else was[n..]
  }

  lemma NothingRead(was: seq<Byte>, buffer: seq<Byte>, recvd: nat, peek: bool)
    requires recvd <= |buffer|
    ensures ReadOff(was, was, buffer, buffer, recvd, 0, peek)
  {
  }

  lemma NothingGone(was: seq<Byte>, now: seq<Byte>, buffer: seq<Byte>, after: seq<Byte>, peek: bool)
    requires ReadOff(was, now, buffer, after, 0, 0, peek)
    ensures was == now
  {
  }

  lemma ReadOffNow(was: seq<Byte>, buffer: seq<Byte>, after: seq<Byte>, recvd: nat, n: nat)
    requires n <= |was| && recvd + n <= |buffer| && after == Written(buffer, recvd, was[..n])
    ensures ReadOff(was, was, buffer, after, recvd, n, true)
    ensures ReadOff(was, was[n..], buffer, after, recvd, n, false)
  {
  }

  /** Reading n bytes after recvd others is reading recvd + n bytes. */
  lemma ReadOn(all: seq<Byte>, was: seq<Byte>, now: seq<Byte>, buffer: seq<Byte>, halfway: seq<Byte>, after: seq<Byte>,
               recvd: nat, n: nat, peek: bool)
    requires ReadOff(all, was, buffer, halfway, 0, recvd, peek) && ReadOff(was, now, halfway, after, recvd, n, peek)
    requires peek ==> recvd == 0
    ensures ReadOff(all, now, buffer, after, 0, recvd + n, peek)
  {
    if !peek {
      assert all[..recvd + n] == all[..recvd] + was[..n];
      WrittenTwice(buffer, 0, all[..recvd], was[..n]);
    }
  }

  lemma FrontRead(was: seq<Byte>, now: seq<Byte>, buffer: seq<Byte>, after: seq<Byte>, n: nat, peek: bool)
    requires ReadOff(was, now, buffer, after, 0, n, peek)
    ensures n <= |was| && n <= |after| && after[..n] == was[..n]
    ensures if peek then now == was else now == was[n..] && was == was[..n] + now
  {
  }

  lemma SamePrefix(all: seq<Byte>, n1: nat, n2: nat, peeked: seq<Byte>, read: seq<Byte>)
    requires n1 <= |peeked| && n2 <= |read| && n1 <= |all| && n2 <= |all|
    requires peeked[..n1] == all[..n1] && read[..n2] == all[..n2]
    ensures n1 <= n2 ==> read[..n1] == peeked[..n1]
  {
    if n1 <= n2 {
      assert read[..n1] == read[..n2][..n1];
    }
  }

  // ---------------------------------------------------------------- messages

  /** The messages from the first one on that is not data. */
  function AfterData(ms: seq<Msg>): seq<Msg> {
    if ms != [] && ms[0].Data? then AfterData(ms[1..]) else ms
  }

  /** What a call sees of the socket: the connection, whether a pbuf is left over, and the bytes in the next one. */
  datatype Side = Side(link: Link, wire: seq<Event>, left: bool, first: nat)

  /** A call: where it starts, and what is asked for. */
  datatype Call = Call(start: Side, limit: nat, peek: bool, dontWait: bool)

  /** Where its loop stands; `later` once a turn has read something. */
  datatype Progress = Progress(recvd: nat, later: bool, again: bool)

  /** How the loop ends: by itself, or at a fetch that found the connection like `seen` and gave an error. */
  datatype Stop = Enough | Failed(seen: Link, err: Err, later: bool)

  /** Nothing but data was taken; the rest is what the stack did. */
  predicate OnlyData(a: Side, link: Link, wire: seq<Event>) {
    && |wire| <= |a.wire|
    && wire == a.wire[|a.wire| - |wire|..]
    && link == Flagged(a.link, a.wire[..|a.wire| - |wire|]).(box := link.box)
    && AfterData(link.box + Messages(wire)) == AfterData(a.link.box + Messages(a.wire))
    && (wire == a.wire ==> AfterData(link.box) == AfterData(a.link.box))
  }

  /** The first turn had something to read. */
  predicate HadData(a: Side, wire: seq<Event>) {
    && !a.link.fin
    && (a.left || (a.link.open && (wire == a.wire ==> a.link.box != [] && a.link.box[0].Data?)))
  }

  /** Without a mailbox, or with a FIN put off, a fetch gives the stack no time. */
  predicate Given(a: Side, seen: Link, wire: seq<Event>) {
    Arrived(a.link, a.wire, seen, wire) && (a.link.fin || !a.link.open ==> wire == a.wire)
  }

  /** The head of the loop: nothing is fetched while a pbuf is left over. */
  predicate Fetched(a: Side, seen: Link, link: Link, wire: seq<Event>, tried: bool, noFin: bool) {
    if a.left then link == a.link && wire == a.wire
    else Given(a, seen, wire) && link == FetchAfter(seen, tried, noFin)
  }

  predicate Underway(call: Call, now: Side, pr: Progress) {
    && pr.recvd <= call.limit && (now.left ==> !now.link.fin)
    && if !pr.later then pr.again && pr.recvd == 0 && now == call.start
       else
         && OnlyData(call.start, now.link, now.wire) && HadData(call.start, now.wire)
         && pr.recvd >= Min(call.limit, call.start.first)
         && if call.peek then !pr.again && now.left && pr.recvd == Min(call.limit, now.first)
            else if pr.again then !now.left else pr.recvd == call.limit
  }

  /** The end of the loop, with recvd bytes read: the socket is `now`. */
  predicate StopsAt(call: Call, stop: Stop, now: Side, recvd: nat) {
    match stop
    case Enough => Underway(call, now, Progress(recvd, true, false))
    case Failed(seen, err, later) =>
      && OnlyData(call.start, seen, now.wire) && LinkOk(seen, now.wire)
      && err == FetchError(seen, TriesOf(call, later), later) && err != ErrOk
      && now.link == FetchAfter(seen, TriesOf(call, later), later) && !now.left && recvd <= call.limit
      && if later then !call.peek && HadData(call.start, now.wire) && recvd >= Min(call.limit, call.start.first)
         else recvd == 0 && !call.start.left && Given(call.start, seen, now.wire)
  }

  /** A fetch of the call tries once, and does not wait. */
  predicate TriesOf(call: Call, later: bool) {
    later || Tries(call.start.link, call.dontWait)
  }

  lemma Starts(call: Call)
    requires call.start.left ==> !call.start.link.fin
    ensures Underway(call, call.start, Progress(0, false, true))
  {
  }

  lemma OnlyOnePeek(call: Call, now: Side, pr: Progress)
    requires Underway(call, now, pr)
    ensures call.peek && pr.again ==> pr.recvd == 0
  {
  }

  lemma WireSplit(wire: seq<Event>, n: nat, k: nat)
    requires n + k <= |wire|
    ensures wire[n..][k..] == wire[n + k..] && wire[..n] + wire[n..][..k] == wire[..n + k]
  {
  }

  /** What the stack does does not change what comes after the data. */
  lemma ArrivedData(a: Side, link: Link, wire: seq<Event>, seen: Link, wire': seq<Event>)
    requires OnlyData(a, link, wire) && Arrived(link, wire, seen, wire')
    ensures OnlyData(a, seen, wire')
    ensures wire' == a.wire ==> wire == a.wire && seen == link
  {
    hide AfterData, Messages, Flagged;
    var n, k := |a.wire| - |wire|, |wire| - |wire'|;
    ArrivedOk(link, wire, seen, wire');
    WireSplit(a.wire, n, k);
    FlaggedConcat(a.link, a.wire[..n], wire[..k]);
    FlaggedBox(Flagged(a.link, a.wire[..n]), link.box, wire[..k]);
    if wire' == a.wire {
      NoneArrived(link, wire);
      assert wire[..0] == [];
    }
  }

  lemma OnlyDataSame(a: Side)
    ensures OnlyData(a, a.link, a.wire)
  {
    assert a.wire[..0] == [];
  }

  /** Fetching data keeps it so. */
  lemma TakenData(a: Side, seen: Link, wire: seq<Event>)
    requires OnlyData(a, seen, wire) && MetOf(seen).MetData?
    ensures OnlyData(a, seen.(box := seen.box[1..]), wire)
  {
    assert (seen.box + Messages(wire))[1..] == seen.box[1..] + Messages(wire);
  }

  /** Where a turn starts from. */
  lemma Onwards(call: Call, was: Side, pr: Progress)
    requires Underway(call, was, pr) && pr.again
    ensures OnlyData(call.start, was.link, was.wire)
    ensures pr.later ==> HadData(call.start, was.wire) && !was.left && !call.peek && pr.recvd >= Min(call.limit, call.start.first)
    ensures !pr.later ==> was == call.start && pr.recvd == 0
  {
    OnlyDataSame(call.start);
  }

  /** A turn that read something. */
  lemma GoesOn(call: Call, was: Side, pr: Progress, seen: Link, now: Side, n: nat)
    requires Underway(call, was, pr) && pr.again && pr.recvd + n <= call.limit
    requires Fetched(was, seen, now.link, now.wire, TriesOf(call, pr.later), pr.later) && (!was.left ==> MetOf(seen).MetData?)
    requires n == Min(call.limit - pr.recvd, was.first)
    requires call.peek ==> now.left && n == Min(call.limit - pr.recvd, now.first)
    requires !call.peek && n < call.limit - pr.recvd ==> !now.left
    ensures Underway(call, now, Progress(pr.recvd + n, true, pr.recvd + n < call.limit && !call.peek))
  {
    hide AfterData, OnlyData, Arrived, Messages, Flagged, Given, FetchAfter, HadData, MetOf, TriesOf, LinkOk;
    Onwards(call, was, pr);
    if !was.left {
      Took(call.start, was, seen, now, TriesOf(call, pr.later), pr.later);
    }
    StillData(call, was, pr, now);
  }

  lemma StillData(call: Call, was: Side, pr: Progress, now: Side)
    requires Underway(call, was, pr) && pr.again && !was.link.fin
    requires now.wire == call.start.wire ==> was.wire == call.start.wire
    requires was.left || (was.link.open && (now.wire == was.wire ==> was.link.box != [] && was.link.box[0].Data?))
    ensures HadData(call.start, now.wire)
  {
    hide OnlyData;
  }

  /** A fetch that took data. */
  lemma Took(a: Side, was: Side, seen: Link, now: Side, tried: bool, noFin: bool)
    requires OnlyData(a, was.link, was.wire) && !was.left
    requires Fetched(was, seen, now.link, now.wire, tried, noFin) && MetOf(seen).MetData?
    ensures OnlyData(a, now.link, now.wire)
    ensures !was.link.fin && was.link.open && !now.link.fin && |now.wire| <= |was.wire|
    ensures now.wire == a.wire ==> was.wire == a.wire
    ensures now.wire == was.wire ==> was.link.box != [] && was.link.box[0].Data?
  {
    hide AfterData, OnlyData, Messages, Flagged;
    ArrivedData(a, was.link, was.wire, seen, now.wire);
    TakenData(a, seen, now.wire);
    ArrivedOk(was.link, was.wire, seen, now.wire);
    QuietIsSame(was, seen, now.wire);
  }

  /** A turn that met something other than data. */
  lemma StopsWith(call: Call, was: Side, pr: Progress, seen: Link, err: Err, now: Side)
    requires Underway(call, was, pr) && pr.again && !was.left
    requires Fetched(was, seen, now.link, now.wire, TriesOf(call, pr.later), pr.later) && !now.left
    requires err == FetchError(seen, TriesOf(call, pr.later), pr.later) && err != ErrOk && LinkOk(seen, now.wire)
    ensures StopsAt(call, Failed(seen, err, pr.later), now, pr.recvd)
  {
    hide AfterData, OnlyData, Arrived, FetchError, FetchAfter, LinkOk;
    Onwards(call, was, pr);
    ArrivedData(call.start, was.link, was.wire, seen, now.wire);
  }

  /** What the end of a call says about the connection. */
  lemma EndMeans(call: Call, stop: Stop, now: Side, recvd: nat)
    requires StopsAt(call, stop, now, recvd)
    ensures stop.Failed? ==> NoData(now.link.box) || MetOf(stop.seen).MetFailure? || !now.link.open
    ensures stop.Failed? && stop.err == ErrClsd ==> TellsFin(stop, now) || ClosingPends(stop.seen)
    ensures call.start.link.fin && LinkOk(call.start.link, call.start.wire) && !call.start.left ==>
              stop.Failed? && !stop.later && stop.seen == call.start.link && stop.err == FinError(call.start.link)
              && (stop.seen.pcb ==> !now.link.open)
    ensures call.start.link.open && !now.link.open ==> stop.Failed? && stop.err == ErrClsd && TellsFin(stop, now)
    ensures !call.start.link.open && !call.start.left ==> stop.Failed? && !stop.later && stop.err == ErrConn
    ensures stop.Failed? && stop.later && MetOf(stop.seen).MetClosed? ==>
              now.link.fin && now.link.pcb == stop.seen.pcb && now.link.pending == stop.seen.pending && NoData(now.link.box + Messages(now.wire))
    ensures now.link.pcb ==> call.start.link.pcb
  {
    hide AfterData, MessagesOk, NoData, Messages, Flagged;
    if stop.Failed? {
      var tried := TriesOf(call, stop.later);
      FetchKeeps(stop.seen, now.wire, tried, stop.later);
      if !stop.later {
        ArrivedOk(call.start.link, call.start.wire, stop.seen, now.wire);
        QuietIsSame(call.start, stop.seen, now.wire);
      }
    }
  }

  /** The call has told the FIN: there is no more data, and the mailbox is gone. */
  predicate TellsFin(stop: Stop, now: Side)
    requires stop.Failed?
  {
    !stop.later && stop.seen.pcb && !now.link.open && NoData(now.link.box + Messages(now.wire))
  }

  /** The pending error is the closing, and would be told: there is no message, or no pcb. */
  predicate ClosingPends(c: Link) {
    c.pending == ErrClsd && (c.box == [] || !c.pcb)
  }

  lemma TellsMeans(stop: Stop, now: Side)
    ensures stop.Failed? && TellsFin(stop, now) ==> !stop.later && !now.link.open && NoData(now.link.box + Messages(now.wire))
  {
  }

  lemma QuietIsSame(a: Side, seen: Link, wire: seq<Event>)
    requires Given(a, seen, wire)
    ensures wire == a.wire ==> seen == a.link
  {
    if wire == a.wire {
      NoneArrived(a.link, a.wire);
    }
  }

  // ---------------------------------------------------------------- an error met after some data

  /**
   When the error that a call drops, because it has data to return, comes again with the next
   fetch.  c is the connection as the dropping fetch found it, and the stack does nothing in between.
   */
  predicate ComesAgain(c: Link, dontWait: bool) {
    || !c.open
    || (c.box == [] && if c.pending == ErrOk then c.closed || c.nonBlocking || dontWait else c.pending == EmptyError(c, dontWait))
    || (c.box != [] && c.box[0].Closed? && !c.pcb && c.pending == ErrWouldBlock)
    || (c.box != [] && c.box[0].Failure? &&
          if |c.box| == 1 then c.box[0].e == PendingOr(c, EmptyError(c, dontWait))
          else match c.box[1]
            case Data(_) => false
            case Failure(e) => c.box[0].e == e
            case Closed => !c.pcb && c.box[0].e == PendingOr(c, ErrRst))
  }

  lemma ComesAgainIff(c: Link, dontWait: bool)
    requires !c.fin && FetchError(c, true, true) != ErrOk && forall m | m in c.box :: IsMessage(m)
    ensures var next := FetchAfter(c, true, true);
            FetchError(next, Tries(next, dontWait), false) == FetchError(c, true, true) <==> ComesAgain(c, dontWait)
  {
    if c.box != [] {
      assert IsMessage(c.box[0]);
      if |c.box| > 1 {
        assert IsMessage(c.box[1]);
      }
    }
  }

  /** What a fetch from `box` gives, with neither a pending error nor a pcb. */
  function NextError(c: Link, box: seq<Msg>, dontWait: bool): Err {
    if box == [] then EmptyError(c, dontWait)
    else match box[0]
      case Data(_) => ErrOk
      case Failure(e) => e
      case Closed => ErrRst
  }

  /**
   The same of a fetch that tells its error, after it tried once or waited.  A call that peeks
   makes such a fetch, too.
   */
  predicate TellsAgain(c: Link, tried: bool, dontWait: bool) {
    || !c.open
    || (c.fin && !c.pcb && FinError(c) == NextError(c, c.box, dontWait))
    || (!c.fin && c.box == [] &&
          NothingError(c, tried) == if tried then EmptyError(c, dontWait) else PendingOr(c, EmptyError(c, dontWait)))
    || (!c.fin && c.box != [] && c.box[0].Closed? && !c.pcb && FinError(c) == NextError(c, c.box[1..], dontWait))
    || (!c.fin && c.box != [] && c.box[0].Failure? &&
          if |c.box| == 1 then c.box[0].e == PendingOr(c, EmptyError(c, dontWait))
          else match c.box[1]
            case Data(_) => false
            case Failure(e) => c.box[0].e == e
            case Closed => c.box[0].e == FinError(c))
  }

  lemma TellsAgainIff(c: Link, tried: bool, dontWait: bool)
    requires FetchError(c, tried, false) != ErrOk && forall m | m in c.box :: IsMessage(m)
    ensures var next := FetchAfter(c, tried, false);
            FetchError(next, Tries(next, dontWait), false) == FetchError(c, tried, false) <==> TellsAgain(c, tried, dontWait)
  {
    if MetOf(c).MetFailure? {
      FailureAgain(c, tried, dontWait);
    } else if MetOf(c).MetClosed? {
      ClosedAgain(c, tried, dontWait);
    }
  }

  lemma ClosedAgain(c: Link, tried: bool, dontWait: bool)
    requires MetOf(c).MetClosed? && forall m | m in c.box :: IsMessage(m)
    ensures var next := FetchAfter(c, tried, false);
            FetchError(next, Tries(next, dontWait), false) == FetchError(c, tried, false) <==> TellsAgain(c, tried, dontWait)
  {
    if |c.box| > 1 {
      assert IsMessage(c.box[1]);
    }
  }

  lemma FailureAgain(c: Link, tried: bool, dontWait: bool)
    requires MetOf(c).MetFailure? && forall m | m in c.box :: IsMessage(m)
    ensures var next := FetchAfter(c, tried, false);
            FetchError(next, Tries(next, dontWait), false) == FetchError(c, tried, false) <==> TellsAgain(c, tried, dontWait)
  {
    assert IsMessage(c.box[0]);
    if |c.box| > 1 {
      assert IsMessage(c.box[1]);
    }
  }

  /** A pending error is told once: with an empty mailbox it is lost. */
  lemma PendingErrorIsLost()
    ensures var c := Link([], true, false, ErrRst, false, false, true);
            && LinkOk(c, []) && FetchError(c, true, true) == ErrRst
            && FetchError(FetchAfter(c, true, true), true, false) == ErrWouldBlock && FetchError(FetchAfter(c, true, true), false, false) == ErrTimeout
  {
  }

  /** An error message may come again, from the pending error, and mostly does not. */
  lemma ErrorMessageMayComeAgain()
    ensures var c := Link([Failure(ErrRst)], true, false, ErrRst, false, false, true);
            && LinkOk(c, []) && FetchError(c, true, true) == ErrRst && FetchError(FetchAfter(c, true, true), true, false) == ErrRst
            && FetchError(FetchAfter(c.(pending := ErrOk), true, true), true, false) == ErrWouldBlock
  {
  }
}
