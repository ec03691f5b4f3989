/**
 The receiving side of a TCP netconn: netconn_recv_data and netconn_recv_data_tcp of api.c
 over the connection's mailbox.
 */
module Netconns {
  import opened Pbufs

  /** The error codes of err.h that the receive path tells apart. */
  datatype Err = ErrOk | ErrTimeout | ErrWouldBlock | ErrConn | ErrRst | ErrClsd | ErrOther(code: int)

  /** A mailbox entry: received data, the closing of the peer's side, or an error. */
  datatype Msg = Data(p: Pbuf) | Closed | Failure(e: Err)

  /** What a receive call came across. */
  datatype Met = Nothing | MetData | MetClosed | MetFailure(e: Err) | MetPendingFin | MetNoMailbox

  predicate NoData(ms: seq<Msg>) {
    forall i | 0 <= i < |ms| :: !ms[i].Data?
  }

  /** An error message carries an error, other than the closing. */
  predicate IsMessage(m: Msg) {
    m.Failure? ==> m.e != ErrOk && m.e != ErrClsd
  }

  /** No data comes behind the closing. */
  predicate MessagesOk(ms: seq<Msg>) {
    && (forall i | 0 <= i < |ms| :: IsMessage(ms[i]))
    && (forall i, j | 0 <= i < j < |ms| && ms[i].Closed? :: !ms[j].Data?)
  }

  /**
   What the stack does to a connection at times of its own choosing: it posts a message, sets
   the pending error, takes the pcb away, or sets NETCONN_FLAG_MBOXCLOSED.
   */
  datatype Event = Posts(msg: Msg) | Reports(e: Err) | TakesPcb | ClosesMbox

  function Messages(es: seq<Event>): seq<Msg> {
    if es == [] then []
    else if es[0].Posts? then [es[0].msg] + Messages(es[1..])
    else Messages(es[1..])
  }

  /**
   The receiving side of a connection: the mailbox and whether it is there (sys_mbox_valid),
   NETCONN_FIN_RX_PENDING, the pending error, NETCONN_FLAG_MBOXCLOSED, NETCONN_FLAG_NON_BLOCKING,
   and whether there is a pcb.
   */
  datatype Link = Link(box: seq<Msg>, open: bool, fin: bool, pending: Err, closed: bool, nonBlocking: bool, pcb: bool)

  /** What an event other than posting does. */
  function Flag(c: Link, e: Event): (r: Link)
    ensures r == c.(pending := r.pending, closed := r.closed, pcb := r.pcb)
    ensures (r.pcb ==> c.pcb) && (c.closed ==> r.closed)
  {
    match e
    case Posts(_) => c
    case Reports(e) => c.(pending := e)
    case TakesPcb => c.(pcb := false)
    case ClosesMbox => c.(closed := true)
  }

  /** The same for several of them. */
  function Flagged(c: Link, es: seq<Event>): (r: Link)
    ensures r == c.(pending := r.pending, closed := r.closed, pcb := r.pcb)
    ensures (r.pcb ==> c.pcb) && (c.closed ==> r.closed)
    decreases |es|
  {
    if es == [] then c else Flagged(Flag(c, es[0]), es[1..])
  }

  /** What all of them do. */
  function Happened(c: Link, es: seq<Event>): Link {
    Flagged(c, es).(box := c.box + Messages(es))
  }

  /** No data comes behind the closing, nor behind a FIN put off. */
  predicate LinkOk(c: Link, wire: seq<Event>) {
    && MessagesOk(c.box + Messages(wire))
    && (c.fin ==> c.open && NoData(c.box + Messages(wire)))
  }

  /** What a fetch from this side comes across. */
  function MetOf(c: Link): Met {
    if !c.open then MetNoMailbox
    else if c.fin then MetPendingFin
    else if c.box == [] then Nothing
    else match c.box[0]
      case Data(_) => MetData
      case Closed => MetClosed
      case Failure(e) => MetFailure(e)
  }

  /** The error of a fetch that finds no message, once there is no pending error. */
  function EmptyError(c: Link, dontBlock: bool): Err {
    if !c.open || c.closed then ErrConn
    else if c.nonBlocking || dontBlock then ErrWouldBlock
    else ErrTimeout
  }

  /** A fetch does not wait for the stack. */
  predicate Tries(c: Link, dontBlock: bool) {
    c.nonBlocking || dontBlock || c.closed || c.pending != ErrOk
  }

  /** A fetch waits: from an empty mailbox. */
  predicate Waits(c: Link, dontBlock: bool) {
    MetOf(c).Nothing? && !Tries(c, dontBlock)
  }

  lemma WaitsNot(c: Link, dontBlock: bool)
    ensures !c.open || c.fin ==> !Waits(c, dontBlock)
  {
  }

  function PendingOr(c: Link, e: Err): Err {
    if c.pending != ErrOk then c.pending else e
  }

  /** The error by which a FIN is told: the peer's closing, or what is known of a connection already gone. */
  function FinError(c: Link): Err {
    if c.pcb then ErrClsd else PendingOr(c, ErrRst)
  }

  /** Once told, the mailbox goes with it; or the pending error does. */
  function FinAfter(c: Link): Link {
    if c.pcb then c.(box := [], open := false, fin := false) else c.(fin := false, pending := ErrOk)
  }

  /** The error of a fetch that found no message, after it tried once, or waited. */
  function NothingError(c: Link, tried: bool): Err {
    if tried then PendingOr(c, EmptyError(c, true)) else ErrTimeout
  }

  /** What netconn_recv_data_tcp reports. */
  function FetchError(c: Link, tried: bool, noFin: bool): Err {
    match MetOf(c)
    case MetNoMailbox => ErrConn
    case MetPendingFin => FinError(c)
    case Nothing => NothingError(c, tried)
    case MetData => ErrOk
    case MetClosed => if noFin then ErrWouldBlock else FinError(c)
    case MetFailure(e) => e
  }

  /** What it leaves behind. */
  function FetchAfter(c: Link, tried: bool, noFin: bool): Link {
    match MetOf(c)
    case MetNoMailbox => c
    case MetPendingFin => FinAfter(c)
    case Nothing => if tried then c.(pending := ErrOk) else c
    case MetData => c.(box := c.box[1..])
    case MetClosed => if noFin then c.(box := c.box[1..], fin := true) else FinAfter(c.(box := c.box[1..]))
    case MetFailure(_) => c.(box := c.box[1..])
  }

  /** The pbuf it fetches. */
  function FetchedPbuf(c: Link): Pbuf? {
    if MetOf(c).MetData? then c.box[0].p else null
  }

  lemma {:induction false} MessagesConcat(xs: seq<Event>, ys: seq<Event>)
    ensures Messages(xs + ys) == Messages(xs) + Messages(ys)
  {
    if xs == [] {
      assert xs + ys == ys;
    } else {
      assert (xs + ys)[1..] == xs[1..] + ys;
      MessagesConcat(xs[1..], ys);
    }
  }

  lemma {:induction false} FlaggedConcat(c: Link, xs: seq<Event>, ys: seq<Event>)
    ensures Flagged(c, xs + ys) == Flagged(Flagged(c, xs), ys)
    decreases |xs|
  {
    if xs == [] {
      assert xs + ys == ys;
    } else {
      assert (xs + ys)[1..] == xs[1..] + ys && (xs + ys)[0] == xs[0];
      FlaggedConcat(Flag(c, xs[0]), xs[1..], ys);
    }
  }

  lemma FlagBox(c: Link, box: seq<Msg>, e: Event)
    ensures Flag(c.(box := box), e) == Flag(c, e).(box := box)
  {
  }

  /** Flags and mailbox do not meddle with each other. */
  lemma {:induction false} FlaggedBox(c: Link, box: seq<Msg>, es: seq<Event>)
    ensures Flagged(c.(box := box), es) == Flagged(c, es).(box := box)
    decreases |es|
  {
    hide Flag;
    if es != [] {
      FlagBox(c, box, es[0]);
      FlaggedBox(Flag(c, es[0]), box, es[1..]);
    }
  }

  /** The stack has done a part, or nothing, of what it is to do. */
  predicate Arrived(a: Link, wire: seq<Event>, b: Link, wire': seq<Event>) {
    && |wire'| <= |wire|
    && var n := |wire| - |wire'|;
       wire' == wire[n..] && b == Happened(a, wire[..n])
  }

  lemma ArrivedOk(a: Link, wire: seq<Event>, b: Link, wire': seq<Event>)
    requires Arrived(a, wire, b, wire')
    ensures a.box + Messages(wire) == b.box + Messages(wire') && a.box <= b.box
    ensures b.open == a.open && b.fin == a.fin && (b.pcb ==> a.pcb)
    ensures LinkOk(a, wire) ==> LinkOk(b, wire')
  {
    hide Flagged, Messages, MessagesOk, NoData;
    var n := |wire| - |wire'|;
    assert wire == wire[..n] + wire[n..];
    MessagesConcat(wire[..n], wire[n..]);
    assert a.box + Messages(wire) == b.box + Messages(wire');
  }

  lemma NoneArrived(a: Link, wire: seq<Event>)
    ensures Arrived(a, wire, a, wire)
  {
    assert a.box + [] == a.box;
  }

  /** The messages behind the first one. */
  lemma FirstMessage(box: seq<Msg>, ms: seq<Msg>)
    requires MessagesOk(box + ms) && box != []
    ensures MessagesOk(box[1..] + ms) && IsMessage(box[0])
    ensures box[0].Closed? ==> NoData(box[1..] + ms)
    ensures NoData(box + ms) ==> NoData(box[1..] + ms)
  {
    var all := box + ms;
    assert box[0] == all[0];
    assert box[1..] + ms == all[1..];
    forall i | 0 <= i < |all[1..]| ensures all[1..][i] == all[i + 1] {
    }
  }

  lemma NoDataBehind(box: seq<Msg>, ms: seq<Msg>)
    ensures NoData(box + ms) ==> NoData(box) && NoData(ms) && NoData([] + ms)
    ensures MessagesOk(box + ms) ==> MessagesOk([] + ms)
  {
    forall i | 0 <= i < |box| ensures box[i] == (box + ms)[i] {
    }
    forall i | 0 <= i < |ms| ensures ms[i] == (box + ms)[|box| + i] && ms[i] == ([] + ms)[i] {
    }
  }

  /** A fetch keeps the receiving side in order. */
  lemma FetchKeeps(c: Link, wire: seq<Event>, tried: bool, noFin: bool)
    requires LinkOk(c, wire)
    ensures LinkOk(FetchAfter(c, tried, noFin), wire)
    ensures FetchError(c, tried, noFin) == ErrOk <==> MetOf(c).MetData?
    ensures MetOf(c).MetFailure? ==> IsMessage(c.box[0])
    ensures MetOf(c).MetClosed? ==> NoData(c.box[1..] + Messages(wire))
    ensures MetOf(c).MetPendingFin? ==> NoData(c.box + Messages(wire))
    ensures var after := FetchAfter(c, tried, noFin);
            && (MetOf(c).MetClosed? || MetOf(c).MetPendingFin? ==> NoData(after.box + Messages(wire)))
            && (MetOf(c).MetClosed? || MetOf(c).MetPendingFin? || MetOf(c).Nothing? ==> NoData(after.box))
  {
    hide MessagesOk, NoData, Messages;
    NoDataBehind(c.box, Messages(wire));
    NothingThere();
    if c.box != [] {
      FirstMessage(c.box, Messages(wire));
      NoDataBehind(c.box[1..], Messages(wire));
    }
  }

  lemma NothingThere()
    ensures NoData([])
  {
  }

  /** The same, as the code goes. */
  lemma FetchIs(c: Link, tried: bool, noFin: bool)
    ensures var err, after := FetchError(c, tried, noFin), FetchAfter(c, tried, noFin);
            match MetOf(c)
            case MetNoMailbox => err == ErrConn && after == c
            case MetPendingFin => err == FinError(c.(fin := false)) && after == FinAfter(c.(fin := false))
            case Nothing => err == NothingError(c, tried) && after == if tried then c.(pending := ErrOk) else c
            case MetData => err == ErrOk && after == c.(box := c.box[1..])
            case MetFailure(e) => err == e && after == c.(box := c.box[1..])
            case MetClosed =>
              var d := c.(box := c.box[1..]);
              if noFin then err == ErrWouldBlock && after == d.(fin := true) else err == FinError(d) && after == FinAfter(d)
  {
  }

  class Netconn {
    /** sys_mbox_valid(&conn->recvmbox) */
    var mboxValid: bool
    var recvmbox: seq<Msg>
    /** What the stack is yet to do. */
    var wire: seq<Event>
    /** NETCONN_FLAG_NON_BLOCKING */
    var nonBlocking: bool
    /** NETCONN_FLAG_MBOXCLOSED */
    var mboxClosed: bool
    /** NETCONN_FIN_RX_PENDING */
    var finPending: bool
    var pendingErr: Err
    /** conn->pcb.ip != NULL */
    var pcb: bool
    /** All bytes acknowledged to the stack by netconn_tcp_recvd. */
    var credit: int
    /** How often a fetch had to wait for the stack. */
    ghost var waits: nat

    constructor (box: seq<Msg>, pendingErr: Err, nonBlocking: bool)
      requires MessagesOk(box)
      ensures Valid() && Value() == Link(box, true, false, pendingErr, false, nonBlocking, true)
      ensures wire == [] && Pending() == box && credit == 0
    {
      mboxValid, recvmbox, wire := true, box, [];
      this.nonBlocking, mboxClosed, finPending, this.pendingErr, pcb := nonBlocking, false, false, pendingErr, true;
      credit, waits := 0, 0;
      new;
      assert recvmbox + Messages(wire) == box;
    }

    /** Every message posted and not yet fetched, and every one still to be posted. */
    function Pending(): seq<Msg>
      reads this`recvmbox, this`wire
    {
      recvmbox + Messages(wire)
    }

    function Value(): Link
      reads this`recvmbox, this`finPending, this`mboxValid, this`pendingErr, this`mboxClosed, this`nonBlocking, this`pcb
    {
      Link(recvmbox, mboxValid, finPending, pendingErr, mboxClosed, nonBlocking, pcb)
    }

    ghost predicate Valid()
      reads this`recvmbox, this`wire, this`finPending, this`mboxValid, this`pendingErr, this`mboxClosed, this`nonBlocking, this`pcb
    {
      LinkOk(Value(), wire)
    }

    /** netconn_err: get and reset the pending error. */
    method TakeError() returns (err: Err)
      modifies this`pendingErr
      ensures err == old(pendingErr) && pendingErr == ErrOk
    {
      err := pendingErr;
      pendingErr := ErrOk;
    }

    /** The mailbox fetch; before it the stack may have gone on, or not. */
    method Fetch() returns (some: bool, msg: Msg, ghost seen: Link)
      modifies this`recvmbox, this`wire, this`pendingErr, this`mboxClosed, this`pcb
      ensures Arrived(old(Value()), old(wire), seen, wire)
      ensures some <==> seen.box != []
      ensures if some then msg == seen.box[0] && Value() == seen.(box := seen.box[1..]) else Value() == seen
    {
      hide Flagged;
      var posted: int := *;
      NoneArrived(Value(), wire);
      if 0 <= posted <= |wire| {
        var now := Happened(Value(), wire[..posted]);
        recvmbox, pendingErr, mboxClosed, pcb := now.box, now.pending, now.closed, now.pcb;
        wire := wire[posted..];
      }
      seen := Value();
      if recvmbox == [] {
        return false, Closed, seen;
      }
      some, msg := true, recvmbox[0];
      recvmbox := recvmbox[1..];
    }

    /** netconn_recv_data, for a TCP netconn: OK with no pbuf means the peer closed.  `seen` is what it found. */
    method RecvData(dontBlock: bool) returns (err: Err, p: Pbuf?, ghost seen: Link)
      requires Valid() && !finPending
      modifies this`recvmbox, this`wire, this`pendingErr, this`mboxClosed, this`pcb, this`waits
      ensures Arrived(old(Value()), old(wire), seen, wire)
      ensures waits == old(waits) + if Waits(old(Value()), dontBlock) then 1 else 0
      ensures p == FetchedPbuf(seen)
      ensures match MetOf(seen)
              case MetData | MetClosed => err == ErrOk && Value() == seen.(box := seen.box[1..])
              case MetFailure(e) => err == e && Value() == seen.(box := seen.box[1..])
              case MetNoMailbox => err == PendingOr(seen, ErrConn) && Value() == seen.(pending := ErrOk)
              case _ => var tried := old(Tries(Value(), dontBlock));
                        err == NothingError(seen, tried) && Value() == if tried then seen.(pending := ErrOk) else seen
    {
      hide Arrived;
      NoneArrived(Value(), wire);
      p := null;
      if !mboxValid {
        seen := Value();
        err := TakeError();
        if err != ErrOk {
          return;
        }
        return ErrConn, null, seen;
      }
      var some, msg;
      if nonBlocking || dontBlock || mboxClosed || pendingErr != ErrOk {
        some, msg, seen := Fetch();
        if !some {
          err := TakeError();
          if err != ErrOk {
            return;
          }
          if mboxClosed {
            return ErrConn, null, seen;
          }
          return ErrWouldBlock, null, seen;
        }
      } else {
        waits := waits + if recvmbox == [] then 1 else 0;
        some, msg, seen := Fetch();
        if !some {
          return ErrTimeout, null, seen;
        }
      }
      match msg {
        case Closed => err := ErrOk;
        case Failure(e) => err := e;
        case Data(d) => err, p := ErrOk, d;
      }
    }

    /** netconn_recv_data_tcp's handle_fin: the FIN is told to the caller and the mailbox goes. */
    method HandleFin() returns (err: Err)
      requires mboxValid && !finPending
      modifies this`mboxValid, this`recvmbox, this`pendingErr
      ensures err == FinError(old(Value())) && Value() == FinAfter(old(Value()))
    {
      if !pcb {
        err := TakeError();
        if err != ErrOk {
          return;
        }
        return ErrRst;
      }
      CloseShutdown();
      return ErrClsd;
    }

    /** netconn_close_shutdown(conn, NETCONN_SHUT_RD), for the mailbox: it is drained and freed. */
    method CloseShutdown()
      modifies this`mboxValid, this`recvmbox
      ensures !mboxValid && recvmbox == []
    {
      mboxValid, recvmbox := false, [];
    }

    /** The tail of netconn_recv_data_tcp: the stack is told what was taken, and a closing is put off or told. */
    method TakeIn(p: Pbuf?, noAutoRcvd: bool, noFin: bool) returns (err: Err)
      requires mboxValid && !finPending
      modifies this
      ensures wire == old(wire) && waits == old(waits)
      ensures credit == old(credit) + if noAutoRcvd then 0 else if p != null then p.tot_len else 1
      ensures p != null ==> err == ErrOk && Value() == old(Value())
      ensures p == null && noFin ==> err == ErrWouldBlock && Value() == old(Value()).(fin := true)
      ensures p == null && !noFin ==> err == FinError(old(Value())) && Value() == FinAfter(old(Value()))
    {
      if !noAutoRcvd {
        credit := credit + if p != null then p.tot_len else 1;
      }
      if p == null {
        if noFin {
          finPending := true;
          return ErrWouldBlock;
        }
        err := HandleFin();
        return;
      }
      err := ErrOk;
    }

    /**
     netconn_recv_data_tcp.  `seen` is the receiving side when the call looked at it; the choice
     between trying and waiting is made earlier.
     */
    method RecvDataTcp(dontBlock: bool, noAutoRcvd: bool, noFin: bool) returns (err: Err, p: Pbuf?, ghost seen: Link)
      requires Valid()
      modifies this
      ensures Valid() && LinkOk(seen, wire)
      ensures Arrived(old(Value()), old(wire), seen, wire)
      ensures old(finPending || !mboxValid) ==> wire == old(wire)
      ensures p == FetchedPbuf(seen)
      ensures var tried := old(Tries(Value(), dontBlock));
              err == FetchError(seen, tried, noFin) && Value() == FetchAfter(seen, tried, noFin)
      ensures credit == old(credit) + if noAutoRcvd then 0 else match MetOf(seen)
                case MetData => p.tot_len
                case MetClosed => 1
                case _ => 0
      ensures waits == old(waits) + if Waits(old(Value()), dontBlock) then 1 else 0
    {
      hide LinkOk, MessagesOk, NoData, EmptyError, NothingError, Arrived, Waits, Tries, Messages, FinError, FinAfter, PendingOr, FetchError, FetchAfter;
      ghost var tried := Tries(Value(), dontBlock);
      p, seen := null, Value();
      WaitsNot(seen, dontBlock);
      NoneArrived(seen, wire);
      if !mboxValid {
        FetchKeeps(seen, wire, tried, noFin);
        FetchIs(seen, tried, noFin);
        return ErrConn, null, seen;
      }
      if finPending {
        FetchKeeps(seen, wire, tried, noFin);
        FetchIs(seen, tried, noFin);
        finPending := false;
        err := HandleFin();
        return err, null, seen;
      }
      err, p, seen := RecvData(dontBlock);
      ArrivedOk(old(Value()), old(wire), seen, wire);
      FetchKeeps(seen, wire, tried, noFin);
      FetchIs(seen, tried, noFin);
      if err != ErrOk {
        return;
      }
      err := TakeIn(p, noAutoRcvd, noFin);
    }
  }
}
