/**
 The socket slots of sockets.c: which threads use a slot, when it is given back, and who
 releases the data a receive call left in it.  Every region between sys_arch_protect and
 sys_arch_unprotect is one step; all other accesses to a slot are steps of their own.
 */
module Slots {

  type U8 = x: int | 0 <= x < 256

  /** A netconn, as far as sockets care. */
  datatype Conn = NoConn | Conn(tcp: bool)

  /** lastdata: NULL, or a buffer. */
  datatype Last = Nothing | Some(b: nat)

  /** LWIP_SOCK_FD_FREE_FREE | (is_tcp ? LWIP_SOCK_FD_FREE_TCP : 0) */
  function Flags(tcp: bool): U8 { if tcp then 3 else 2 }

  /** The value of one struct lwip_sock. */
  datatype Slot = Slot(conn: Conn, lastdata: Last, used: U8, pending: U8)

  // ---------------------------------------------------------------- the protected regions, as functions

  function Counted(s: Slot): Slot { s.(used := (s.used + 1) % 256) }

  /** free_socket's region: the slot after it, and the data taken out of it. */
  function Freed(s: Slot, tcp: bool): (Slot, Last) {
    if s.used != 1 then (s.(used := (s.used - 1) % 256, pending := Flags(tcp)), Nothing)
    else (s.(used := 0, lastdata := Nothing, conn := NoConn), s.lastdata)
  }

  /** done_socket_locked, with the free_socket inside it. */
  function Done(s: Slot): (Slot, Last) {
    if s.used == 1 && s.pending != 0 then Freed(s, s.pending % 2 == 1)
    else (s.(used := (s.used - 1) % 256), Nothing)
  }

  /** What alloc_socket looks for; an old fd_free_pending does not matter. */
  predicate Vacant(s: Slot) { s.conn == NoConn && s.used == 0 }

  function Taken(s: Slot, tcp: bool): Slot { s.(used := 1, pending := 0, conn := Conn(tcp)) }

  /** struct lwip_sock and the routines that change it under protection. */
  class LwipSock {
    var conn: Conn
    var lastdata: Last
    var fdUsed: U8
    var fdFreePending: U8

    constructor ()
      ensures Value() == Slot(NoConn, Nothing, 0, 0)
    {
      conn, lastdata, fdUsed, fdFreePending := NoConn, Nothing, 0, 0;
    }

    function Value(): Slot
      reads this
    {
      Slot(conn, lastdata, fdUsed, fdFreePending)
    }

    /** sock_inc_used */
    method IncUsed()
      modifies this
      ensures Value() == Counted(old(Value()))
    {
      fdUsed := (fdUsed + 1) % 256;
    }

    /** free_socket up to its last sys_arch_unprotect: `last` is for the caller to release. */
    method FreeSocket(isTcp: bool) returns (last: Last)
      modifies this
      ensures (Value(), last) == Freed(old(Value()), isTcp)
      ensures if old(fdUsed) == 1 then fdUsed == 0 && conn == NoConn && lastdata == Nothing && last == old(lastdata)
              else conn == old(conn) && lastdata == old(lastdata) && last == Nothing && fdFreePending == if isTcp then 3 else 2
    {
      fdUsed := (fdUsed - 1) % 256;
      if fdUsed > 0 {
        fdFreePending := if isTcp then 3 else 2;
        return Nothing;
      }
      last := lastdata;
      lastdata := Nothing;
      conn := NoConn;
    }

    /** done_socket_locked: `last` and `tcp` are what the nested free_socket releases, and how. */
    method DoneSocket() returns (last: Last, tcp: bool)
      modifies this
      ensures (Value(), last) == Done(old(Value())) && tcp == (old(fdFreePending) % 2 == 1)
      ensures if old(fdUsed) == 1 && old(fdFreePending) != 0 then conn == NoConn && lastdata == Nothing && last == old(lastdata)
              else conn == old(conn) && lastdata == old(lastdata) && last == Nothing
    {
      last, tcp := Nothing, fdFreePending % 2 == 1;
      fdUsed := (fdUsed - 1) % 256;
      if fdUsed == 0 {
        if fdFreePending != 0 {
          fdUsed := 1;
          last := FreeSocket(tcp);
        }
      }
    }
  }

  /** alloc_socket, while no other thread runs: the lowest vacant slot. */
  method AllocSocket(sockets: seq<LwipSock>, tcp: bool) returns (fd: int)
    requires forall i, j | 0 <= i < j < |sockets| :: sockets[i] != sockets[j]
    modifies sockets
    ensures fd == -1 <==> forall i | 0 <= i < |sockets| :: old(sockets[i].conn) != NoConn || old(sockets[i].fdUsed) != 0
    ensures fd != -1 ==>
              && 0 <= fd < |sockets| && old(sockets[fd].conn) == NoConn && old(sockets[fd].fdUsed) == 0
              && (forall i | 0 <= i < fd :: old(sockets[i].conn) != NoConn || old(sockets[i].fdUsed) != 0)
              && sockets[fd].conn == Conn(tcp) && sockets[fd].lastdata == Nothing
              && sockets[fd].fdUsed == 1 && sockets[fd].fdFreePending == 0
    ensures forall i | 0 <= i < |sockets| && i != fd :: sockets[i].Value() == old(sockets[i].Value())
  {
    for i := 0 to |sockets|
      invariant forall k | 0 <= k < |sockets| :: sockets[k].Value() == old(sockets[k].Value())
      invariant forall k | 0 <= k < i :: !Vacant(sockets[k].Value())
    {
      var s := sockets[i];
      if s.conn == NoConn {
        if s.fdUsed != 0 {
          continue;
        }
        s.fdUsed := 1;
        s.fdFreePending := 0;
        s.conn := Conn(tcp);
        s.lastdata := Nothing;
        return i;
      }
    }
    return -1;
  }

  // ---------------------------------------------------------------- threads

  /** Where one use of the sockets API stands. */
  datatype Pc =
    | Idle
    | Fresh(i: nat)                 // alloc_socket: slot taken, lastdata not yet reset
    | Opening(i: nat)               // alloc_socket has returned; its caller's done_socket is to come
    | Looking(i: nat)               // tryget_socket: counted, conn not yet read
    | Missed(i: nat)                // tryget_socket: conn was NULL; done_socket is to come
    | Using(i: nat)                 // get_socket has succeeded
    | Fetching(i: nat)              // a receive call found lastdata empty, and waits for data
    | Reading(i: nat, b: nat)       // a receive call works on b, which it found in lastdata or put there
    | Dropping(i: nat, b: nat)      // b is read completely: lastdata is reset, b not yet released
    | Closing(i: nat, tcp: bool)    // lwip_close: the netconn is deleted; free_socket is to come
    | Releasing(b: nat, tcp: bool)  // free_socket after its protected region

  /** The slot that is counted as used, or -1. */
  function SlotOf(pc: Pc): int {
    match pc
    case Idle | Releasing(_, _) => -1
    case Fresh(i) => i
    case Opening(i) => i
    case Looking(i) => i
    case Missed(i) => i
    case Using(i) => i
    case Fetching(i) => i
    case Reading(i, _) => i
    case Dropping(i, _) => i
    case Closing(i, _) => i
  }

  predicate Receiving(pc: Pc) { pc.Fetching? || pc.Reading? || pc.Dropping? }

  /** The thread works on a buffer. */
  predicate Carries(pc: Pc) { pc.Reading? || pc.Dropping? || pc.Releasing? }

  /** Where a buffer is: in a slot, with a thread only, released by one of two routines, or nowhere. */
  datatype Place = InSlot(i: nat) | With(a: nat) | Gone(byTcp: bool) | Lost

  datatype Buffer = Buffer(tcp: bool, place: Place)

  /** `bufs` is every buffer ever received, `log` what pbuf_free (true) or netbuf_delete (false) was called on. */
  datatype State = State(slots: seq<Slot>, pcs: seq<Pc>, bufs: seq<Buffer>, log: seq<(nat, bool)>)

  datatype Step =
    | Alloc(a: nat, i: nat, tcp: bool)
    | AllocReset(a: nat)
    | Opened(a: nat)
    | Lookup(a: nat, i: nat)
    | ReadConn(a: nat)
    | GiveUp(a: nat)
    | Receive(a: nat)
    | Fetch(a: nat)
    | FetchFails(a: nat)
    | KeepRest(a: nat)
    | Leave(a: nat)
    | TakeAll(a: nat)
    | FreeRead(a: nat)
    | EndUse(a: nat)
    | Delete(a: nat)
    | FreeSocket(a: nat)
    | FreeLast(a: nat)

  /** A thread may take this step.  Only one thread at a time receives from a socket. */
  predicate Enabled(st: State, step: Step) {
    && step.a < |st.pcs|
    && var pc := st.pcs[step.a];
       match step
       case Alloc(_, i, _) => pc.Idle? && i < |st.slots| && Vacant(st.slots[i])
       case AllocReset(_) => pc.Fresh?
       case Opened(_) => pc.Opening?
       case Lookup(_, i) => pc.Idle? && i < |st.slots|
       case ReadConn(_) => pc.Looking?
       case GiveUp(_) => pc.Missed?
       case Receive(_) => pc.Using? && forall c | 0 <= c < |st.pcs| && Receiving(st.pcs[c]) :: SlotOf(st.pcs[c]) != pc.i
       case Fetch(_) => pc.Fetching?
       case FetchFails(_) => pc.Fetching?
       case KeepRest(_) => pc.Reading?
       case Leave(_) => pc.Reading?
       case TakeAll(_) => pc.Reading?
       case FreeRead(_) => pc.Dropping?
       case EndUse(_) => pc.Using?
       case Delete(_) => pc.Using?
       case FreeSocket(_) => pc.Closing?
       case FreeLast(_) => pc.Releasing?
  }

  predicate InRange(st: State) {
    && (forall a | 0 <= a < |st.pcs| :: SlotOf(st.pcs[a]) < |st.slots|)
    && (forall a | 0 <= a < |st.pcs| && Carries(st.pcs[a]) :: st.pcs[a].b < |st.bufs|)
    && (forall i | 0 <= i < |st.slots| && st.slots[i].lastdata.Some? :: st.slots[i].lastdata.b < |st.bufs|)
  }

  function Goto(st: State, a: nat, pc: Pc): State
    requires a < |st.pcs|
  {
    st.(pcs := st.pcs[a := pc])
  }

  function Put(st: State, i: nat, s: Slot): State
    requires i < |st.slots|
  {
    st.(slots := st.slots[i := s])
  }

  function Move(st: State, b: nat, place: Place): State
    requires b < |st.bufs|
  {
    st.(bufs := st.bufs[b := st.bufs[b].(place := place)])
  }

  /** pbuf_free or netbuf_delete. */
  function Release(st: State, b: nat, tcp: bool): State
    requires b < |st.bufs|
  {
    Move(st, b, Gone(tcp)).(log := st.log + [(b, tcp)])
  }

  /** done_socket of a thread that is idle afterwards. */
  function AfterDone(st: State, a: nat, i: nat): State
    requires a < |st.pcs| && i < |st.slots| && (st.slots[i].lastdata.Some? ==> st.slots[i].lastdata.b < |st.bufs|)
  {
    var (s, last) := Done(st.slots[i]);
    var st' := Put(Goto(st, a, Idle), i, s);
    if last.Some? then Release(st', last.b, st.slots[i].pending % 2 == 1) else st'
  }

  function Next(st: State, step: Step): State
    requires InRange(st) && Enabled(st, step)
  {
    var a := step.a;
    var pc := st.pcs[a];
    match step
    case Alloc(_, i, tcp) => Put(Goto(st, a, Fresh(i)), i, Taken(st.slots[i], tcp))
    case AllocReset(_) =>
      var s := st.slots[pc.i];
      var st' := Put(Goto(st, a, Opening(pc.i)), pc.i, s.(lastdata := Nothing));
      if s.lastdata.Some? then Move(st', s.lastdata.b, Detached(st, pc.i, |st.pcs|)) else st'
    case Opened(_) => AfterDone(st, a, pc.i)
    case Lookup(_, i) => Put(Goto(st, a, Looking(i)), i, Counted(st.slots[i]))
    case ReadConn(_) => Goto(st, a, if st.slots[pc.i].conn == NoConn then Missed(pc.i) else Using(pc.i))
    case GiveUp(_) => AfterDone(st, a, pc.i)
    case Receive(_) =>
      var last := st.slots[pc.i].lastdata;
      Goto(st, a, if last.Some? then Reading(pc.i, last.b) else Fetching(pc.i))
    case Fetch(_) =>
      var s, b := st.slots[pc.i], |st.bufs|;
      Put(Goto(st, a, Reading(pc.i, b)), pc.i, s.(lastdata := Some(b)))
      .(bufs := st.bufs + [Buffer(s.conn == Conn(true), InSlot(pc.i))])
    case FetchFails(_) => Goto(st, a, Using(pc.i))
    case KeepRest(_) => Move(Put(Goto(st, a, Using(pc.i)), pc.i, st.slots[pc.i].(lastdata := Some(pc.b))), pc.b, InSlot(pc.i))
    case Leave(_) =>
      var st' := Goto(st, a, Using(pc.i));
      if st.slots[pc.i].lastdata == Some(pc.b) then st' else Move(st', pc.b, Lost)
    case TakeAll(_) => Move(Put(Goto(st, a, Dropping(pc.i, pc.b)), pc.i, st.slots[pc.i].(lastdata := Nothing)), pc.b, With(a))
    case FreeRead(_) => Release(Goto(st, a, Using(pc.i)), pc.b, st.slots[pc.i].conn == Conn(true))
    case EndUse(_) => AfterDone(st, a, pc.i)
    case Delete(_) => Goto(st, a, Closing(pc.i, st.slots[pc.i].conn == Conn(true)))
    case FreeSocket(_) =>
      var (s, last) := Freed(st.slots[pc.i], pc.tcp);
      var st' := Put(Goto(st, a, if last.Some? then Releasing(last.b, pc.tcp) else Idle), pc.i, s);
      if last.Some? then Move(st', last.b, With(a)) else st'
    case FreeLast(_) => Release(Goto(st, a, Idle), pc.b, pc.tcp)
  }

  /** What becomes of the buffer in slot i when lastdata is reset: one of the first n threads still has it, or none. */
  function Detached(st: State, i: nat, n: nat): Place
    requires n <= |st.pcs|
  {
    if n == 0 then Lost
    else if st.pcs[n - 1].Reading? && st.pcs[n - 1].i == i then With(n - 1)
    else Detached(st, i, n - 1)
  }

  // ---------------------------------------------------------------- the invariant

  /** How many threads use slot i. */
  function Users(pcs: seq<Pc>, i: nat): nat {
    if pcs == [] then 0 else (if SlotOf(pcs[0]) == i then 1 else 0) + Users(pcs[1..], i)
  }

  /** A slot used by n threads. */
  predicate SlotOk(s: Slot, n: int) {
    && s.used == n
    && (s.conn == NoConn ==> s.lastdata == Nothing)
    && (s.conn != NoConn && s.pending != 0 ==> s.pending == Flags(s.conn.tcp) && n > 0)
  }

  /** What a thread may rely on about its slot. */
  predicate PcOk(pc: Pc, s: Slot) {
    match pc
    case Idle | Releasing(_, _) | Looking(_) => true
    case Missed(_) => s.conn == NoConn
    case Closing(_, tcp) => s.conn == Conn(tcp)
    case _ => s.conn != NoConn
  }

  predicate SlotsOk(slots: seq<Slot>, pcs: seq<Pc>) {
    && (forall i | 0 <= i < |slots| :: SlotOk(slots[i], Users(pcs, i)))
    && (forall a | 0 <= a < |pcs| && SlotOf(pcs[a]) >= 0 :: SlotOf(pcs[a]) < |slots| && PcOk(pcs[a], slots[SlotOf(pcs[a])]))
  }

  /** Thread a works on buffer b. */
  predicate Has(pc: Pc, b: nat) { Carries(pc) && pc.b == b }

  /** A buffer is in slot i exactly if lastdata of slot i is that buffer. */
  predicate SlotBufsOk(slots: seq<Slot>, bufs: seq<Buffer>) {
    && (forall i | 0 <= i < |slots| && slots[i].lastdata.Some? :: InSlotOk(slots[i], i, bufs))
    && (forall b | 0 <= b < |bufs| && bufs[b].place.InSlot? :: bufs[b].place.i < |slots| && slots[bufs[b].place.i].lastdata == Some(b))
  }

  predicate InSlotOk(s: Slot, i: nat, bufs: seq<Buffer>)
    requires s.lastdata.Some?
  {
    s.lastdata.b < |bufs| && bufs[s.lastdata.b].place == InSlot(i) && s.conn == Conn(bufs[s.lastdata.b].tcp)
  }

  /** A buffer is with a thread alone only if the thread works on it, and threads work on buffers they may work on. */
  predicate ThreadBufsOk(slots: seq<Slot>, pcs: seq<Pc>, bufs: seq<Buffer>) {
    && (forall b | 0 <= b < |bufs| && bufs[b].place.With? :: bufs[b].place.a < |pcs| && Has(pcs[bufs[b].place.a], b))
    && (forall a | 0 <= a < |pcs| :: ReaderOk(slots, pcs[a], a, bufs))
  }

  /** What was released was released once, by the routine for its protocol. */
  predicate LogOk(bufs: seq<Buffer>, log: seq<(nat, bool)>) {
    && (forall b | 0 <= b < |bufs| && bufs[b].place.Gone? :: (b, bufs[b].tcp) in log)
    && (forall k | 0 <= k < |log| :: log[k].0 < |bufs| && bufs[log[k].0] == Buffer(log[k].1, Gone(log[k].1)))
    && (forall k, l | 0 <= k < l < |log| :: log[k].0 != log[l].0)
  }

  /** Every buffer is where the slots, the threads and the log say. */
  predicate BufsOk(st: State) {
    SlotBufsOk(st.slots, st.bufs) && ThreadBufsOk(st.slots, st.pcs, st.bufs) && LogOk(st.bufs, st.log)
  }

  predicate ReaderOk(slots: seq<Slot>, pc: Pc, a: nat, bufs: seq<Buffer>) {
    match pc
    case Fetching(i) => i < |slots| && slots[i].lastdata == Nothing
    case Reading(i, b) =>
      && b < |bufs| && i < |slots| && slots[i].conn == Conn(bufs[b].tcp)
      && (bufs[b].place == InSlot(i) || (bufs[b].place == With(a) && slots[i].lastdata == Nothing))
    case Dropping(i, b) =>
      b < |bufs| && i < |slots| && slots[i].conn == Conn(bufs[b].tcp) && bufs[b].place == With(a) && slots[i].lastdata == Nothing
    case Releasing(b, tcp) => b < |bufs| && bufs[b] == Buffer(tcp, With(a))
    case _ => true
  }

  /** Only one thread at a time receives from a slot. */
  predicate OneReader(pcs: seq<Pc>) {
    forall a, c | 0 <= a < c < |pcs| && Receiving(pcs[a]) && Receiving(pcs[c]) :: pcs[a].i != pcs[c].i
  }

  predicate Inv(st: State) { SlotsOk(st.slots, st.pcs) && BufsOk(st) && OneReader(st.pcs) }

  lemma {:induction false} UsersMoved(pcs: seq<Pc>, a: nat, pc: Pc, i: nat)
    requires a < |pcs|
    ensures Users(pcs[a := pc], i) == Users(pcs, i) - (if SlotOf(pcs[a]) == i then 1 else 0) + (if SlotOf(pc) == i then 1 else 0)
  {
    if a > 0 {
      assert pcs[a := pc][1..] == pcs[1..][a - 1 := pc];
      UsersMoved(pcs[1..], a - 1, pc, i);
    } else {
      assert pcs[a := pc][1..] == pcs[1..];
    }
  }

  lemma {:induction false} UsersBounded(pcs: seq<Pc>, i: nat)
    ensures Users(pcs, i) <= |pcs|
    ensures forall a | 0 <= a < |pcs| && SlotOf(pcs[a]) == i :: Users(pcs, i) > 0
    ensures forall a | 0 <= a < |pcs| && SlotOf(pcs[a]) != i :: Users(pcs, i) < |pcs|
    ensures forall a, c | 0 <= a < c < |pcs| && SlotOf(pcs[a]) == SlotOf(pcs[c]) == i :: Users(pcs, i) > 1
  {
    if pcs != [] {
      UsersBounded(pcs[1..], i);
      assert forall a | 0 < a < |pcs| :: pcs[a] == pcs[1..][a - 1];
    }
  }

  /** Thread a goes on, and changes its slot. */
  lemma SlotsStep(slots: seq<Slot>, pcs: seq<Pc>, a: nat, pc: Pc, i: nat, s: Slot)
    requires SlotsOk(slots, pcs) && a < |pcs| && i < |slots|
    requires (SlotOf(pcs[a]) == -1 || SlotOf(pcs[a]) == i) && (SlotOf(pc) == -1 || SlotOf(pc) == i)
    requires SlotOk(s, Users(pcs, i) - (if SlotOf(pcs[a]) == i then 1 else 0) + (if SlotOf(pc) == i then 1 else 0))
    requires SlotOf(pc) == i ==> PcOk(pc, s)
    requires s.conn == slots[i].conn || Users(pcs, i) == if SlotOf(pcs[a]) == i then 1 else 0
    ensures SlotsOk(slots[i := s], pcs[a := pc])
  {
    var pcs' := pcs[a := pc];
    forall j | 0 <= j < |slots| ensures SlotOk(slots[i := s][j], Users(pcs', j)) {
      UsersMoved(pcs, a, pc, j);
    }
    UsersBounded(pcs, i);
    forall c | 0 <= c < |pcs'| && SlotOf(pcs'[c]) >= 0
      ensures SlotOf(pcs'[c]) < |slots| && PcOk(pcs'[c], slots[i := s][SlotOf(pcs'[c])])
    {
      if c != a && SlotOf(pcs[c]) == i && SlotOf(pcs[a]) == i {
        assert Users(pcs, i) > 1;
      }
    }
  }

  /** What a thread knows about the slot it uses. */
  lemma OwnSlot(slots: seq<Slot>, pcs: seq<Pc>, a: nat)
    requires SlotsOk(slots, pcs) && a < |pcs|
    ensures SlotOf(pcs[a]) >= 0 ==>
              var i := SlotOf(pcs[a]);
              i < |slots| && PcOk(pcs[a], slots[i]) && SlotOk(slots[i], Users(pcs, i)) && 0 < Users(pcs, i) < 256
    ensures SlotOf(pcs[a]) < 0 ==> forall i | 0 <= i < |slots| :: SlotOk(slots[i], Users(pcs, i)) && Users(pcs, i) < 256
  {
    var i := SlotOf(pcs[a]);
    if i >= 0 {
      UsersBounded(pcs, i);
      assert SlotOk(slots[i], Users(pcs, i));
    } else {
      forall j | 0 <= j < |slots| ensures Users(pcs, j) < 256 {
        assert SlotOk(slots[j], Users(pcs, j));
      }
    }
  }

  lemma InvInRange(st: State)
    requires Inv(st)
    ensures InRange(st)
  {
    forall a | 0 <= a < |st.pcs| ensures SlotOf(st.pcs[a]) < |st.slots|
    {
      assert ReaderOk(st.slots, st.pcs[a], a, st.bufs);
    }
    forall a | 0 <= a < |st.pcs| && Carries(st.pcs[a]) ensures st.pcs[a].b < |st.bufs| {
      assert ReaderOk(st.slots, st.pcs[a], a, st.bufs);
    }
  }

  /** What done_socket leaves is in order. */
  lemma DoneOk(s: Slot, n: nat)
    requires SlotOk(s, n) && 0 < n < 256
    ensures SlotOk(Done(s).0, n - 1)
    ensures Done(s).0.conn == s.conn || n == 1
    ensures Done(s).1 == (if n == 1 && s.pending != 0 then s.lastdata else Nothing)
    ensures Done(s).1 == Nothing ==> Done(s).0.lastdata == s.lastdata && (Done(s).0.conn == s.conn || s.lastdata == Nothing)
    ensures Done(s).1 != Nothing ==> Done(s).0.lastdata == Nothing && Done(s).0.conn == NoConn && s.pending == Flags(s.conn.tcp)
  {
  }

  predicate Enters(step: Step) { step.Alloc? || step.Lookup? }

  /** One user more than fd_used can count. */
  predicate Crowded(st: State, step: Step) { step.Lookup? && Users(st.pcs, step.i) == 255 }

  predicate Leaves(step: Step) { step.Opened? || step.GiveUp? || step.EndUse? }

  lemma SlotsKeptEntering(st: State, step: Step)
    requires SlotsOk(st.slots, st.pcs) && InRange(st) && Enabled(st, step) && Enters(step) && !Crowded(st, step)
    ensures SlotsOk(Next(st, step).slots, Next(st, step).pcs)
  {
    hide Users, SlotsOk;
    OwnSlot(st.slots, st.pcs, step.a);
    SlotsStep(st.slots, st.pcs, step.a, Next(st, step).pcs[step.a], step.i, Next(st, step).slots[step.i]);
  }

  lemma SlotsKeptLeaving(st: State, step: Step)
    requires SlotsOk(st.slots, st.pcs) && InRange(st) && Enabled(st, step) && Leaves(step)
    ensures SlotsOk(Next(st, step).slots, Next(st, step).pcs)
  {
    hide Users, SlotsOk, Done;
    var i := st.pcs[step.a].i;
    OwnSlot(st.slots, st.pcs, step.a);
    DoneOk(st.slots[i], Users(st.pcs, i));
    SlotsStep(st.slots, st.pcs, step.a, Idle, i, Done(st.slots[i]).0);
  }

  lemma SlotsKeptInside(st: State, step: Step)
    requires SlotsOk(st.slots, st.pcs) && InRange(st) && Enabled(st, step) && !Enters(step) && !Leaves(step) && !step.FreeLast?
    ensures SlotsOk(Next(st, step).slots, Next(st, step).pcs)
    ensures !step.FreeSocket? ==> Next(st, step).slots[st.pcs[step.a].i].conn == st.slots[st.pcs[step.a].i].conn
  {
    hide Users, SlotsOk, Detached;
    var a, st' := step.a, Next(st, step);
    var i := st.pcs[a].i;
    OwnSlot(st.slots, st.pcs, a);
    assert st'.slots == st.slots[i := st'.slots[i]] && st'.pcs == st.pcs[a := st'.pcs[a]];
    SlotsStep(st.slots, st.pcs, a, st'.pcs[a], i, st'.slots[i]);
  }

  lemma SlotsKept(st: State, step: Step)
    requires SlotsOk(st.slots, st.pcs) && InRange(st) && Enabled(st, step) && !Crowded(st, step)
    ensures SlotsOk(Next(st, step).slots, Next(st, step).pcs)
  {
    hide SlotsOk;
    if Enters(step) {
      SlotsKeptEntering(st, step);
    } else if Leaves(step) {
      SlotsKeptLeaving(st, step);
    } else if step.FreeLast? {
      GoneOn(st.slots, st.pcs, step.a, Idle);
    } else {
      SlotsKeptInside(st, step);
    }
  }

  lemma GoneOn(slots: seq<Slot>, pcs: seq<Pc>, a: nat, pc: Pc)
    requires SlotsOk(slots, pcs) && a < |pcs| && SlotOf(pcs[a]) == SlotOf(pc) == -1
    ensures SlotsOk(slots, pcs[a := pc])
  {
    forall i | 0 <= i < |slots| ensures SlotOk(slots[i], Users(pcs[a := pc], i)) {
      UsersMoved(pcs, a, pc, i);
    }
  }

  // ---------------------------------------------------------------- buffers

  /** No thread receives from slot i. */
  predicate NoReader(pcs: seq<Pc>, i: nat) {
    forall c | 0 <= c < |pcs| && Receiving(pcs[c]) :: pcs[c].i != i
  }

  /** Thread a goes on, and changes slot i and the place of buffer b: what the slots say. */
  lemma SlotBufsStep(slots: seq<Slot>, bufs: seq<Buffer>, i: nat, s: Slot, b: nat, place: Place)
    requires SlotBufsOk(slots, bufs) && i < |slots| && b < |bufs|
    requires bufs[b].place.InSlot? ==> bufs[b].place.i == i
    requires place.InSlot? ==> place.i == i
    requires if place.InSlot? then s.lastdata == Some(b) && s.conn == Conn(bufs[b].tcp) else s.lastdata == Nothing
    requires slots[i].lastdata == Nothing || slots[i].lastdata == Some(b)
    ensures SlotBufsOk(slots[i := s], bufs[b := bufs[b].(place := place)])
  {
    var slots', bufs' := slots[i := s], bufs[b := bufs[b].(place := place)];
    forall j | 0 <= j < |slots'| && slots'[j].lastdata.Some? ensures InSlotOk(slots'[j], j, bufs') {
      if j != i {
        assert InSlotOk(slots[j], j, bufs);
      }
    }
  }

  lemma SlotBufsSame(slots: seq<Slot>, bufs: seq<Buffer>, i: nat, s: Slot)
    requires SlotBufsOk(slots, bufs) && i < |slots|
    requires s.lastdata == slots[i].lastdata && (s.lastdata == Nothing || s.conn == slots[i].conn)
    ensures SlotBufsOk(slots[i := s], bufs)
  {
    var slots' := slots[i := s];
    forall j | 0 <= j < |slots'| && slots'[j].lastdata.Some? ensures InSlotOk(slots'[j], j, bufs) {
      assert InSlotOk(slots[j], j, bufs);
    }
  }

  lemma SlotBufsElsewhere(slots: seq<Slot>, bufs: seq<Buffer>, b: nat, place: Place)
    requires SlotBufsOk(slots, bufs) && b < |bufs| && !bufs[b].place.InSlot? && !place.InSlot?
    ensures SlotBufsOk(slots, bufs[b := bufs[b].(place := place)])
  {
    forall j | 0 <= j < |slots| && slots[j].lastdata.Some? ensures InSlotOk(slots[j], j, bufs[b := bufs[b].(place := place)]) {
      assert InSlotOk(slots[j], j, bufs);
    }
  }

  /** What threads other than a carry is not b, and their slots stay as they are. */
  predicate Apart(slots: seq<Slot>, slots': seq<Slot>, pcs: seq<Pc>, a: nat, b: int) {
    && |slots'| == |slots|
    && forall c | 0 <= c < |pcs| && c != a ::
      && (Carries(pcs[c]) ==> pcs[c].b != b)
      && (Receiving(pcs[c]) && pcs[c].i < |slots| ==>
            slots'[pcs[c].i].conn == slots[pcs[c].i].conn && slots'[pcs[c].i].lastdata == slots[pcs[c].i].lastdata)
  }

  /** The same, what the threads say. */
  lemma ThreadBufsStep(slots: seq<Slot>, slots': seq<Slot>, pcs: seq<Pc>, bufs: seq<Buffer>, a: nat, pc: Pc, b: nat, place: Place)
    requires ThreadBufsOk(slots, pcs, bufs) && a < |pcs| && b < |bufs|
    requires Apart(slots, slots', pcs, a, b)
    requires Carries(pcs[a]) ==> pcs[a].b == b
    requires place.With? ==> place.a == a && Has(pc, b)
    requires ReaderOk(slots', pc, a, bufs[b := bufs[b].(place := place)])
    ensures ThreadBufsOk(slots', pcs[a := pc], bufs[b := bufs[b].(place := place)])
  {
    var pcs', bufs' := pcs[a := pc], bufs[b := bufs[b].(place := place)];
    forall c | 0 <= c < |pcs'| ensures ReaderOk(slots', pcs'[c], c, bufs') {
      assert ReaderOk(slots, pcs[c], c, bufs);
    }
  }

  lemma ThreadBufsSame(slots: seq<Slot>, slots': seq<Slot>, pcs: seq<Pc>, bufs: seq<Buffer>, a: nat, pc: Pc)
    requires ThreadBufsOk(slots, pcs, bufs) && a < |pcs|
    requires Apart(slots, slots', pcs, a, -1) && !Carries(pcs[a]) && ReaderOk(slots', pc, a, bufs)
    ensures ThreadBufsOk(slots', pcs[a := pc], bufs)
  {
    var pcs' := pcs[a := pc];
    forall c | 0 <= c < |pcs'| ensures ReaderOk(slots', pcs'[c], c, bufs) {
      assert ReaderOk(slots, pcs[c], c, bufs);
    }
    forall b | 0 <= b < |bufs| && bufs[b].place.With? ensures bufs[b].place.a < |pcs'| && Has(pcs'[bufs[b].place.a], b) {
      assert Has(pcs[bufs[b].place.a], b);
    }
  }

  /** A buffer that is new, and nowhere yet. */
  lemma BufsAppended(st: State, tcp: bool)
    requires BufsOk(st)
    ensures BufsOk(st.(bufs := st.bufs + [Buffer(tcp, Lost)]))
    ensures forall a | 0 <= a < |st.pcs| && Carries(st.pcs[a]) :: st.pcs[a].b < |st.bufs|
  {
    var bufs' := st.bufs + [Buffer(tcp, Lost)];
    forall j | 0 <= j < |st.slots| && st.slots[j].lastdata.Some? ensures InSlotOk(st.slots[j], j, bufs') {
      assert InSlotOk(st.slots[j], j, st.bufs);
    }
    forall a | 0 <= a < |st.pcs|
      ensures ReaderOk(st.slots, st.pcs[a], a, bufs') && (Carries(st.pcs[a]) ==> st.pcs[a].b < |st.bufs|)
    {
      assert ReaderOk(st.slots, st.pcs[a], a, st.bufs);
    }
  }

  lemma LogSame(bufs: seq<Buffer>, log: seq<(nat, bool)>, b: nat, place: Place)
    requires LogOk(bufs, log) && b < |bufs| && !bufs[b].place.Gone? && !place.Gone?
    ensures LogOk(bufs[b := bufs[b].(place := place)], log)
  {
  }

  lemma LogGrows(bufs: seq<Buffer>, log: seq<(nat, bool)>, b: nat)
    requires LogOk(bufs, log) && b < |bufs| && !bufs[b].place.Gone?
    ensures LogOk(bufs[b := bufs[b].(place := Gone(bufs[b].tcp))], log + [(b, bufs[b].tcp)])
  {
    var log' := log + [(b, bufs[b].tcp)];
    forall c | 0 <= c < |bufs| && (c == b || bufs[c].place.Gone?) ensures (c, bufs[c].tcp) in log' {
      assert if c == b then log'[|log|] == (b, bufs[b].tcp) else (c, bufs[c].tcp) in log;
    }
  }

  /** No thread but a uses slot i. */
  predicate Alone(pcs: seq<Pc>, a: nat, i: nat) {
    forall c | 0 <= c < |pcs| && c != a :: SlotOf(pcs[c]) != i
  }

  lemma AloneIf(pcs: seq<Pc>, a: nat, i: nat)
    requires a < |pcs| && Users(pcs, i) == if SlotOf(pcs[a]) == i then 1 else 0
    ensures Alone(pcs, a, i)
  {
    UsersBounded(pcs, i);
  }

  /** The slot changes only in what no receiving thread relies on. */
  lemma ApartSlot(st: State, a: nat, i: nat, s: Slot)
    requires i < |st.slots| && a < |st.pcs|
    requires (s.conn == st.slots[i].conn && s.lastdata == st.slots[i].lastdata) || Alone(st.pcs, a, i)
             || (Receiving(st.pcs[a]) && st.pcs[a].i == i && OneReader(st.pcs))
    ensures Apart(st.slots, st.slots[i := s], st.pcs, a, -1)
  {
  }

  /** The buffer that thread a works on, or takes from its slot, is none of the others'. */
  lemma ApartBuffer(st: State, slots': seq<Slot>, a: nat, b: nat)
    requires ThreadBufsOk(st.slots, st.pcs, st.bufs) && Apart(st.slots, slots', st.pcs, a, -1) && a < |st.pcs| && b < |st.bufs|
    requires match st.bufs[b].place
             case InSlot(i) => Alone(st.pcs, a, i) || (Receiving(st.pcs[a]) && st.pcs[a].i == i && OneReader(st.pcs))
             case With(c) => c == a
             case _ => true
    ensures Apart(st.slots, slots', st.pcs, a, b) || st.bufs[b].place.Gone? || st.bufs[b].place.Lost?
  {
    forall c | 0 <= c < |st.pcs| && c != a && Carries(st.pcs[c]) ensures st.pcs[c].b != b || st.bufs[b].place.Gone? || st.bufs[b].place.Lost? {
      assert ReaderOk(st.slots, st.pcs[c], c, st.bufs);
    }
  }

  lemma SameSlots(slots: seq<Slot>, i: nat)
    requires i < |slots|
    ensures slots[i := slots[i]] == slots
  {
  }

  /** The buffer of a slot, and of a thread. */
  lemma Whereabouts(st: State, a: nat)
    requires BufsOk(st) && a < |st.pcs|
    ensures ReaderOk(st.slots, st.pcs[a], a, st.bufs)
    ensures SlotOf(st.pcs[a]) >= 0 && SlotOf(st.pcs[a]) < |st.slots| ==>
              var i := SlotOf(st.pcs[a]);
              st.slots[i].lastdata.Some? ==> InSlotOk(st.slots[i], i, st.bufs)
  {
  }

  /** Steps after which every buffer is where it was. */
  lemma BufsKeptQuiet(st: State, a: nat, pc: Pc, i: nat, s: Slot)
    requires BufsOk(st) && a < |st.pcs| && i < |st.slots|
    requires !Carries(st.pcs[a]) && !Carries(pc) && s.lastdata == st.slots[i].lastdata
    requires s.conn == st.slots[i].conn || (s.lastdata == Nothing && Alone(st.pcs, a, i))
    requires pc.Fetching? ==> pc.i == i && s.lastdata == Nothing
    ensures BufsOk(Put(Goto(st, a, pc), i, s))
  {
    hide SlotBufsOk, ThreadBufsOk, LogOk;
    ApartSlot(st, a, i, s);
    SlotBufsSame(st.slots, st.bufs, i, s);
    ThreadBufsSame(st.slots, st.slots[i := s], st.pcs, st.bufs, a, pc);
  }

  /** Thread a takes what is in its slot, releases it at once, or keeps it with itself. */
  lemma BufsKeptTaking(st: State, a: nat, pc: Pc, i: nat, s: Slot, b: nat, place: Place)
    requires BufsOk(st) && a < |st.pcs| && i < |st.slots| && b < |st.bufs|
    requires st.slots[i].lastdata == Some(b) && s.lastdata == Nothing
    requires Alone(st.pcs, a, i) || (Has(st.pcs[a], b) && Receiving(st.pcs[a]) && st.pcs[a].i == i && OneReader(st.pcs))
    requires Carries(st.pcs[a]) ==> st.pcs[a].b == b
    requires if place.With? then place.a == a && Has(pc, b) else place == Gone(st.bufs[b].tcp) && !Carries(pc)
    requires match pc
             case Dropping(j, _) => j == i && s.conn == st.slots[i].conn
             case Releasing(_, tcp) => tcp == st.bufs[b].tcp
             case Reading(_, _) => false
             case Fetching(_) => false
             case _ => true
    ensures var st' := Put(Goto(st, a, pc), i, s);
            BufsOk(if place.Gone? then Release(st', b, place.byTcp) else Move(st', b, place))
  {
    hide ThreadBufsOk, LogOk;
    assert InSlotOk(st.slots[i], i, st.bufs);
    ApartSlot(st, a, i, s);
    ApartBuffer(st, st.slots[i := s], a, b);
    SlotBufsStep(st.slots, st.bufs, i, s, b, place);
    ThreadBufsStep(st.slots, st.slots[i := s], st.pcs, st.bufs, a, pc, b, place);
    if place.Gone? {
      LogGrows(st.bufs, st.log, b);
    } else {
      LogSame(st.bufs, st.log, b, place);
    }
  }

  /** Thread a gives up the buffer it alone has: released, or lost. */
  lemma BufsKeptGiving(st: State, a: nat, pc: Pc, b: nat, place: Place)
    requires BufsOk(st) && a < |st.pcs| && b < |st.bufs| && !Carries(pc) && !pc.Fetching?
    requires Has(st.pcs[a], b) && st.bufs[b].place == With(a)
    requires place == Lost || place == Gone(st.bufs[b].tcp)
    ensures var st' := Goto(st, a, pc);
            BufsOk(if place.Gone? then Release(st', b, place.byTcp) else Move(st', b, place))
  {
    hide SlotBufsOk, ThreadBufsOk, LogOk;
    ApartBuffer(st, st.slots, a, b);
    SlotBufsElsewhere(st.slots, st.bufs, b, place);
    ThreadBufsStep(st.slots, st.slots, st.pcs, st.bufs, a, pc, b, place);
    if place.Gone? {
      LogGrows(st.bufs, st.log, b);
    } else {
      LogSame(st.bufs, st.log, b, place);
    }
  }

  /** A receiving thread leaves its buffer in the slot. */
  lemma BufsKeptLeaving(st: State, a: nat)
    requires BufsOk(st) && OneReader(st.pcs) && a < |st.pcs| && st.pcs[a].Reading?
    requires st.pcs[a].i < |st.slots| && st.pcs[a].b < |st.bufs|
    ensures var i, b := st.pcs[a].i, st.pcs[a].b;
            BufsOk(Move(Put(Goto(st, a, Using(i)), i, st.slots[i].(lastdata := Some(b))), b, InSlot(i)))
  {
    hide ThreadBufsOk, LogOk;
    var i, b := st.pcs[a].i, st.pcs[a].b;
    var s := st.slots[i].(lastdata := Some(b));
    Whereabouts(st, a);
    ApartSlot(st, a, i, s);
    ApartBuffer(st, st.slots[i := s], a, b);
    SlotBufsStep(st.slots, st.bufs, i, s, b, InSlot(i));
    ThreadBufsStep(st.slots, st.slots[i := s], st.pcs, st.bufs, a, Using(i), b, InSlot(i));
    LogSame(st.bufs, st.log, b, InSlot(i));
  }

  lemma {:induction false} DetachedIs(st: State, i: nat, n: nat)
    requires n <= |st.pcs|
    ensures match Detached(st, i, n)
            case With(c) => c < n && st.pcs[c].Reading? && st.pcs[c].i == i
            case Lost => forall c | 0 <= c < n && st.pcs[c].Reading? :: st.pcs[c].i != i
            case _ => false
  {
    if n > 0 && !(st.pcs[n - 1].Reading? && st.pcs[n - 1].i == i) {
      DetachedIs(st, i, n - 1);
    }
  }

  /** A buffer that somebody put in a slot too early is with its reader alone, or with nobody, once lastdata is reset. */
  lemma BufsKeptResetting(st: State, a: nat)
    requires BufsOk(st) && OneReader(st.pcs) && InRange(st) && Enabled(st, AllocReset(a))
    ensures BufsOk(Next(st, AllocReset(a)))
  {
    hide SlotBufsOk, ThreadBufsOk, LogOk, Detached;
    var i := st.pcs[a].i;
    var s := st.slots[i].(lastdata := Nothing);
    if st.slots[i].lastdata == Nothing {
      assert s == st.slots[i];
      BufsKeptQuiet(st, a, Opening(i), i, s);
    } else {
      var b, slots' := st.slots[i].lastdata.b, st.slots[i := s];
      var place := Detached(st, i, |st.pcs|);
      DetachedIs(st, i, |st.pcs|);
      SlotHas(st, i);
      SlotBufsStep(st.slots, st.bufs, i, s, b, place);
      LogSame(st.bufs, st.log, b, place);
      if place.With? {
        var c := place.a;
        Whereabouts(st, c);
        if st.bufs[st.pcs[c].b].place.InSlot? {
          SlotOfBuffer(st, st.pcs[c].b);
        }
        ApartSlot(st, c, i, s);
        ApartBuffer(st, slots', c, b);
        ThreadBufsStep(st.slots, slots', st.pcs, st.bufs, c, st.pcs[c], b, place);
        assert st.pcs[c := st.pcs[c]] == st.pcs;
      } else {
        NobodyHas(st, i, b, slots');
      }
      var bufs' := st.bufs[b := st.bufs[b].(place := place)];
      assert Apart(slots', slots', st.pcs, a, -1);
      ThreadBufsSame(slots', slots', st.pcs, bufs', a, Opening(i));
    }
  }

  lemma SlotHas(st: State, i: nat)
    requires BufsOk(st) && i < |st.slots| && st.slots[i].lastdata.Some?
    ensures InSlotOk(st.slots[i], i, st.bufs)
  {
  }

  /** No thread works on the buffer of slot i. */
  lemma NobodyHas(st: State, i: nat, b: nat, slots': seq<Slot>)
    requires BufsOk(st) && i < |st.slots| && st.slots[i].lastdata == Some(b) && b < |st.bufs| && st.bufs[b].place == InSlot(i)
    requires forall c | 0 <= c < |st.pcs| && st.pcs[c].Reading? :: st.pcs[c].i != i
    requires slots' == st.slots[i := st.slots[i].(lastdata := Nothing)]
    ensures ThreadBufsOk(slots', st.pcs, st.bufs[b := st.bufs[b].(place := Lost)])
  {
    var bufs' := st.bufs[b := st.bufs[b].(place := Lost)];
    forall c | 0 <= c < |st.pcs| ensures ReaderOk(slots', st.pcs[c], c, bufs') {
      assert ReaderOk(st.slots, st.pcs[c], c, st.bufs);
    }
  }

  /** A receive call finds a buffer in the slot, or has to fetch one. */
  lemma BufsKeptReceiving(st: State, a: nat)
    requires BufsOk(st) && InRange(st) && Enabled(st, Receive(a))
    ensures BufsOk(Next(st, Receive(a)))
  {
    hide SlotBufsOk, ThreadBufsOk, LogOk;
    var i := st.pcs[a].i;
    var s := st.slots[i];
    SameSlots(st.slots, i);
    if s.lastdata.Some? {
      SlotHas(st, i);
      ApartSlot(st, a, i, s);
      ThreadBufsSame(st.slots, st.slots, st.pcs, st.bufs, a, Reading(i, s.lastdata.b));
    } else {
      BufsKeptQuiet(st, a, Fetching(i), i, s);
    }
  }

  /** A receive call puts the buffer it fetched into the slot. */
  lemma BufsKeptFetching(st: State, a: nat)
    requires BufsOk(st) && OneReader(st.pcs) && InRange(st) && Enabled(st, Fetch(a)) && st.slots[st.pcs[a].i].conn.Conn?
    ensures BufsOk(Next(st, Fetch(a)))
  {
    hide SlotBufsOk, ThreadBufsOk, LogOk;
    var i := st.pcs[a].i;
    var s := st.slots[i];
    var b, tcp := |st.bufs|, s.conn == Conn(true);
    var s' := s.(lastdata := Some(b));
    Whereabouts(st, a);
    BufsAppended(st, tcp);
    var bufs := st.bufs + [Buffer(tcp, Lost)];
    assert bufs[b := bufs[b].(place := InSlot(i))] == st.bufs + [Buffer(tcp, InSlot(i))];
    SlotBufsStep(st.slots, bufs, i, s', b, InSlot(i));
    ThreadBufsStep(st.slots, st.slots[i := s'], st.pcs, bufs, a, Reading(i, b), b, InSlot(i));
    LogSame(bufs, st.log, b, InSlot(i));
  }

  /** The last buffer byte is read: the buffer leaves the slot, if it is still there. */
  lemma BufsKeptDropping(st: State, a: nat)
    requires BufsOk(st) && OneReader(st.pcs) && InRange(st) && Enabled(st, TakeAll(a))
    ensures BufsOk(Next(st, TakeAll(a)))
  {
    hide ThreadBufsOk, LogOk, SlotBufsOk;
    var i, b := st.pcs[a].i, st.pcs[a].b;
    var s := st.slots[i].(lastdata := Nothing);
    Whereabouts(st, a);
    if st.bufs[b].place == InSlot(i) {
      SlotOfBuffer(st, b);
      BufsKeptTaking(st, a, Dropping(i, b), i, s, b, With(a));
    } else {
      assert s == st.slots[i];
      SameSlots(st.slots, i);
      ApartSlot(st, a, i, s);
      ApartBuffer(st, st.slots, a, b);
      SlotBufsElsewhere(st.slots, st.bufs, b, With(a));
      ThreadBufsStep(st.slots, st.slots, st.pcs, st.bufs, a, Dropping(i, b), b, With(a));
      LogSame(st.bufs, st.log, b, With(a));
    }
  }

  lemma SlotOfBuffer(st: State, b: nat)
    requires BufsOk(st) && b < |st.bufs| && st.bufs[b].place.InSlot?
    ensures st.bufs[b].place.i < |st.slots| && st.slots[st.bufs[b].place.i].lastdata == Some(b)
  {
  }

  lemma BufsKeptDone(st: State, step: Step)
    requires Inv(st) && InRange(st) && Enabled(st, step) && Leaves(step)
    ensures BufsOk(Next(st, step))
  {
    hide BufsOk, SlotsOk, Users, OneReader, Done;
    var a, i := step.a, st.pcs[step.a].i;
    var s := st.slots[i];
    OwnSlot(st.slots, st.pcs, a);
    DoneOk(s, Users(st.pcs, i));
    if Users(st.pcs, i) == 1 {
      AloneIf(st.pcs, a, i);
    }
    if Done(s).1.Some? {
      SlotHas(st, i);
      BufsKeptTaking(st, a, Idle, i, Done(s).0, Done(s).1.b, Gone(s.conn.tcp));
    } else {
      BufsKeptQuiet(st, a, Idle, i, Done(s).0);
    }
  }

  lemma BufsKeptFreeing(st: State, step: Step)
    requires Inv(st) && InRange(st) && Enabled(st, step) && step.FreeSocket?
    ensures BufsOk(Next(st, step))
  {
    hide BufsOk, SlotsOk, Users, OneReader;
    var a, i, tcp := step.a, st.pcs[step.a].i, st.pcs[step.a].tcp;
    var s := st.slots[i];
    OwnSlot(st.slots, st.pcs, a);
    if Users(st.pcs, i) == 1 {
      AloneIf(st.pcs, a, i);
    }
    if Freed(s, tcp).1.Some? {
      SlotHas(st, i);
      var b := s.lastdata.b;
      BufsKeptTaking(st, a, Releasing(b, tcp), i, Freed(s, tcp).0, b, With(a));
    } else {
      BufsKeptQuiet(st, a, Idle, i, Freed(s, tcp).0);
    }
  }

  lemma BufsKeptOtherwise(st: State, step: Step)
    requires Inv(st) && InRange(st) && Enabled(st, step)
    requires step.Alloc? || step.Lookup? || step.ReadConn? || step.FetchFails? || step.Delete?
    ensures BufsOk(Next(st, step))
  {
    hide BufsOk, SlotsOk, Users, OneReader;
    var a, st' := step.a, Next(st, step);
    var i := if step.Alloc? || step.Lookup? then step.i else st.pcs[a].i;
    OwnSlot(st.slots, st.pcs, a);
    SameSlots(st.slots, i);
    if step.Alloc? {
      AloneIf(st.pcs, a, i);
    }
    BufsKeptQuiet(st, a, st'.pcs[a], i, st'.slots[i]);
  }

  lemma BufsKeptReading(st: State, step: Step)
    requires Inv(st) && InRange(st) && Enabled(st, step)
    requires step.KeepRest? || step.Leave? || step.FreeRead? || step.FreeLast?
    ensures BufsOk(Next(st, step))
  {
    hide BufsOk, SlotsOk, Users, OneReader;
    var a := step.a;
    var pc := st.pcs[a];
    OwnSlot(st.slots, st.pcs, a);
    Whereabouts(st, a);
    if step.KeepRest? {
      BufsKeptLeaving(st, a);
    } else if step.Leave? && st.slots[pc.i].lastdata == Some(pc.b) {
      SlotHas(st, pc.i);
      BufsKeptLeaving(st, a);
      Untouched(st, a);
    } else if step.Leave? {
      if st.bufs[pc.b].place.InSlot? {
        SlotOfBuffer(st, pc.b);
      }
      BufsKeptGiving(st, a, Using(pc.i), pc.b, Lost);
    } else if step.FreeRead? {
      BufsKeptGiving(st, a, Using(pc.i), pc.b, Gone(st.bufs[pc.b].tcp));
    } else {
      BufsKeptGiving(st, a, Idle, pc.b, Gone(pc.tcp));
    }
  }

  lemma Untouched(st: State, a: nat)
    requires a < |st.pcs| && st.pcs[a].Reading? && st.pcs[a].i < |st.slots| && st.pcs[a].b < |st.bufs|
    requires st.slots[st.pcs[a].i].lastdata == Some(st.pcs[a].b) && st.bufs[st.pcs[a].b].place == InSlot(st.pcs[a].i)
    ensures var i, b := st.pcs[a].i, st.pcs[a].b;
            Goto(st, a, Using(i)) == Move(Put(Goto(st, a, Using(i)), i, st.slots[i].(lastdata := Some(b))), b, InSlot(i))
  {
    var i, b := st.pcs[a].i, st.pcs[a].b;
    assert st.slots[i].(lastdata := Some(b)) == st.slots[i];
    assert st.bufs[b].(place := InSlot(i)) == st.bufs[b];
  }

  lemma BufsKept(st: State, step: Step)
    requires Inv(st) && InRange(st) && Enabled(st, step)
    ensures BufsOk(Next(st, step))
  {
    hide BufsOk, SlotsOk, OneReader, Next;
    OwnSlot(st.slots, st.pcs, step.a);
    if Leaves(step) {
      BufsKeptDone(st, step);
    } else if step.FreeSocket? {
      BufsKeptFreeing(st, step);
    } else if step.AllocReset? {
      BufsKeptResetting(st, step.a);
    } else if step.Receive? {
      BufsKeptReceiving(st, step.a);
    } else if step.Fetch? {
      BufsKeptFetching(st, step.a);
    } else if step.TakeAll? {
      BufsKeptDropping(st, step.a);
    } else if step.KeepRest? || step.Leave? || step.FreeRead? || step.FreeLast? {
      BufsKeptReading(st, step);
    } else {
      BufsKeptOtherwise(st, step);
    }
  }

  /** Only the thread that takes the step moves, and only Receive lets it start to receive. */
  lemma StepMoves(st: State, step: Step)
    requires InRange(st) && Enabled(st, step)
    ensures var pcs' := Next(st, step).pcs;
            && |pcs'| == |st.pcs| && (forall c | 0 <= c < |pcs'| && c != step.a :: pcs'[c] == st.pcs[c])
            && (Receiving(pcs'[step.a]) && !step.Receive? ==> Receiving(st.pcs[step.a]) && st.pcs[step.a].i == pcs'[step.a].i)
            && (step.Receive? ==> Receiving(pcs'[step.a]) && pcs'[step.a].i == st.pcs[step.a].i && NoReader(st.pcs, st.pcs[step.a].i))
  {
    hide Detached, Done, Freed;
  }

  lemma OneReaderKept(st: State, step: Step)
    requires OneReader(st.pcs) && InRange(st) && Enabled(st, step)
    ensures OneReader(Next(st, step).pcs)
  {
    hide Next, Enabled;
    StepMoves(st, step);
  }

  /** Every step keeps the invariant, unless it makes fd_used wrap. */
  lemma StepKeeps(st: State, step: Step)
    requires Inv(st) && Enabled(st, step) && !Crowded(st, step)
    ensures InRange(st) && Inv(Next(st, step))
  {
    hide BufsOk, SlotsOk, OneReader, Next, Enabled;
    InvInRange(st);
    SlotsKept(st, step);
    BufsKept(st, step);
    OneReaderKept(st, step);
  }

  // ---------------------------------------------------------------- runs

  /** The socket table at start, with m threads. */
  function Start(n: nat, m: nat): State {
    State(seq(n, i => Slot(NoConn, Nothing, 0, 0)), seq(m, i => Idle), [], [])
  }

  /** The threads can take these steps one after the other. */
  predicate Runs(st: State, steps: seq<Step>)
    decreases |steps|
  {
    steps == [] || (InRange(st) && Enabled(st, steps[0]) && Runs(Next(st, steps[0]), steps[1..]))
  }

  function After(st: State, steps: seq<Step>): State
    requires Runs(st, steps)
    decreases |steps|
  {
    if steps == [] then st else After(Next(st, steps[0]), steps[1..])
  }

  lemma {:induction false} NobodyAtStart(pcs: seq<Pc>, i: nat)
    requires forall a | 0 <= a < |pcs| :: pcs[a] == Idle
    ensures Users(pcs, i) == 0
  {
    if pcs != [] {
      NobodyAtStart(pcs[1..], i);
    }
  }

  lemma StartInv(n: nat, m: nat)
    ensures Inv(Start(n, m))
  {
    forall i | 0 <= i < n ensures Users(Start(n, m).pcs, i) == 0 {
      NobodyAtStart(Start(n, m).pcs, i);
    }
  }

  /** No lookup of the run makes a slot have 256 users. */
  predicate NeverCrowded(st: State, steps: seq<Step>)
    requires Runs(st, steps)
    decreases |steps|
  {
    steps == [] || (!Crowded(st, steps[0]) && NeverCrowded(Next(st, steps[0]), steps[1..]))
  }

  lemma {:induction false} RunKeeps(st: State, steps: seq<Step>)
    requires Inv(st) && Runs(st, steps) && NeverCrowded(st, steps)
    ensures Inv(After(st, steps))
    decreases |steps|
  {
    hide Inv, InRange, Enabled, Next, Crowded;
    if steps != [] {
      StepKeeps(st, steps[0]);
      RunKeeps(Next(st, steps[0]), steps[1..]);
    }
  }

  /** fd_used of every slot is the number of threads that use it. */
  predicate Counts(st: State) {
    forall i | 0 <= i < |st.slots| :: st.slots[i].used == Users(st.pcs, i)
  }

  /** The same, at every moment of a run. */
  predicate AlwaysCounts(st: State, steps: seq<Step>)
    requires Runs(st, steps)
    decreases |steps|
  {
    Counts(st) && (steps == [] || AlwaysCounts(Next(st, steps[0]), steps[1..]))
  }

  /** The step that wraps fd_used leaves a wrong count. */
  lemma CrowdedMiscounts(st: State, step: Step)
    requires Inv(st) && InRange(st) && Enabled(st, step) && Crowded(st, step)
    ensures !Counts(Next(st, step))
  {
    hide BufsOk, OneReader;
    UsersMoved(st.pcs, step.a, Looking(step.i), step.i);
    assert Next(st, step).slots[step.i].used < Users(Next(st, step).pcs, step.i);
  }

  lemma {:induction false} AlwaysCountsFrom(st: State, steps: seq<Step>)
    requires Inv(st) && Runs(st, steps)
    ensures AlwaysCounts(st, steps) <==> NeverCrowded(st, steps)
    decreases |steps|
  {
    hide InRange, Enabled, Next, Crowded, BufsOk, OneReader;
    forall i | 0 <= i < |st.slots| ensures SlotOk(st.slots[i], Users(st.pcs, i)) {
    }
    if steps != [] {
      if Crowded(st, steps[0]) {
        CrowdedMiscounts(st, steps[0]);
      } else {
        StepKeeps(st, steps[0]);
        AlwaysCountsFrom(Next(st, steps[0]), steps[1..]);
      }
    }
  }

  /** The count of every slot is right all through a run, exactly if no lookup comes to a slot with 255 users. */
  lemma CountsRightIff(n: nat, m: nat, steps: seq<Step>)
    requires Runs(Start(n, m), steps)
    ensures AlwaysCounts(Start(n, m), steps) <==> NeverCrowded(Start(n, m), steps)
  {
    hide *;
    StartInv(n, m);
    AlwaysCountsFrom(Start(n, m), steps);
  }

  /** Fewer than 256 threads never crowd a slot. */
  lemma {:induction false} FewThreadsNeverCrowd(st: State, steps: seq<Step>)
    requires Runs(st, steps) && |st.pcs| < 256
    ensures NeverCrowded(st, steps)
    decreases |steps|
  {
    hide Next;
    if steps != [] {
      StepMoves(st, steps[0]);
      if steps[0].Lookup? {
        UsersBounded(st.pcs, steps[0].i);
      }
      FewThreadsNeverCrowd(Next(st, steps[0]), steps[1..]);
    }
  }

  /** The first k of m threads are looking up the only slot. */
  function Crowd(m: nat, k: nat): State {
    State([Slot(NoConn, Nothing, k % 256, 0)], seq(m, a => if a < k then Looking(0) else Idle), [], [])
  }

  function Lookups(k: nat): seq<Step> {
    if k == 0 then [] else Lookups(k - 1) + [Lookup(k - 1, 0)]
  }

  lemma OneMoreLooks(m: nat, k: nat)
    requires k < m
    ensures Runs(Crowd(m, k), [Lookup(k, 0)]) && After(Crowd(m, k), [Lookup(k, 0)]) == Crowd(m, k + 1)
  {
    var st, next := Crowd(m, k), Crowd(m, k + 1);
    assert InRange(st) && Enabled(st, Lookup(k, 0));
    assert st.pcs[k := Looking(0)] == next.pcs;
    assert st.slots[0 := Counted(st.slots[0])] == next.slots;
    OneStep(st, Lookup(k, 0), next);
  }

  lemma {:induction false} CrowdGathers(m: nat, k: nat)
    requires k <= m
    ensures Runs(Start(1, m), Lookups(k)) && After(Start(1, m), Lookups(k)) == Crowd(m, k)
  {
    hide InRange, Enabled, Next;
    if k == 0 {
      assert Start(1, m) == Crowd(m, 0);
    } else {
      CrowdGathers(m, k - 1);
      OneMoreLooks(m, k - 1);
      RunsOn(Start(1, m), Lookups(k - 1), [Lookup(k - 1, 0)]);
    }
  }

  /** 256 threads can do it: the slot looks vacant while all of them use it. */
  lemma CountCanWrap()
    ensures Runs(Start(1, 256), Lookups(256)) && After(Start(1, 256), Lookups(256)) == Crowd(256, 256)
    ensures Vacant(Crowd(256, 256).slots[0]) && Users(Crowd(256, 256).pcs, 0) == 256
  {
    hide Runs, After, Lookups;
    CrowdGathers(256, 256);
    AllUse(Crowd(256, 256).pcs);
  }

  lemma {:induction false} AllUse(pcs: seq<Pc>)
    requires forall a | 0 <= a < |pcs| :: pcs[a] == Looking(0)
    ensures Users(pcs, 0) == |pcs|
  {
    if pcs != [] {
      AllUse(pcs[1..]);
    }
  }

  /**
   In every run without such a lookup the count of a slot is the number of threads that use
   it; a thread past the check of tryget_socket has its netconn; a slot marked to be freed
   still has a user.
   */
  lemma CountsAreUsers(n: nat, m: nat, steps: seq<Step>)
    requires Runs(Start(n, m), steps) && NeverCrowded(Start(n, m), steps)
    ensures var st := After(Start(n, m), steps);
            && Counts(st)
            && (forall i | 0 <= i < |st.slots| && st.slots[i].conn.Conn? && st.slots[i].pending != 0 :: Users(st.pcs, i) > 0)
            && (forall a | 0 <= a < |st.pcs| && SlotOf(st.pcs[a]) >= 0 && !st.pcs[a].Looking? && !st.pcs[a].Missed? ::
                  SlotOf(st.pcs[a]) < |st.slots| && st.slots[SlotOf(st.pcs[a])].conn.Conn?)
  {
    StartInv(n, m);
    RunKeeps(Start(n, m), steps);
    var st := After(Start(n, m), steps);
    forall i | 0 <= i < |st.slots| ensures SlotOk(st.slots[i], Users(st.pcs, i)) {
    }
    forall a | 0 <= a < |st.pcs| && SlotOf(st.pcs[a]) >= 0 ensures SlotOf(st.pcs[a]) < |st.slots| && PcOk(st.pcs[a], st.slots[SlotOf(st.pcs[a])]) {
    }
  }

  /** A slot is taken or cleared only while no other thread uses it; cleared only by a close, or by the last user after a close. */
  lemma SlotChangesHands(st: State, step: Step, i: nat)
    requires Inv(st) && Enabled(st, step) && InRange(st) && i < |st.slots|
    requires Next(st, step).slots[i].conn != st.slots[i].conn
    ensures Alone(st.pcs, step.a, i)
    ensures if step.Alloc? then st.slots[i].conn == NoConn && step.i == i
            else Next(st, step).slots[i] == st.slots[i].(conn := NoConn, used := 0, lastdata := Nothing)
    ensures step.Alloc? || (SlotOf(st.pcs[step.a]) == i && (step.FreeSocket? || (Leaves(step) && st.slots[i].pending != 0)))
  {
    hide BufsOk, OneReader, SlotsOk, Users, Detached;
    OwnSlot(st.slots, st.pcs, step.a);
    if Enters(step) {
      AloneIf(st.pcs, step.a, i);
    } else if Leaves(step) {
      DoneOk(st.slots[st.pcs[step.a].i], Users(st.pcs, st.pcs[step.a].i));
      AloneIf(st.pcs, step.a, i);
    } else if step.FreeSocket? {
      AloneIf(st.pcs, step.a, i);
    }
  }

  /** The mark of a close stays until the slot is cleared. */
  lemma MarkStays(st: State, step: Step, i: nat)
    requires Inv(st) && Enabled(st, step) && InRange(st) && i < |st.slots| && st.slots[i].conn.Conn? && st.slots[i].pending != 0
    ensures |Next(st, step).slots| == |st.slots|
    ensures Next(st, step).slots[i].conn == NoConn || (Next(st, step).slots[i].conn.Conn? && Next(st, step).slots[i].pending != 0)
  {
    hide BufsOk, OneReader, SlotsOk, Users, Detached;
  }

  lemma MarkedIsUsed(st: State, i: nat)
    requires Inv(st) && i < |st.slots| && st.slots[i].conn.Conn? && st.slots[i].pending != 0
    ensures Users(st.pcs, i) > 0
  {
    assert SlotOk(st.slots[i], Users(st.pcs, i));
  }

  /** After a close the slot is cleared at some point of the run, unless a thread still uses it at the end. */
  lemma {:induction false} ClosedSlotIsFreed(st: State, steps: seq<Step>, i: nat) returns (k: nat)
    requires Inv(st) && Runs(st, steps) && NeverCrowded(st, steps)
    requires i < |st.slots| && st.slots[i].conn.Conn? && st.slots[i].pending != 0
    ensures k <= |steps| && Runs(st, steps[..k]) && i < |After(st, steps[..k]).slots|
    ensures After(st, steps[..k]).slots[i].conn == NoConn || (k == |steps| && Users(After(st, steps).pcs, i) > 0)
    decreases |steps|
  {
    if steps == [] {
      MarkedIsUsed(st, i);
      k := 0;
    } else {
      var next := Next(st, steps[0]);
      StepKeeps(st, steps[0]);
      MarkStays(st, steps[0], i);
      if next.slots[i].conn == NoConn {
        k := 1;
        assert steps[..1] == [steps[0]] && [steps[0]][1..] == [];
        assert After(next, []) == next;
      } else {
        var j := ClosedSlotIsFreed(next, steps[1..], i);
        k := j + 1;
        assert steps[..k][1..] == steps[1..][..j] && steps[..k][0] == steps[0];
      }
    }
  }

  /** Looking up a slot that is free does no harm, even if its mark of an earlier close is still there. */
  lemma StaleLookupIsHarmless(st: State, step: Step)
    requires Inv(st) && step.GiveUp? && Enabled(st, step) && InRange(st)
    ensures var i := st.pcs[step.a].i;
            && st.slots[i].conn == NoConn && st.slots[i].used > 0
            && Next(st, step) == Put(Goto(st, step.a, Idle), i, st.slots[i].(used := st.slots[i].used - 1))
  {
    hide BufsOk, OneReader, SlotsOk, Users;
    OwnSlot(st.slots, st.pcs, step.a);
  }

  // ---------------------------------------------------------------- what kind of socket a slot holds

  /** A slot is given a netconn of the kind asked for. */
  lemma AllocGives(st: State, a: nat, i: nat, tcp: bool)
    requires InRange(st) && Enabled(st, Alloc(a, i, tcp))
    ensures var st' := Next(st, Alloc(a, i, tcp));
            i < |st'.slots| && st'.slots[i].conn == Conn(tcp) && st'.slots[i].used == 1 && st'.slots[i].pending == 0
  {
  }

  /** A netconn stays in its slot until the slot is cleared. */
  lemma ConnStays(st: State, step: Step, i: nat)
    requires Inv(st) && InRange(st) && Enabled(st, step) && i < |st.slots| && st.slots[i].conn.Conn?
    ensures i < |Next(st, step).slots|
    ensures Next(st, step).slots[i].conn == NoConn || Next(st, step).slots[i].conn == st.slots[i].conn
  {
    hide Inv, Detached, Done, Freed;
    if Leaves(step) {
      KeepsConn(st.slots[st.pcs[step.a].i], false);
    } else if step.FreeSocket? {
      KeepsConn(st.slots[st.pcs[step.a].i], st.pcs[step.a].tcp);
    }
  }

  lemma KeepsConn(s: Slot, tcp: bool)
    ensures Freed(s, tcp).0.conn == NoConn || Freed(s, tcp).0.conn == s.conn
    ensures Done(s).0.conn == NoConn || Done(s).0.conn == s.conn
  {
  }

  /** Slot i has a netconn throughout the run. */
  predicate Occupied(st: State, steps: seq<Step>, i: nat)
    requires Runs(st, steps)
    decreases |steps|
  {
    i < |st.slots| && st.slots[i].conn.Conn? && (steps == [] || Occupied(Next(st, steps[0]), steps[1..], i))
  }

  lemma {:induction false} ConnKept(st: State, steps: seq<Step>, i: nat)
    requires Inv(st) && Runs(st, steps) && NeverCrowded(st, steps) && Occupied(st, steps, i)
    ensures i < |After(st, steps).slots| && After(st, steps).slots[i].conn == st.slots[i].conn
    decreases |steps|
  {
    hide Inv, InRange, Enabled, Next, Crowded;
    if steps != [] {
      StepKeeps(st, steps[0]);
      ConnStays(st, steps[0], i);
      ConnKept(Next(st, steps[0]), steps[1..], i);
    }
  }

  /** What kind of socket a buffer came from does not change. */
  lemma LabelStays(st: State, step: Step, b: nat)
    requires InRange(st) && Enabled(st, step) && b < |st.bufs|
    ensures b < |Next(st, step).bufs| && Next(st, step).bufs[b].tcp == st.bufs[b].tcp
  {
    hide Done, Freed, Detached;
    if Leaves(step) {
      DoneTakes(st.slots[st.pcs[step.a].i]);
    } else if step.FreeSocket? {
      FreedTakes(st.slots[st.pcs[step.a].i], st.pcs[step.a].tcp);
    }
  }

  lemma {:induction false} LabelKept(st: State, steps: seq<Step>, b: nat)
    requires Runs(st, steps) && b < |st.bufs|
    ensures b < |After(st, steps).bufs| && After(st, steps).bufs[b].tcp == st.bufs[b].tcp
    decreases |steps|
  {
    hide InRange, Enabled, Next;
    if steps != [] {
      LabelStays(st, steps[0], b);
      LabelKept(Next(st, steps[0]), steps[1..], b);
    }
  }

  lemma FetchLabels(st: State, c: nat)
    requires InRange(st) && Enabled(st, Fetch(c))
    ensures st.pcs[c].i < |st.slots|
    ensures var st' := Next(st, Fetch(c));
            && |st'.bufs| == |st.bufs| + 1
            && (st.slots[st.pcs[c].i].conn.Conn? ==> st'.bufs[|st.bufs|].tcp == st.slots[st.pcs[c].i].conn.tcp)
  {
  }

  lemma LogByKind(st: State, k: nat)
    requires Inv(st) && k < |st.log|
    ensures st.log[k].0 < |st.bufs| && st.log[k].1 == st.bufs[st.log[k].0].tcp
  {
    assert st.bufs[st.log[k].0] == Buffer(st.log[k].1, Gone(st.log[k].1));
  }

  /**
   From the allocation of slot i for one kind of socket until the slot is cleared, whatever is
   fetched there is released by the routine for that kind, at any later time, if at all.
   */
  lemma FetchedByKind(st: State, a: nat, i: nat, tcp: bool, during: seq<Step>, c: nat, rest: seq<Step>)
    requires Inv(st) && InRange(st) && Enabled(st, Alloc(a, i, tcp))
    requires var st1 := Next(st, Alloc(a, i, tcp)); Runs(st1, during) && NeverCrowded(st1, during) && Occupied(st1, during, i)
    requires var st2 := After(Next(st, Alloc(a, i, tcp)), during);
             && InRange(st2) && Enabled(st2, Fetch(c)) && st2.pcs[c].i == i
             && Runs(Next(st2, Fetch(c)), rest) && NeverCrowded(Next(st2, Fetch(c)), rest)
    ensures var st2 := After(Next(st, Alloc(a, i, tcp)), during);
            var end := After(Next(st2, Fetch(c)), rest);
            forall k | 0 <= k < |end.log| && end.log[k].0 == |st2.bufs| :: end.log[k].1 == tcp
  {
    hide Inv, InRange, Enabled, Next, Runs, NeverCrowded, Occupied, After;
    var st1 := Next(st, Alloc(a, i, tcp));
    var st2 := After(st1, during);
    var st3 := Next(st2, Fetch(c));
    var end := After(st3, rest);
    StepKeeps(st, Alloc(a, i, tcp));
    AllocGives(st, a, i, tcp);
    RunKeeps(st1, during);
    ConnKept(st1, during, i);
    StepKeeps(st2, Fetch(c));
    FetchLabels(st2, c);
    RunKeeps(st3, rest);
    LabelKept(st3, rest, |st2.bufs|);
    forall k | 0 <= k < |end.log| && end.log[k].0 == |st2.bufs| ensures end.log[k].1 == tcp {
      LogByKind(end, k);
    }
  }

  // ---------------------------------------------------------------- looking up a closed socket

  predicate Closes(pc: Pc, i: nat) { pc.Closing? && pc.i == i }

  /** The netconn of slot i has been deleted by a close, and the slot has not been cleared yet. */
  predicate Deleted(st: State, i: nat)
    requires i < |st.slots|
  {
    st.slots[i].conn.Conn? && (st.slots[i].pending != 0 || exists c :: 0 <= c < |st.pcs| && Closes(st.pcs[c], i))
  }

  /** That is so from the deletion on, for as long as the slot points to that netconn. */
  lemma DeletedIff(st: State, step: Step, i: nat)
    requires Inv(st) && InRange(st) && Enabled(st, step) && i < |st.slots|
    requires i < |Next(st, step).slots| && Next(st, step).slots[i].conn.Conn?
    ensures Deleted(Next(st, step), i) <==> Deleted(st, i) || (step.Delete? && st.pcs[step.a].i == i)
  {
    hide BufsOk, OneReader, SlotsOk, Users, Next, Inv;
    var next := Next(st, step);
    MarkSet(st, step, i);
    StepMoves(st, step);
    if c :| 0 <= c < |st.pcs| && Closes(st.pcs[c], i) && c != step.a {
      assert Closes(next.pcs[c], i);
    }
    if step.Delete? && st.pcs[step.a].i == i {
      assert Closes(next.pcs[step.a], i);
    }
  }

  /** How one step changes the mark, and the thread that takes it. */
  lemma MarkSet(st: State, step: Step, i: nat)
    requires Inv(st) && InRange(st) && Enabled(st, step) && i < |st.slots|
    requires i < |Next(st, step).slots| && Next(st, step).slots[i].conn.Conn?
    ensures step.a < |Next(st, step).pcs|
    ensures Closes(Next(st, step).pcs[step.a], i) <==> step.Delete? && st.pcs[step.a].i == i
    ensures if step.FreeSocket? && st.pcs[step.a].i == i then Closes(st.pcs[step.a], i) && Next(st, step).slots[i].pending != 0
            else !Closes(st.pcs[step.a], i) && (!st.slots[i].conn.Conn? || Next(st, step).slots[i].pending == st.slots[i].pending)
    ensures step.FreeSocket? && st.pcs[step.a].i == i ==> st.slots[i].conn.Conn?
    ensures !st.slots[i].conn.Conn? ==> Next(st, step).slots[i].pending == 0 && Alone(st.pcs, step.a, i)
  {
    hide BufsOk, OneReader, SlotsOk, Users, Detached;
    OwnSlot(st.slots, st.pcs, step.a);
    if step.Alloc? && step.i == i {
      AloneIf(st.pcs, step.a, i);
    }
  }

  /** tryget_socket looks at neither the mark nor the netconn: a thread can go on to use a netconn that is deleted. */
  lemma DeletedIsFound(st: State, a: nat, i: nat)
    requires Inv(st) && a < |st.pcs| && st.pcs[a] == Idle && i < |st.slots| && Deleted(st, i)
    ensures var steps := [Lookup(a, i), ReadConn(a)];
            && Runs(st, steps)
            && var next := After(st, steps);
               next.pcs == st.pcs[a := Using(i)] && i < |next.slots| && Deleted(next, i)
  {
    hide BufsOk, OneReader, SlotsOk, Users;
    InvInRange(st);
    var found := Next(st, Lookup(a, i));
    var next := Goto(found, a, Using(i));
    OneStep(st, Lookup(a, i), found);
    OneStep(found, ReadConn(a), next);
    RunsOn(st, [Lookup(a, i)], [ReadConn(a)]);
    assert [Lookup(a, i)] + [ReadConn(a)] == [Lookup(a, i), ReadConn(a)];
    assert next.pcs == st.pcs[a := Using(i)];
    if c :| 0 <= c < |st.pcs| && Closes(st.pcs[c], i) {
      assert Closes(next.pcs[c], i);
    }
  }

  /** One slot: thread 0 opens a socket in it and closes it. */
  function Opener(pc: Pc, used: U8): State {
    State([Slot(Conn(true), Nothing, used, 0)], [pc, Idle], [], [])
  }

  lemma OpeningSteps()
    ensures Runs(Start(1, 2), [Alloc(0, 0, true)]) && After(Start(1, 2), [Alloc(0, 0, true)]) == Opener(Fresh(0), 1)
    ensures Runs(Opener(Fresh(0), 1), [AllocReset(0)]) && After(Opener(Fresh(0), 1), [AllocReset(0)]) == Opener(Opening(0), 1)
  {
    hide Done, Freed;
    OneStep(Start(1, 2), Alloc(0, 0, true), Opener(Fresh(0), 1));
    OneStep(Opener(Fresh(0), 1), AllocReset(0), Opener(Opening(0), 1));
  }

  lemma OpenedStep()
    ensures Runs(Opener(Opening(0), 1), [Opened(0)]) && After(Opener(Opening(0), 1), [Opened(0)]) == Opener(Idle, 0)
  {
    OneStep(Opener(Opening(0), 1), Opened(0), Opener(Idle, 0));
  }

  lemma UsingSteps()
    ensures Runs(Opener(Idle, 0), [Lookup(0, 0)]) && After(Opener(Idle, 0), [Lookup(0, 0)]) == Opener(Looking(0), 1)
    ensures Runs(Opener(Looking(0), 1), [ReadConn(0)]) && After(Opener(Looking(0), 1), [ReadConn(0)]) == Opener(Using(0), 1)
  {
    hide Done, Freed, Detached;
    OneStep(Opener(Idle, 0), Lookup(0, 0), Opener(Looking(0), 1));
    OneStep(Opener(Looking(0), 1), ReadConn(0), Opener(Using(0), 1));
  }

  lemma ClosingStep()
    ensures Runs(Opener(Using(0), 1), [Delete(0)]) && After(Opener(Using(0), 1), [Delete(0)]) == Opener(Closing(0, true), 1)
  {
    hide Done, Freed, Detached;
    OneStep(Opener(Using(0), 1), Delete(0), Opener(Closing(0, true), 1));
  }

  lemma ClosingInv()
    ensures var st := Opener(Closing(0, true), 1); Inv(st) && Deleted(st, 0)
  {
    var st := Opener(Closing(0, true), 1);
    assert st.pcs[1..] == [Idle] && [Idle][1..] == [];
    assert Users([Idle], 0) == 0 && Users(st.pcs, 0) == 1;
    assert Closes(st.pcs[0], 0);
  }

  lemma FindingSteps()
    ensures Runs(Opener(Closing(0, true), 1), [Lookup(1, 0), ReadConn(1)])
    ensures var st := After(Opener(Closing(0, true), 1), [Lookup(1, 0), ReadConn(1)]);
            st.pcs == [Closing(0, true), Using(0)] && 0 < |st.slots| && Deleted(st, 0)
  {
    hide Inv, Deleted, Runs, After;
    ClosingInv();
    DeletedIsFound(Opener(Closing(0, true), 1), 1, 0);
  }

  /** A run in which it happens: thread 1 has got the socket while thread 0 is between netconn_delete and free_socket. */
  lemma DeletedCanBeFound()
    ensures var steps := [Alloc(0, 0, true), AllocReset(0), Opened(0), Lookup(0, 0), ReadConn(0), Delete(0), Lookup(1, 0), ReadConn(1)];
            && Runs(Start(1, 2), steps)
            && var st := After(Start(1, 2), steps);
               st.pcs == [Closing(0, true), Using(0)] && 0 < |st.slots| && Deleted(st, 0)
  {
    hide Next, InRange, Enabled, Runs, After, Start, Opener, Deleted;
    OpeningSteps();
    OpenedStep();
    UsingSteps();
    ClosingStep();
    FindingSteps();
    var s := [Alloc(0, 0, true), AllocReset(0), Opened(0), Lookup(0, 0), ReadConn(0), Delete(0)];
    RunsOn(Start(1, 2), [Alloc(0, 0, true)], [AllocReset(0)]);
    RunsOn(Start(1, 2), [Alloc(0, 0, true)] + [AllocReset(0)], [Opened(0)]);
    RunsOn(Start(1, 2), [Alloc(0, 0, true)] + [AllocReset(0)] + [Opened(0)], [Lookup(0, 0)]);
    RunsOn(Start(1, 2), [Alloc(0, 0, true)] + [AllocReset(0)] + [Opened(0)] + [Lookup(0, 0)], [ReadConn(0)]);
    RunsOn(Start(1, 2), [Alloc(0, 0, true)] + [AllocReset(0)] + [Opened(0)] + [Lookup(0, 0)] + [ReadConn(0)], [Delete(0)]);
    assert s == [Alloc(0, 0, true)] + [AllocReset(0)] + [Opened(0)] + [Lookup(0, 0)] + [ReadConn(0)] + [Delete(0)];
    RunsOn(Start(1, 2), s, [Lookup(1, 0), ReadConn(1)]);
    assert s + [Lookup(1, 0), ReadConn(1)]
        == [Alloc(0, 0, true), AllocReset(0), Opened(0), Lookup(0, 0), ReadConn(0), Delete(0), Lookup(1, 0), ReadConn(1)];
  }

  // ---------------------------------------------------------------- what becomes of the buffers

  /** In every run a buffer is released at most once, and by the routine for its protocol. */
  lemma ReleasedOnce(n: nat, m: nat, steps: seq<Step>)
    requires Runs(Start(n, m), steps) && NeverCrowded(Start(n, m), steps)
    ensures var st := After(Start(n, m), steps);
            && (forall k, l | 0 <= k < l < |st.log| :: st.log[k].0 != st.log[l].0)
            && (forall k | 0 <= k < |st.log| :: st.log[k].0 < |st.bufs| && st.log[k].1 == st.bufs[st.log[k].0].tcp)
  {
    StartInv(n, m);
    RunKeeps(Start(n, m), steps);
  }

  /** Once all slots are free and no thread is at work, every buffer has been released, or was lost. */
  lemma AllReleased(st: State, b: nat)
    requires Inv(st) && b < |st.bufs|
    requires forall i | 0 <= i < |st.slots| :: st.slots[i].conn == NoConn
    requires forall a | 0 <= a < |st.pcs| :: st.pcs[a] == Idle
    ensures st.bufs[b].place == Lost || (b, st.bufs[b].tcp) in st.log
  {
    forall i | 0 <= i < |st.slots| ensures st.slots[i].lastdata == Nothing {
      assert SlotOk(st.slots[i], Users(st.pcs, i));
    }
  }

  /** The threads still between the two halves of alloc_socket for slot i. */
  predicate BeingTaken(pcs: seq<Pc>, i: nat) {
    exists c :: 0 <= c < |pcs| && pcs[c] == Fresh(i)
  }

  /** A receive call, through a descriptor kept from an earlier socket, before alloc_socket is finished. */
  predicate Early(st: State, step: Step)
    requires Enabled(st, step)
  {
    step.Receive? && BeingTaken(st.pcs, st.pcs[step.a].i)
  }

  predicate NeverEarly(st: State, steps: seq<Step>)
    requires Runs(st, steps)
    decreases |steps|
  {
    steps == [] || (!Early(st, steps[0]) && NeverEarly(Next(st, steps[0]), steps[1..]))
  }

  /** Nothing is lost, and nothing is in a slot that is being taken. */
  predicate Clean(st: State) {
    && (forall b | 0 <= b < |st.bufs| :: st.bufs[b].place != Lost)
    && (forall c | 0 <= c < |st.pcs| && st.pcs[c].Fresh? && st.pcs[c].i < |st.slots| ::
          st.slots[st.pcs[c].i].lastdata == Nothing && NoReader(st.pcs, st.pcs[c].i))
    && (forall c | 0 <= c < |st.pcs| && st.pcs[c].Reading? && st.pcs[c].i < |st.slots| ::
          st.slots[st.pcs[c].i].lastdata == Some(st.pcs[c].b))
  }

  /** This step makes somebody's buffer disappear. */
  predicate Loses(st: State, step: Step)
    requires InRange(st) && Enabled(st, step)
  {
    exists b :: 0 <= b < |st.bufs| && b < |Next(st, step).bufs| && st.bufs[b].place != Lost && Next(st, step).bufs[b].place == Lost
  }

  /** Exactly two kinds of steps do: alloc_socket's reset of lastdata under nobody's eyes, and a reader's leaving after it. */
  lemma LosesIff(st: State, step: Step)
    requires Inv(st) && InRange(st) && Enabled(st, step)
    ensures Loses(st, step) <==>
              || (step.AllocReset? && st.slots[st.pcs[step.a].i].lastdata.Some? && NoReader(st.pcs, st.pcs[step.a].i))
              || (step.Leave? && st.slots[st.pcs[step.a].i].lastdata == Nothing)
  {
    if step.AllocReset? {
      LosesByReset(st, step);
    } else if step.Leave? {
      LosesByLeaving(st, step);
    } else {
      NothingLost(st, step);
    }
  }

  lemma LosesByReset(st: State, step: Step)
    requires Inv(st) && InRange(st) && step.AllocReset? && Enabled(st, step)
    ensures Loses(st, step) <==> st.slots[st.pcs[step.a].i].lastdata.Some? && NoReader(st.pcs, st.pcs[step.a].i)
  {
    hide SlotsOk, OneReader, Detached, LogOk, ThreadBufsOk;
    var i := st.pcs[step.a].i;
    if st.slots[i].lastdata.Some? {
      var b := st.slots[i].lastdata.b;
      SlotHas(st, i);
      DetachedIs(st, i, |st.pcs|);
      NobodyDrops(st, i);
      assert Next(st, step).bufs[b].place == Detached(st, i, |st.pcs|);
    }
  }

  /** Nobody is about to release or to fetch a buffer of slot i while lastdata is set. */
  lemma NobodyDrops(st: State, i: nat)
    requires Inv(st) && i < |st.slots| && st.slots[i].lastdata.Some?
    ensures forall c | 0 <= c < |st.pcs| && (st.pcs[c].Dropping? || st.pcs[c].Fetching?) :: st.pcs[c].i != i
  {
    forall c | 0 <= c < |st.pcs| && (st.pcs[c].Dropping? || st.pcs[c].Fetching?) ensures st.pcs[c].i != i {
      assert ReaderOk(st.slots, st.pcs[c], c, st.bufs);
    }
  }

  lemma LosesByLeaving(st: State, step: Step)
    requires Inv(st) && InRange(st) && step.Leave? && Enabled(st, step)
    ensures Loses(st, step) <==> st.slots[st.pcs[step.a].i].lastdata == Nothing
  {
    hide SlotsOk, OneReader;
    var i, b := st.pcs[step.a].i, st.pcs[step.a].b;
    Whereabouts(st, step.a);
    if st.bufs[b].place.InSlot? {
      SlotOfBuffer(st, b);
    } else {
      assert Next(st, step).bufs[b].place == Lost;
    }
  }

  lemma NothingLost(st: State, step: Step)
    requires InRange(st) && Enabled(st, step) && !step.AllocReset? && !step.Leave?
    ensures !Loses(st, step)
  {
    hide Done, Freed;
  }

  /** Who may change lastdata of a slot. */
  lemma LastdataChanges(st: State, step: Step, i: nat)
    requires Inv(st) && InRange(st) && Enabled(st, step) && i < |st.slots|
    requires Next(st, step).slots[i].lastdata != st.slots[i].lastdata
    ensures SlotOf(st.pcs[step.a]) == i
    ensures step.AllocReset? || Receiving(st.pcs[step.a]) || Alone(st.pcs, step.a, i)
  {
    hide BufsOk, OneReader, SlotsOk, Users, Detached;
    OwnSlot(st.slots, st.pcs, step.a);
    if Leaves(step) {
      DoneOk(st.slots[st.pcs[step.a].i], Users(st.pcs, st.pcs[step.a].i));
      if Users(st.pcs, i) == 1 {
        AloneIf(st.pcs, step.a, i);
      }
    } else if step.FreeSocket? {
      if Users(st.pcs, i) == 1 {
        AloneIf(st.pcs, step.a, i);
      }
    }
  }

  /** A run without early receives stays clean: the slots. */
  lemma FreshStaysEmpty(st: State, step: Step, c: nat)
    requires Inv(st) && Clean(st) && Enabled(st, step) && InRange(st) && !Early(st, step)
    requires c < |st.pcs| && c < |Next(st, step).pcs| && Next(st, step).pcs[c].Fresh? && Next(st, step).pcs[c].i < |st.slots|
    ensures var next, i := Next(st, step), Next(st, step).pcs[c].i;
            i < |next.slots| && next.slots[i].lastdata == Nothing && NoReader(next.pcs, i)
  {
    hide BufsOk, OneReader, SlotsOk, Users, Done, Freed, Detached;
    var next, i := Next(st, step), Next(st, step).pcs[c].i;
    StepMoves(st, step);
    OwnSlot(st.slots, st.pcs, step.a);
    if c == step.a {
      AloneIf(st.pcs, c, i);
    } else {
      assert st.pcs[c] == Fresh(i) && st.slots[i].lastdata == Nothing && NoReader(st.pcs, i);
      if next.slots[i].lastdata != Nothing {
        LastdataChanges(st, step, i);
      }
    }
  }

  /** The same: a buffer that is being read stays in its slot. */
  lemma ReadStaysIn(st: State, step: Step, c: nat)
    requires Inv(st) && Clean(st) && Enabled(st, step) && InRange(st)
    requires c < |st.pcs| && c < |Next(st, step).pcs| && Next(st, step).pcs[c].Reading? && Next(st, step).pcs[c].i < |st.slots|
    ensures var next, pc := Next(st, step), Next(st, step).pcs[c];
            pc.i < |next.slots| && next.slots[pc.i].lastdata == Some(pc.b)
  {
    hide BufsOk, SlotsOk, Users, Done, Freed, Detached;
    var next, i := Next(st, step), Next(st, step).pcs[c].i;
    StepMoves(st, step);
    if c != step.a {
      assert st.slots[i].lastdata == Some(st.pcs[c].b);
      if next.slots[i].lastdata != st.slots[i].lastdata {
        LastdataChanges(st, step, i);
      }
    }
  }

  lemma CleanLosesNothing(st: State, step: Step)
    requires Clean(st) && Enabled(st, step) && InRange(st)
    ensures step.AllocReset? ==> st.slots[st.pcs[step.a].i].lastdata == Nothing
    ensures step.Leave? ==> st.slots[st.pcs[step.a].i].lastdata != Nothing
  {
    assert SlotOf(st.pcs[step.a]) < |st.slots|;
  }

  lemma CleanKept(st: State, step: Step)
    requires Inv(st) && Clean(st) && Enabled(st, step) && InRange(st) && !Early(st, step)
    ensures Clean(Next(st, step))
  {
    hide Inv, Next, InRange;
    var next := Next(st, step);
    SameNumbers(st, step);
    LosesIff(st, step);
    CleanLosesNothing(st, step);
    forall b | 0 <= b < |next.bufs| ensures next.bufs[b].place != Lost {
      assert b < |st.bufs| ==> st.bufs[b].place != Lost;
    }
    forall c | 0 <= c < |next.pcs| && next.pcs[c].Fresh? && next.pcs[c].i < |next.slots|
      ensures next.slots[next.pcs[c].i].lastdata == Nothing && NoReader(next.pcs, next.pcs[c].i)
    {
      FreshStaysEmpty(st, step, c);
    }
    forall c | 0 <= c < |next.pcs| && next.pcs[c].Reading? && next.pcs[c].i < |next.slots|
      ensures next.slots[next.pcs[c].i].lastdata == Some(next.pcs[c].b)
    {
      ReadStaysIn(st, step, c);
    }
  }

  lemma SameNumbers(st: State, step: Step)
    requires InRange(st) && Enabled(st, step)
    ensures |Next(st, step).slots| == |st.slots| && |Next(st, step).pcs| == |st.pcs|
    ensures |st.bufs| <= |Next(st, step).bufs|
    ensures forall b | |st.bufs| <= b < |Next(st, step).bufs| :: Next(st, step).bufs[b].place != Lost
  {
    if step.AllocReset? {
      DetachedIs(st, st.pcs[step.a].i, |st.pcs|);
    }
  }

  /** Without early receives no buffer is ever lost. */
  lemma {:induction false} NoEarlyNoLoss(st: State, steps: seq<Step>)
    requires Inv(st) && Clean(st) && Runs(st, steps) && NeverEarly(st, steps) && NeverCrowded(st, steps)
    ensures Clean(After(st, steps))
    decreases |steps|
  {
    hide Inv, Clean, InRange, Enabled, Next, Early, Crowded;
    if steps != [] {
      StepKeeps(st, steps[0]);
      CleanKept(st, steps[0]);
      NoEarlyNoLoss(Next(st, steps[0]), steps[1..]);
    }
  }

  /**
   From start to rest, in any interleaving without early receives and crowded slots: what was
   received has been released exactly once, by the routine for its protocol.
   */
  lemma EverythingReleased(n: nat, m: nat, steps: seq<Step>, b: nat)
    requires Runs(Start(n, m), steps) && NeverEarly(Start(n, m), steps) && NeverCrowded(Start(n, m), steps)
    requires b < |After(Start(n, m), steps).bufs|
    requires forall i | 0 <= i < |After(Start(n, m), steps).slots| :: After(Start(n, m), steps).slots[i].conn == NoConn
    requires forall a | 0 <= a < |After(Start(n, m), steps).pcs| :: After(Start(n, m), steps).pcs[a] == Idle
    ensures var st := After(Start(n, m), steps);
            && (b, st.bufs[b].tcp) in st.log
            && (forall k, l | 0 <= k < |st.log| && 0 <= l < |st.log| && st.log[k].0 == st.log[l].0 :: k == l)
  {
    hide Next, InRange, Enabled, Early, Crowded;
    StartInv(n, m);
    NoEarlyNoLoss(Start(n, m), steps);
    RunKeeps(Start(n, m), steps);
    AllReleased(After(Start(n, m), steps), b);
  }

  predicate NoneLost(st: State) {
    forall b | 0 <= b < |st.bufs| :: st.bufs[b].place != Lost
  }

  /** No step of the run loses a buffer. */
  predicate NeverLoses(st: State, steps: seq<Step>)
    requires Runs(st, steps)
    decreases |steps|
  {
    steps == [] || (!Loses(st, steps[0]) && NeverLoses(Next(st, steps[0]), steps[1..]))
  }

  /** No thread and no slot has a lost buffer. */
  lemma LostIsNowhere(st: State, b: nat)
    requires Inv(st) && b < |st.bufs| && st.bufs[b].place == Lost
    ensures forall a | 0 <= a < |st.pcs| && Carries(st.pcs[a]) :: st.pcs[a].b != b
    ensures forall i | 0 <= i < |st.slots| && st.slots[i].lastdata.Some? :: st.slots[i].lastdata.b != b
  {
    hide SlotsOk, OneReader, LogOk;
    forall a | 0 <= a < |st.pcs| && Carries(st.pcs[a]) ensures st.pcs[a].b != b {
      assert ReaderOk(st.slots, st.pcs[a], a, st.bufs);
    }
    forall i | 0 <= i < |st.slots| && st.slots[i].lastdata.Some? ensures st.slots[i].lastdata.b != b {
      SlotHas(st, i);
    }
  }

  /** A lost buffer stays lost. */
  lemma LostStays(st: State, step: Step, b: nat)
    requires Inv(st) && InRange(st) && Enabled(st, step) && b < |st.bufs| && st.bufs[b].place == Lost
    ensures b < |Next(st, step).bufs| && Next(st, step).bufs[b].place == Lost
  {
    hide Inv, Done, Freed, Detached;
    LostIsNowhere(st, b);
    if Leaves(step) {
      DoneTakes(st.slots[st.pcs[step.a].i]);
    } else if step.FreeSocket? {
      FreedTakes(st.slots[st.pcs[step.a].i], st.pcs[step.a].tcp);
    }
  }

  /** What a close or a last user takes out of a slot was in it. */
  lemma FreedTakes(s: Slot, tcp: bool)
    ensures Freed(s, tcp).1.Some? ==> Freed(s, tcp).1 == s.lastdata
  {
  }

  lemma DoneTakes(s: Slot)
    ensures Done(s).1.Some? ==> Done(s).1 == s.lastdata
  {
  }

  /** Over one step, what is lost at the end was lost before or is lost by it. */
  lemma NoneLostAfter(st: State, step: Step)
    requires Inv(st) && InRange(st) && Enabled(st, step) && NoneLost(st)
    ensures NoneLost(Next(st, step)) <==> !Loses(st, step)
  {
    hide Inv, Next, InRange;
    SameNumbers(st, step);
  }

  lemma SomeLostAfter(st: State, step: Step)
    requires Inv(st) && InRange(st) && Enabled(st, step) && !NoneLost(st)
    ensures !NoneLost(Next(st, step))
  {
    hide Inv, Next, InRange;
    var b :| 0 <= b < |st.bufs| && st.bufs[b].place == Lost;
    LostStays(st, step, b);
  }

  lemma {:induction false} SomeLostForGood(st: State, steps: seq<Step>)
    requires Inv(st) && Runs(st, steps) && NeverCrowded(st, steps) && !NoneLost(st)
    ensures !NoneLost(After(st, steps))
    decreases |steps|
  {
    hide Inv, NoneLost, InRange, Enabled, Next, Crowded;
    if steps != [] {
      StepKeeps(st, steps[0]);
      SomeLostAfter(st, steps[0]);
      SomeLostForGood(Next(st, steps[0]), steps[1..]);
    }
  }

  lemma {:induction false} NoneLostIff(st: State, steps: seq<Step>)
    requires Inv(st) && Runs(st, steps) && NeverCrowded(st, steps) && NoneLost(st)
    ensures NoneLost(After(st, steps)) <==> NeverLoses(st, steps)
    decreases |steps|
  {
    hide Inv, NoneLost, InRange, Enabled, Next, Crowded, Loses;
    if steps != [] {
      StepKeeps(st, steps[0]);
      NoneLostAfter(st, steps[0]);
      if Loses(st, steps[0]) {
        SomeLostForGood(Next(st, steps[0]), steps[1..]);
      } else {
        NoneLostIff(Next(st, steps[0]), steps[1..]);
      }
    }
  }

  /** All slots are free and no thread is at work. */
  predicate AtRest(st: State) {
    && (forall i | 0 <= i < |st.slots| :: st.slots[i].conn == NoConn)
    && (forall a | 0 <= a < |st.pcs| :: st.pcs[a] == Idle)
  }

  /** Every buffer that was received has been released, by the routine for its protocol. */
  predicate AllGone(st: State) {
    forall b | 0 <= b < |st.bufs| :: (b, st.bufs[b].tcp) in st.log
  }

  /** At rest that is so exactly if none is lost. */
  lemma GoneIffNotLost(st: State)
    requires Inv(st) && AtRest(st)
    ensures AllGone(st) <==> NoneLost(st)
  {
    hide SlotsOk, OneReader;
    if NoneLost(st) {
      forall b | 0 <= b < |st.bufs| ensures (b, st.bufs[b].tcp) in st.log {
        AllReleased(st, b);
      }
    } else {
      var b :| 0 <= b < |st.bufs| && st.bufs[b].place == Lost;
      LostIsNotLogged(st, b);
    }
  }

  lemma LostIsNotLogged(st: State, b: nat)
    requires LogOk(st.bufs, st.log) && b < |st.bufs| && st.bufs[b].place == Lost
    ensures (b, st.bufs[b].tcp) !in st.log
  {
    forall k | 0 <= k < |st.log| ensures st.log[k].0 != b {
      assert st.bufs[st.log[k].0].place.Gone?;
    }
  }

  /** From start to rest, in any interleaving: every buffer has been released if and only if no step of the run loses one. */
  lemma EverythingReleasedIff(n: nat, m: nat, steps: seq<Step>)
    requires Runs(Start(n, m), steps) && NeverCrowded(Start(n, m), steps) && AtRest(After(Start(n, m), steps))
    ensures AllGone(After(Start(n, m), steps)) <==> NeverLoses(Start(n, m), steps)
  {
    hide *;
    StartInv(n, m);
    RunKeeps(Start(n, m), steps);
    NoneAtStart(n, m);
    NoneLostIff(Start(n, m), steps);
    GoneIffNotLost(After(Start(n, m), steps));
  }

  lemma NoneAtStart(n: nat, m: nat)
    ensures NoneLost(Start(n, m))
  {
  }

  /** One slot and two threads: thread 0 is taking the slot, thread 1 is at `pc`. */
  function Taking(pc: Pc, used: U8, last: Last, bufs: seq<Buffer>): State {
    State([Slot(Conn(true), last, used, 0)], [Fresh(0), pc], bufs, [])
  }

  /** A run of one step. */
  lemma OneStep(st: State, step: Step, next: State)
    requires InRange(st) && Enabled(st, step) && Next(st, step) == next
    ensures Runs(st, [step]) && After(st, [step]) == next
  {
    assert Runs(next, []) && [step][1..] == [];
  }

  lemma EarlyAlloc()
    ensures Runs(Start(1, 2), [Alloc(0, 0, true)]) && After(Start(1, 2), [Alloc(0, 0, true)]) == Taking(Idle, 1, Nothing, [])
  {
    OneStep(Start(1, 2), Alloc(0, 0, true), Taking(Idle, 1, Nothing, []));
  }

  lemma EarlyLookup()
    ensures Runs(Taking(Idle, 1, Nothing, []), [Lookup(1, 0)])
    ensures After(Taking(Idle, 1, Nothing, []), [Lookup(1, 0)]) == Taking(Looking(0), 2, Nothing, [])
    ensures Runs(Taking(Looking(0), 2, Nothing, []), [ReadConn(1)])
    ensures After(Taking(Looking(0), 2, Nothing, []), [ReadConn(1)]) == Taking(Using(0), 2, Nothing, [])
  {
    OneStep(Taking(Idle, 1, Nothing, []), Lookup(1, 0), Taking(Looking(0), 2, Nothing, []));
    OneStep(Taking(Looking(0), 2, Nothing, []), ReadConn(1), Taking(Using(0), 2, Nothing, []));
  }

  lemma EarlyReceive()
    ensures Runs(Taking(Using(0), 2, Nothing, []), [Receive(1)])
    ensures After(Taking(Using(0), 2, Nothing, []), [Receive(1)]) == Taking(Fetching(0), 2, Nothing, [])
    ensures Runs(Taking(Fetching(0), 2, Nothing, []), [Fetch(1)])
    ensures After(Taking(Fetching(0), 2, Nothing, []), [Fetch(1)]) == Taking(Reading(0, 0), 2, Some(0), [Buffer(true, InSlot(0))])
  {
    hide Done, Freed, Detached;
    OneStep(Taking(Using(0), 2, Nothing, []), Receive(1), Taking(Fetching(0), 2, Nothing, []));
    OneStep(Taking(Fetching(0), 2, Nothing, []), Fetch(1), Taking(Reading(0, 0), 2, Some(0), [Buffer(true, InSlot(0))]));
  }

  lemma EarlyPeek()
    ensures Runs(Taking(Reading(0, 0), 2, Some(0), [Buffer(true, InSlot(0))]), [Leave(1)])
    ensures After(Taking(Reading(0, 0), 2, Some(0), [Buffer(true, InSlot(0))]), [Leave(1)])
         == Taking(Using(0), 2, Some(0), [Buffer(true, InSlot(0))])
  {
    OneStep(Taking(Reading(0, 0), 2, Some(0), [Buffer(true, InSlot(0))]), Leave(1),
            Taking(Using(0), 2, Some(0), [Buffer(true, InSlot(0))]));
  }

  lemma LostAtReset()
    ensures Runs(Taking(Using(0), 2, Some(0), [Buffer(true, InSlot(0))]), [AllocReset(0)])
    ensures After(Taking(Using(0), 2, Some(0), [Buffer(true, InSlot(0))]), [AllocReset(0)]).bufs == [Buffer(true, Lost)]
  {
    var st := Taking(Using(0), 2, Some(0), [Buffer(true, InSlot(0))]);
    assert Detached(st, 0, 2) == Lost;
    OneStep(st, AllocReset(0), Next(st, AllocReset(0)));
  }

  lemma {:induction false} RunsOn(st: State, first: seq<Step>, second: seq<Step>)
    requires Runs(st, first) && Runs(After(st, first), second)
    ensures Runs(st, first + second) && After(st, first + second) == After(After(st, first), second)
    decreases |first|
  {
    hide Next, InRange, Enabled;
    if first == [] {
      assert first + second == second;
    } else {
      RunsOn(Next(st, first[0]), first[1..], second);
      assert (first + second)[1..] == first[1..] + second;
    }
  }

  /** An early receive can lose a buffer: a peek leaves it in the slot just before alloc_socket resets lastdata. */
  lemma EarlyReceiveLoses()
    ensures var steps := [Alloc(0, 0, true), Lookup(1, 0), ReadConn(1), Receive(1), Fetch(1), Leave(1), AllocReset(0)];
            Runs(Start(1, 2), steps) && After(Start(1, 2), steps).bufs == [Buffer(true, Lost)]
  {
    hide Next, InRange, Enabled, Runs, After, Start, Taking;
    EarlyAlloc();
    EarlyLookup();
    EarlyReceive();
    EarlyPeek();
    LostAtReset();
    RunsOn(Start(1, 2), [Alloc(0, 0, true)], [Lookup(1, 0)]);
    RunsOn(Start(1, 2), [Alloc(0, 0, true)] + [Lookup(1, 0)], [ReadConn(1)]);
    RunsOn(Start(1, 2), [Alloc(0, 0, true)] + [Lookup(1, 0)] + [ReadConn(1)], [Receive(1)]);
    RunsOn(Start(1, 2), [Alloc(0, 0, true)] + [Lookup(1, 0)] + [ReadConn(1)] + [Receive(1)], [Fetch(1)]);
    RunsOn(Start(1, 2), [Alloc(0, 0, true)] + [Lookup(1, 0)] + [ReadConn(1)] + [Receive(1)] + [Fetch(1)], [Leave(1)]);
    RunsOn(Start(1, 2), [Alloc(0, 0, true)] + [Lookup(1, 0)] + [ReadConn(1)] + [Receive(1)] + [Fetch(1)] + [Leave(1)], [AllocReset(0)]);
    assert [Alloc(0, 0, true)] + [Lookup(1, 0)] + [ReadConn(1)] + [Receive(1)] + [Fetch(1)] + [Leave(1)] + [AllocReset(0)]
        == [Alloc(0, 0, true), Lookup(1, 0), ReadConn(1), Receive(1), Fetch(1), Leave(1), AllocReset(0)];
  }
}
