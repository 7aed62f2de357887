/** What the driver promises, for every run from start-up: any interleaving of the
    host, the interrupt routine, a writer, a reader, presence checks and ioctl. */
module UartTheorems {
  import opened Ring
  import opened UartMachine
  import opened UartInvariant

  function After(alarmStarted: bool, acts: seq<Action>): (m: Machine)
    ensures WellFormed(m)
  {
    Exec(Boot(alarmStarted), acts)
  }

  lemma Reached(alarmStarted: bool, acts: seq<Action>)
    ensures Inv(After(alarmStarted, acts))
  {
    BootHolds(alarmStarted);
    RunKeeps(Boot(alarmStarted), acts);
  }

  // ---------------------------------------------------------------- conservation

  /** Nothing the host sends is lost, doubled or reordered on the way to the callers of
      read, even though the reader works from a stale `rx_in`. */
  lemma ReceiveConserves(alarmStarted: bool, acts: seq<Action>)
    ensures var rx := After(alarmStarted, acts).s.rx;
            rx.sent == rx.delivered + RxRing(rx) + rx.fifo && rx.delivered <= rx.sent
  {
    Reached(alarmStarted, acts);
    var rx := After(alarmStarted, acts).s.rx;
    assert rx.delivered + RxRing(rx) + rx.fifo == rx.delivered + (RxRing(rx) + rx.fifo);
  }

  /** Nothing accepted by write is lost, doubled or reordered on the way to the host. */
  lemma TransmitConserves(alarmStarted: bool, acts: seq<Action>)
    ensures var tx := After(alarmStarted, acts).s.tx;
            tx.accepted == tx.received + tx.fifo + TxRing(tx) && tx.received <= tx.accepted
  {
    Reached(alarmStarted, acts);
    var tx := After(alarmStarted, acts).s.tx;
    assert tx.received + tx.fifo + TxRing(tx) == tx.received + (tx.fifo + TxRing(tx));
  }

  /** What one call of write has put in is a prefix of its argument, and what one call of
      read has given out follows on from what earlier calls gave out. */
  lemma CallsMoveWhatTheyCount(alarmStarted: bool, acts: seq<Action>)
    ensures var m := After(alarmStarted, acts);
            && (!m.writer.WIdle? ==> var c := m.writer.w;
                 c.done <= |c.data| && m.s.tx.accepted == c.base + c.data[..c.done])
            && (!m.reader.RIdle? ==> var c := m.reader.r;
                 |c.got| <= c.space && m.s.rx.delivered == c.base + c.got)
  {
    Reached(alarmStarted, acts);
  }

  /** The byte that write's memcpy stores next lies inside the array and is not live;
      the byte that read's memcpy takes next is live; the slot the interrupt routine
      fills is in neither; and the device is written only while it has room. */
  lemma NoSlotIsSharedWrongly(alarmStarted: bool, acts: seq<Action>)
    ensures var m := After(alarmStarted, acts);
            var rx, tx := m.s.rx, m.s.tx;
            && (m.writer.WCopy? && m.writer.k < m.writer.n ==>
                  var i := m.writer.inn + m.writer.k; Index(i) && !Live(tx.out, tx.inn, i))
            && (m.reader.RCopy? && |m.reader.tmp| < m.reader.n ==>
                  var i := m.reader.out + |m.reader.tmp|; Index(i) && Live(rx.out, rx.inn, i) && i != rx.inn)
            && (m.isr.TxLoop? && m.isr.space > 0 ==> |tx.fifo| < TX_DEPTH)
            && |tx.fifo| <= TX_DEPTH && |rx.fifo| <= RX_DEPTH
  {
    Reached(alarmStarted, acts);
    var m := After(alarmStarted, acts);
    if m.writer.WCopy? && m.writer.k < m.writer.n {
      CopyInKeeps(m.s.tx, m.writer.w, m.writer.inn, m.writer.n, m.writer.k);
    }
  }

  // ---------------------------------------------------------------- wake-ups

  /** Data waiting to go out keeps WE set, unless the writer has yet to set it; RE is
      clear only over a full ring, unless the reader has yet to set it. */
  lemma NoLostWakeUp(alarmStarted: bool, acts: seq<Action>)
    ensures var m := After(alarmStarted, acts);
            && (TxRing(m.s.tx) != [] ==> m.s.ctl.we || OwesKick(m.writer))
            && (!m.s.ctl.re ==> |RxRing(m.s.rx)| == N - 1 || OwesEnable(m.reader))
            && m.s.ctl.re == m.s.ctl.irqRe && m.s.ctl.we == m.s.ctl.irqWe
  {
    Reached(alarmStarted, acts);
    var rx := After(alarmStarted, acts).s.rx;
    FullTest(rx.out, rx.inn);
  }

  /** The busy-wait tests on an index mean what they are meant to, although the indices
      wrap: `out == tx_out` exactly while the ring is still full, and `in == rx_in`
      exactly while it is still empty. */
  lemma SpinTestsAreExact(alarmStarted: bool, acts: seq<Action>)
    ensures var m := After(alarmStarted, acts);
            && (m.writer.WSpin? ==> (m.writer.out == m.s.tx.out <==> |TxRing(m.s.tx)| == N - 1))
            && (m.reader.RSpin? ==> (m.reader.inn == m.s.rx.inn <==> RxRing(m.s.rx) == []))
  {
    Reached(alarmStarted, acts);
  }

  /** No driver step can change anything: no interrupt may be raised, and the writer and
      the reader are outside their calls or turning in their busy-waits. */
  predicate Stuck(m: Machine)
    requires WellFormed(m)
  {
    && m.isr == Idle
    && (forall ri, wi :: MayReport(m.s, ri, wi) ==> !ri && !wi)
    && (m.writer == WIdle || (m.writer.WSpin? && WriterMove(m) == m))
    && (m.reader == RIdle || (m.reader.RSpin? && ReaderMove(m) == m))
  }

  /** When the driver can do nothing more it is waiting for the outside and never for
      itself: bytes are left to transmit only behind a full device FIFO, a byte is left
      in the device only behind a full ring, a blocked reader has truly nothing to read
      and a blocked writer is held up by the host alone. */
  lemma WaitsOnlyForTheOutside(alarmStarted: bool, acts: seq<Action>)
    requires Stuck(After(alarmStarted, acts))
    ensures var m := After(alarmStarted, acts);
            && (TxRing(m.s.tx) == [] || |m.s.tx.fifo| == TX_DEPTH)
            && (m.s.rx.fifo == [] || |RxRing(m.s.rx)| == N - 1)
            && (m.reader.RSpin? ==> m.s.rx.delivered == m.s.rx.sent)
            && (m.writer.WSpin? ==> |m.s.tx.fifo| == TX_DEPTH && |TxRing(m.s.tx)| == N - 1)
            && (m.writer.WSpin? || m.reader.RSpin? ==> Connected(m.s.host))
  {
    NoLostWakeUp(alarmStarted, acts);
    SpinTestsAreExact(alarmStarted, acts);
    NoSlotIsSharedWrongly(alarmStarted, acts);
    Reached(alarmStarted, acts);
    var m := After(alarmStarted, acts);
    assert !MayReport(m.s, true, false) && !MayReport(m.s, false, true);
    if m.reader.RSpin? {
      assert RxRing(m.s.rx) == [] && m.s.rx.fifo == [];
      assert m.s.rx.delivered + [] + [] == m.s.rx.delivered;
    }
  }

  // ---------------------------------------------------------------- the interrupt routine ends

  /** What the routine can still use up: room in the receive ring, bytes in the transmit
      ring, and the two enable bits. The host can add to none of them. */
  function Fuel(m: Machine): nat
    requires WellFormed(m)
  {
    Free(m.s.rx.out, m.s.rx.inn) + Len(m.s.tx.out, m.s.tx.inn)
    + (if m.s.ctl.re then 1 else 0) + (if m.s.ctl.we then 1 else 0)
  }

  function Rank(m: Machine): nat
    requires WellFormed(m)
  {
    10 * Fuel(m) +
    match m.isr
    case Idle => 0
    case Top => 9
    case RxLoop(_, _, ravail) => if ravail then 8 else 17
    case RxDone(_, _, ravail) => if ravail then 7 else 16
    case TxLoop(space) => if space > 0 then 6 else 14
    case TxDone(space) => if space > 0 then 5 else 13
  }

  predicate IsrMoves(m: Machine, a: Action) {
    a.IsrStep? && m.isr != Idle && (m.isr == Top ==> MayReport(m.s, a.ri, a.wi))
  }

  lemma EachIsrStepCounts(m: Machine, a: Action)
    requires Inv(m) && IsrMoves(m, a)
    ensures Rank(Step(m, a)) < Rank(m)
  {
    hide Window, Live;
    var rx, tx := m.s.rx, m.s.tx;
    FullTest(rx.out, rx.inn);
    if m.isr.RxLoop? && !RxFull(rx) && rx.fifo != [] {
      RxStoreKeeps(rx, m.reader);
    } else if m.isr.TxLoop? && m.isr.space > 0 && tx.out != tx.inn {
      TxSendKeeps(tx, m.writer);
    }
  }

  lemma OtherStepsCostNothing(m: Machine, a: Action)
    requires WellFormed(m) && m.isr != Idle && !IsrMoves(m, a)
    ensures Rank(Step(m, a)) == Rank(m)
  {
  }

  /** The routine is running before, during and after `acts`. */
  predicate RunsThroughout(m: Machine, acts: seq<Action>)
    requires WellFormed(m)
    decreases |acts|
  {
    m.isr != Idle && (acts != [] ==> RunsThroughout(Step(m, acts[0]), acts[1..]))
  }

  function IsrMoveCount(m: Machine, acts: seq<Action>): nat
    requires WellFormed(m)
    decreases |acts|
  {
    if acts == [] then 0
    else (if IsrMoves(m, acts[0]) then 1 else 0) + IsrMoveCount(Step(m, acts[0]), acts[1..])
  }

  /** The unbounded loop of the interrupt routine ends, whatever the host sends or takes
      meanwhile: it makes at most `Rank(m)` steps, and that is at most 40977. */
  lemma {:induction false} IsrTerminates(m: Machine, acts: seq<Action>)
    requires Inv(m) && RunsThroughout(m, acts)
    ensures IsrMoveCount(m, acts) + Rank(Exec(m, acts)) <= Rank(m) <= 40977
    decreases |acts|
  {
    if acts != [] {
      var a := acts[0];
      StepKeeps(m, a);
      if IsrMoves(m, a) {
        EachIsrStepCounts(m, a);
      } else {
        OtherStepsCostNothing(m, a);
      }
      IsrTerminates(Step(m, a), acts[1..]);
    }
  }

  // ---------------------------------------------------------------- host presence

  predicate TimeoutInRange(timeout: nat, alarmStarted: bool) {
    if alarmStarted then 2 <= timeout < INT_MAX else timeout == INT_MAX
  }

  lemma {:induction false} TimeoutStaysInRange(m: Machine, acts: seq<Action>, alarmStarted: bool)
    requires WellFormed(m) && TimeoutInRange(m.s.host.timeout, alarmStarted)
    ensures TimeoutInRange(Exec(m, acts).s.host.timeout, alarmStarted)
    decreases |acts|
  {
    if acts != [] {
      TimeoutStaysInRange(Step(m, acts[0]), acts[1..], alarmStarted);
    }
  }
}
