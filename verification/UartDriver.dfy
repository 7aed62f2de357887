/** The driver's own code, over its mutable state and the device's registers. A ghost
    machine runs beside it, one step for each access the code makes, so everything
    proved of every run of the machine holds of every execution of this code. */
module UartDriver {
  import opened Ring
  import opened UartMachine
  import opened UartInvariant
  import opened UartTheorems
  import opened UartPresence

  const EWOULDBLOCK := 11
  const EIO := 5
  const ENOTTY := 25

  /** A call that has come back, or one that is still in its busy-wait when the
      execution under consideration stops. */
  datatype Outcome = Returned(value: int) | StillWaiting

  datatype Request = SetTimeoutReq | GetConnectedReq | Other

  predicate Drained(s: Shared) {
    s.tx.out == s.tx.inn || !Connected(s.host)
  }

  /** What can have happened while other parties ran: both callers stand where they
      stood, and the rings have only drained (transmit) and filled (receive). */
  predicate Rely(m: Machine, m': Machine)
    requires WellFormed(m) && WellFormed(m')
  {
    && m'.writer == m.writer && m'.reader == m.reader
    && m'.s.tx.inn == m.s.tx.inn && m'.s.tx.accepted == m.s.tx.accepted
    && m'.s.rx.out == m.s.rx.out && m'.s.rx.delivered == m.s.rx.delivered
    && Len(m'.s.tx.out, m'.s.tx.inn) <= Len(m.s.tx.out, m.s.tx.inn)
    && Len(m'.s.rx.out, m'.s.rx.inn) >= Len(m.s.rx.out, m.s.rx.inn)
    && m'.s.host.timeout == m.s.host.timeout
  }

  /** What a call of write that has come back has done: it put a prefix of `data` into
      the stream and says how long that is, or which error when that is nothing; it falls
      short only for a non-blocking caller or a host seen inactive; and it never takes
      less than there was room for when it began. */
  predicate WriteResult(m: Machine, m': Machine, data: seq<Byte>, nonblock: bool, value: int)
    requires WellFormed(m) && WellFormed(m')
  {
    var done := |m'.s.tx.accepted| - |m.s.tx.accepted|;
    && 0 <= done && WriteEnds(m, m', data, nonblock, done)
    && value == if done > 0 then done else if nonblock then -EWOULDBLOCK else -EIO
  }

  predicate WriteEnds(m: Machine, m': Machine, data: seq<Byte>, nonblock: bool, done: nat)
    requires WellFormed(m) && WellFormed(m')
  {
    && done <= |data| && m'.s.tx.accepted == m.s.tx.accepted + data[..done]
    && (done < |data| ==> nonblock || m'.s.host.hostInactive != 0)
    && (done == |data| || done >= Free(m.s.tx.out, m.s.tx.inn))
    && (m'.s.ctl.we || m'.s.tx.inn == m'.s.tx.out)
  }

  /** What a call of read that has come back has done: it was given the bytes that follow
      on in the stream, as many as were waiting when it began or as there was space for;
      and it comes back with nothing only with no space, for a non-blocking caller, or
      from an empty ring. */
  predicate ReadResult(m: Machine, m': Machine, space: int, nonblock: bool, got: seq<Byte>, value: int)
    requires WellFormed(m) && WellFormed(m')
  {
    && m'.s.rx.delivered == m.s.rx.delivered + got && |got| <= (if space > 0 then space else 0)
    && value == (if got != [] then |got| else if nonblock then -EWOULDBLOCK else -EIO)
    && (|got| >= space || |got| >= Len(m.s.rx.out, m.s.rx.inn))
    && (got == [] && space > 0 ==> m'.s.rx.inn == m'.s.rx.out || nonblock)
    && (m'.s.ctl.re || Len(m'.s.rx.out, m'.s.rx.inn) == N - 1)
  }

  lemma OthersRely(m: Machine, a: Action)
    requires Inv(m) && (a.Main? ==> a.t.Tick?)
    ensures Rely(m, Step(m, a))
  {
    var rx, tx := m.s.rx, m.s.tx;
    if a.IsrStep? && m.isr.RxLoop? && !RxFull(rx) && rx.fifo != [] {
      RxStoreKeeps(rx, m.reader);
    } else if a.IsrStep? && m.isr.TxLoop? && m.isr.space > 0 && tx.out != tx.inn {
      TxSendKeeps(tx, m.writer);
    }
  }

  lemma LoadInMoves(m: Machine)
    requires WellFormed(m) && m.writer.WLoadIn? && m.writer.w.done < |m.writer.w.data|
    ensures WriterMove(m) == m.(writer := WLoadOut(m.writer.w, m.s.tx.inn))
  {
  }

  lemma LoadOutMoves(m: Machine)
    requires Inv(m) && m.isr == Idle && m.writer.WLoadOut?
    ensures var WLoadOut(c, inn) := m.writer;
            var n, left := FreeRun(inn, m.s.tx.out), |c.data| - c.done;
            && n >= 0 && inn == m.s.tx.inn && (n == 0 ==> Len(m.s.tx.out, m.s.tx.inn) == N - 1)
            && WriterMove(m) == m.(writer := if n == 0 then WKick(c, m.s.tx.out)
                                             else WCopy(c, inn, if n > left then left else n, 0))
  {
    FreeRunIsSafe(m.writer.inn, m.s.tx.out);
  }

  lemma PublishMoves(m: Machine)
    requires Inv(m) && m.isr == Idle && m.writer.WCopy? && m.writer.k == m.writer.n
    ensures var tx, tx' := m.s.tx, WriterMove(m).s.tx;
            m.writer.n > 0 && Len(tx'.out, tx'.inn) == Len(tx.out, tx.inn) + m.writer.n
  {
    Publish(m.s.tx.buf, m.s.tx.out, m.s.tx.inn, m.writer.n);
  }

  lemma ReleaseMoves(m: Machine)
    requires Inv(m) && m.isr == Idle && m.reader.RCopy? && |m.reader.tmp| == m.reader.n
    ensures var rx, rx' := m.s.rx, ReaderMove(m).s.rx;
            m.reader.n > 0 && Len(rx'.out, rx'.inn) == Len(rx.out, rx.inn) - m.reader.n
  {
    Consume(m.s.rx.buf, m.s.rx.out, m.s.rx.inn, m.reader.n);
  }

  /** There is room in the transmit ring, and there was none. */
  predicate Drains(m: Machine, m': Machine)
    requires WellFormed(m) && WellFormed(m')
  {
    Len(m.s.tx.out, m.s.tx.inn) == N - 1 && Len(m'.s.tx.out, m'.s.tx.inn) < N - 1
  }

  lemma SpinsWhileFull(alarmStarted: bool, acts: seq<Action>)
    ensures var m := After(alarmStarted, acts);
            && m.s.host.timeout > 0 && Len(m.s.tx.out, m.s.tx.inn) <= N - 1
            && |TxRing(m.s.tx)| == Len(m.s.tx.out, m.s.tx.inn)
            && (m.writer.WSpin? ==> (m.writer.out == m.s.tx.out <==> Len(m.s.tx.out, m.s.tx.inn) == N - 1))
  {
    SpinTestsAreExact(alarmStarted, acts);
    TimeoutStaysInRange(Boot(alarmStarted), acts, alarmStarted);
  }

  lemma SpinsAtOut(alarmStarted: bool, acts: seq<Action>)
    ensures var m := After(alarmStarted, acts);
            m.reader.RSpin? ==> m.reader.inn == m.s.rx.out
  {
    Reached(alarmStarted, acts);
  }

  class JtagUart {
    // the driver's state structure
    const rxBuf: array<Byte>
    const txBuf: array<Byte>
    var rxIn: nat
    var rxOut: nat
    var txIn: nat
    var txOut: nat
    var irqRe: bool
    var irqWe: bool
    var timeout: nat
    var hostInactive: nat
    // the device
    var re: bool
    var we: bool
    var ac: bool
    var rxFifo: seq<Byte>
    var txFifo: seq<Byte>
    const alarmStarted: bool  // the alarm for the presence check could be started
    // the machine that this execution follows, and the run it has made so far
    ghost var run: seq<Action>
    ghost var m: Machine

    ghost predicate RxCoupled()
      reads this, rxBuf
    {
      m.s.rx.buf == rxBuf[..] && m.s.rx.inn == rxIn && m.s.rx.out == rxOut && m.s.rx.fifo == rxFifo
    }

    ghost predicate TxCoupled()
      reads this, txBuf
    {
      m.s.tx.buf == txBuf[..] && m.s.tx.inn == txIn && m.s.tx.out == txOut && m.s.tx.fifo == txFifo
    }

    ghost predicate Coupled()
      reads this, rxBuf, txBuf
    {
      && RxCoupled() && TxCoupled()
      && m.s.ctl == Control(irqRe, irqWe, re, we, ac)
      && m.s.host.timeout == timeout && m.s.host.hostInactive == hostInactive
      && m.s.host.alarm == alarmStarted
    }

    /** `m` is where the run `run` leads from start-up. */
    ghost predicate Following()
      reads this
    {
      m == Exec(Boot(alarmStarted), run)
    }

    /** At some point of the run from `from` on, the host counted as gone. */
    ghost predicate SeenGone(from: nat)
      reads this
    {
      exists k | from <= k <= |run| :: !Connected(After(alarmStarted, run[..k]).s.host)
    }

    ghost predicate Valid()
      reads this, rxBuf, txBuf
    {
      rxBuf != txBuf && rxBuf.Length == N == txBuf.Length && Following() && Coupled()
    }

    constructor (started: bool)
      ensures Valid() && fresh(rxBuf) && fresh(txBuf)
      ensures alarmStarted == started && m == Boot(started) && run == []
      ensures rxIn == rxOut == txIn == txOut == hostInactive == 0 && rxFifo == txFifo == []
      ensures irqRe && re && !irqWe && !we && !ac && timeout == if started then 10 else 0x7FFF_FFFF
    {
      rxBuf := new Byte[N](i => 0);
      txBuf := new Byte[N](i => 0);
      rxIn, rxOut, txIn, txOut := 0, 0, 0, 0;
      irqRe, irqWe, re, we, ac := true, false, true, false, false;
      rxFifo, txFifo := [], [];
      hostInactive := 0;
      timeout := if started then DEFAULT_TIMEOUT else INT_MAX;
      alarmStarted := started;
      run := [];
      m := Boot(started);
      new;
      assert rxBuf[..] == seq(N, i => 0);
      assert txBuf[..] == seq(N, i => 0);
    }

    /** The machine makes the step `a`; the code beside it does the same for real. */
    ghost method Follow(a: Action)
      requires Following()
      modifies `m, `run
      ensures Following() && m == Step(old(m), a) && run == old(run) + [a]
    {
      ExecAppends(Boot(alarmStarted), run, a);
      m := Step(m, a);
      run := run + [a];
    }

    // ------------------------------------------------------------ the host

    /** The host sends, takes and touches the connection any number of times. */
    method Host()
      requires Valid()
      modifies this
      ensures Valid() && m.isr == old(m.isr) && Rank(m) == old(Rank(m)) && Rely(old(m), m) && old(run) <= run
    {
      var times: nat := *;
      while times > 0
        invariant Valid() && m.isr == old(m.isr) && Rank(m) == old(Rank(m)) && Rely(old(m), m) && old(run) <= run
      {
        HostOnce();
        times := times - 1;
      }
    }

    ghost method FollowHost(a: Action)
      requires Following() && (a.HostPush? || a.HostPop? || a.HostActivity?)
      modifies `m, `run
      ensures Following() && m == Step(old(m), a)
      ensures m.isr == old(m.isr) && Rank(m) == old(Rank(m)) && Rely(old(m), m) && old(run) <= run
    {
      Reached(alarmStarted, run);
      OthersRely(m, a);
      Follow(a);
    }

    method HostOnce()
      requires Valid()
      modifies this
      ensures Valid() && m.isr == old(m.isr) && Rank(m) == old(Rank(m)) && Rely(old(m), m) && old(run) <= run
    {
      hide Rely, Rank, Exec;
      var what: int, b: Byte := *, *;
      if what == 0 {
        FollowHost(HostPush(b));
        if |rxFifo| < RX_DEPTH { rxFifo := rxFifo + [b]; }
      } else if what == 1 {
        FollowHost(HostPop);
        if txFifo != [] { txFifo := txFifo[1..]; }
      } else {
        FollowHost(HostActivity);
        ac := true;
      }
    }

    // ------------------------------------------------------------ the interrupt routine

    /** A step of the routine costs some of its rank and disturbs neither caller. */
    ghost method FollowIsr(ri: bool, wi: bool)
      requires Following() && IsrMoves(m, IsrStep(ri, wi))
      modifies `m, `run
      ensures Following() && m == IsrMove(old(m), ri, wi)
      ensures Rank(m) < old(Rank(m)) && Rely(old(m), m) && old(run) <= run
    {
      Reached(alarmStarted, run);
      EachIsrStepCounts(m, IsrStep(ri, wi));
      OthersRely(m, IsrStep(ri, wi));
      Follow(IsrStep(ri, wi));
    }

    /** IORD of the control register. */
    method ReadControl() returns (ri: bool, wi: bool, space: nat)
      requires Valid()
      ensures MayReport(m.s, ri, wi) && space == Room(m.s.tx)
    {
      ri, wi := *, *;
      ri := ri && re && rxFifo != [];
      wi := wi && we && |txFifo| < TX_DEPTH;
      space := if |txFifo| < TX_DEPTH then TX_DEPTH - |txFifo| else 0;
    }

    /** Try to move one byte from the device to the ring. */
    method RxOnce(ghost wi: bool, ghost space: nat, was: bool) returns (ravail: bool, go: bool)
      requires Valid() && m.isr == RxLoop(wi, space, was)
      modifies this, rxBuf
      ensures Valid() && m.isr == if go then RxLoop(wi, space, ravail) else RxDone(wi, space, ravail)
      ensures Rank(m) < old(Rank(m)) && Rely(old(m), m) && old(run) <= run
    {
      hide Rely, Rank, Exec;
      ravail, go := was, true;
      FollowIsr(false, false);
      var next := (rxIn + 1) % N;
      if next == rxOut {
        go := false;
      } else if rxFifo == [] {
        ravail, go := false, false;
      } else {
        var data := rxFifo[0];
        rxFifo := rxFifo[1..];
        ravail := rxFifo != [];
        rxBuf[rxIn] := data;
        rxIn := (rxIn + 1) % N;
      }
    }

    method RxEnd(ghost wi: bool, ghost space: nat, ravail: bool)
      requires Valid() && m.isr == RxDone(wi, space, ravail)
      modifies this
      ensures Valid() && m.isr == (if wi then TxLoop(space) else Top)
      ensures Rank(m) < old(Rank(m)) && Rely(old(m), m) && old(run) <= run
    {
      hide Rely, Rank, Exec;
      FollowIsr(false, false);
      if ravail {
        irqRe := false;
        re, we := irqRe, irqWe;
      }
    }

    /** The receive half of a pass: fill the ring, and if the device still has bytes
        then the ring is full, so turn receive interrupts off. */
    method IrqReceive(ghost wi: bool, ghost space: nat)
      requires Valid() && m.isr == RxLoop(wi, space, true)
      modifies this, rxBuf
      ensures Valid() && m.isr == (if wi then TxLoop(space) else Top)
      ensures Rank(m) < old(Rank(m)) && Rely(old(m), m) && old(run) <= run
    {
      var ravail, go := true, true;
      while go
        invariant Valid() && Rely(old(m), m) && old(run) <= run
        invariant m.isr == if go then RxLoop(wi, space, ravail) else RxDone(wi, space, ravail)
        invariant Rank(m) <= old(Rank(m))
        decreases Rank(m)
      {
        Host();
        ravail, go := RxOnce(wi, space, ravail);
      }
      Host();
      RxEnd(wi, space, ravail);
    }

    /** Move one byte from the ring to the device. */
    method TxOnce(ghost space: nat)
      requires Valid() && m.isr == TxLoop(space) && space > 0 && txOut != txIn
      modifies this
      ensures Valid() && m.isr == TxLoop(space - 1)
      ensures Rank(m) < old(Rank(m)) && Rely(old(m), m) && old(run) <= run
    {
      hide Rely, Rank, Exec;
      FollowIsr(false, false);
      txFifo := txFifo + [txBuf[txOut]];
      txOut := (txOut + 1) % N;
    }

    ghost method FollowTxDone(space: nat)
      requires Following() && m.isr == TxLoop(space) && (space == 0 || m.s.tx.out == m.s.tx.inn)
      modifies `m, `run
      ensures Following() && m == old(m).(isr := TxDone(space))
      ensures Rank(m) < old(Rank(m)) && Rely(old(m), m) && old(run) <= run
    {
      FollowIsr(false, false);
    }

    method TxEnd(space: nat)
      requires Valid() && m.isr == TxDone(space)
      modifies this
      ensures Valid() && m.isr == Top
      ensures Rank(m) < old(Rank(m)) && Rely(old(m), m) && old(run) <= run
    {
      hide Rely, Rank, Exec;
      FollowIsr(false, false);
      if space > 0 {
        irqWe := false;
        re, we := irqRe, irqWe;
      }
    }

    /** The transmit half of a pass: send while the device has room, and if room is left
        over then the ring is empty, so turn transmit interrupts off. */
    method IrqTransmit(room: nat)
      requires Valid() && m.isr == TxLoop(room)
      modifies this
      ensures Valid() && m.isr == Top
      ensures Rank(m) < old(Rank(m)) && Rely(old(m), m) && old(run) <= run
    {
      hide Exec, Window, IsrMove, Rank;
      var space := room;
      Host();
      while space > 0 && txOut != txIn
        invariant Valid() && Rely(old(m), m) && old(run) <= run && m.isr == TxLoop(space)
        invariant Rank(m) <= old(Rank(m))
        decreases Rank(m)
      {
        TxOnce(space);
        space := space - 1;
        Host();
      }
      FollowTxDone(space);
      Host();
      TxEnd(space);
    }

    /** The reading of the control register that begins a pass. */
    method IrqTop() returns (ri: bool, wi: bool, space: nat)
      requires Valid() && m.isr == Top
      modifies this
      ensures Valid() && Rely(old(m), m) && old(run) <= run && Rank(m) < old(Rank(m))
      ensures m.isr == if ri then RxLoop(wi, space, true) else if wi then TxLoop(space) else Idle
    {
      hide Exec, Window;
      Host();
      ri, wi, space := ReadControl();
      FollowIsr(ri, wi);
    }

    /** `altera_avalon_jtag_uart_irq`, from its first line. It ends, although its loop has
        no bound of its own and the host keeps sending and taking. */
    method Irq()
      requires Valid() && m.isr == Top
      modifies this, rxBuf
      ensures Valid() && m.isr == Idle && Rely(old(m), m) && old(run) <= run
    {
      hide Exec, Window, IsrMove, Rank;
      var go := true;
      while go
        invariant Valid() && Rely(old(m), m) && old(run) <= run
        invariant m.isr == if go then Top else Idle
        decreases Rank(m)
      {
        var ri, wi, space := IrqTop();
        if !ri && !wi {
          go := false;
        } else {
          if ri { IrqReceive(wi, space); }
          if wi { IrqTransmit(space); }
        }
      }
    }

    // ------------------------------------------------------------ the presence check

    ghost method FollowTick()
      requires Following() && m.isr == Idle
      modifies `m, `run
      ensures Following() && m == Step(old(m), Main(Tick)) && Rely(old(m), m) && old(run) <= run
    {
      Reached(alarmStarted, run);
      OthersRely(m, Main(Tick));
      Follow(Main(Tick));
    }

    /** `altera_avalon_jtag_uart_timeout`, run from the timer interrupt. */
    method Timeout()
      requires Valid() && m.isr == Idle && alarmStarted
      modifies this
      ensures Valid() && m.isr == Idle && Rely(old(m), m) && old(run) <= run
      ensures m == Step(old(m), Main(Tick))
      ensures !ac && hostInactive == if old(ac) then 0
                                     else if old(hostInactive) < 0x7FFF_FFFD then old(hostInactive) + 1
                                     else old(hostInactive)
    {
      hide Rely, Exec, IsrMove, WriterMove, ReaderMove;
      FollowTick();
      if ac {
        ac := false;
        re, we := irqRe, irqWe;
        hostInactive := 0;
      } else if hostInactive < INT_MAX - 2 {
        hostInactive := hostInactive + 1;
      }
    }

    ghost method FollowRaise(ri: bool, wi: bool)
      requires Following() && m.isr == Idle && MayReport(m.s, ri, wi) && (ri || wi)
      modifies `m, `run
      ensures Following() && m == old(m).(isr := Top) && Rely(old(m), m) && old(run) <= run
    {
      Reached(alarmStarted, run);
      OthersRely(m, IsrStep(ri, wi));
      Follow(IsrStep(ri, wi));
    }

    /** An interrupt is taken if the device raises one. */
    method Interrupt()
      requires Valid() && m.isr == Idle
      modifies this, rxBuf
      ensures Valid() && m.isr == Idle && Rely(old(m), m) && old(run) <= run
    {
      hide Exec, Window, IsrMove;
      var ri, wi, _ := ReadControl();
      if ri || wi {
        FollowRaise(ri, wi);
        Irq();
      }
    }

    /** Whatever can happen between two steps of a caller: host traffic, receive and
        transmit interrupts and timer interrupts, any number of each in any order. */
    method Preempt()
      requires Valid() && m.isr == Idle
      modifies this, rxBuf
      ensures Valid() && m.isr == Idle && Rely(old(m), m) && old(run) <= run
    {
      var times: nat := *;
      while times > 0
        invariant Valid() && m.isr == Idle && Rely(old(m), m) && old(run) <= run
      {
        var what: int := *;
        if what == 0 {
          HostOnce();
        } else if what == 1 && alarmStarted {
          Timeout();
        } else {
          Interrupt();
        }
        times := times - 1;
      }
    }

    // ------------------------------------------------------------ write

    method CopyInByte(data: seq<Byte>, ptr: nat, inn: nat, n: nat, k: nat, ghost c: WriteCall)
      requires Valid() && m.isr == Idle && c.data == data && c.done == ptr
      requires k < n && m.writer == WCopy(c, inn, n, k)
      modifies this, txBuf
      ensures Valid() && m.isr == Idle && m.writer == WCopy(c, inn, n, k + 1)
      ensures m.reader == old(m.reader) && m.s.rx == old(m.s.rx)
      ensures m.s.tx.out == old(m.s.tx.out) && m.s.tx.inn == old(m.s.tx.inn)
    {
      Follow(Main(WriterStep));
      txBuf[inn + k] := data[ptr + k];
    }

    ghost method FollowPublish()
      requires Following() && m.isr == Idle && m.writer.WCopy? && m.writer.k == m.writer.n
      modifies `m, `run
      ensures Following() && m == WriterMove(old(m)) && old(m.writer.n) > 0
      ensures Len(m.s.tx.out, m.s.tx.inn) == old(Len(m.s.tx.out, m.s.tx.inn) + m.writer.n)
    {
      Reached(alarmStarted, run);
      PublishMoves(m);
      Follow(Main(WriterStep));
    }

    method PublishIn(ptr: nat, inn: nat, n: nat, ghost c: WriteCall)
      requires Valid() && m.isr == Idle && c.done == ptr
      requires m.writer == WCopy(c, inn, n, n)
      modifies this
      ensures Valid() && m.isr == Idle && m.writer == WLoadIn(c.(done := ptr + n)) && n > 0
      ensures m.reader == old(m.reader) && m.s.rx == old(m.s.rx)
      ensures Len(m.s.tx.out, m.s.tx.inn) == old(Len(m.s.tx.out, m.s.tx.inn)) + n
    {
      hide Exec;
      FollowPublish();
      txIn := (inn + n) % N;
    }

    /** Copy `n` bytes of `data` from `ptr` to the ring at `inn`, then publish them. */
    method CopyIn(data: seq<Byte>, ptr: nat, inn: nat, n: nat, ghost c: WriteCall)
      requires Valid() && m.isr == Idle && c.data == data && c.done == ptr
      requires m.writer == WCopy(c, inn, n, 0)
      modifies this, rxBuf, txBuf
      ensures Valid() && m.isr == Idle && m.writer == WLoadIn(c.(done := ptr + n)) && n > 0
      ensures m.reader == old(m.reader) && m.s.rx.delivered == old(m.s.rx.delivered)
      ensures Len(m.s.tx.out, m.s.tx.inn) <= old(Len(m.s.tx.out, m.s.tx.inn)) + n
    {
      var k := 0;
      while k < n
        invariant Valid() && m.isr == Idle && m.writer == WCopy(c, inn, n, k) && k <= n
        invariant m.reader == old(m.reader) && m.s.rx.delivered == old(m.s.rx.delivered)
        invariant Len(m.s.tx.out, m.s.tx.inn) <= old(Len(m.s.tx.out, m.s.tx.inn))
      {
        Preempt();
        CopyInByte(data, ptr, inn, n, k, c);
        k := k + 1;
      }
      Preempt();
      PublishIn(ptr, inn, n, c);
    }

    /** The copy loop of write: it goes on until all is in or the ring is full. */
    method Fill(data: seq<Byte>, start: nat, ghost c: WriteCall) returns (ptr: nat, out: nat)
      requires Valid() && m.isr == Idle && c.data == data && c.done == start
      requires m.writer == WLoadIn(c)
      modifies this, rxBuf, txBuf
      ensures Valid() && m.isr == Idle && start <= ptr <= |data| && m.writer == WKick(c.(done := ptr), out)
      ensures m.s.tx.accepted == c.base + data[..ptr]
      ensures m.reader == old(m.reader) && m.s.rx.delivered == old(m.s.rx.delivered)
      ensures Len(m.s.tx.out, m.s.tx.inn) <= old(Len(m.s.tx.out, m.s.tx.inn)) + (ptr - start)
      ensures ptr < |data| ==> ptr - start >= old(Free(m.s.tx.out, m.s.tx.inn))
    {
      ptr, out := start, 0;
      var go := true;
      while go
        invariant Valid() && m.isr == Idle && start <= ptr <= |data|
        invariant m.writer == if go then WLoadIn(c.(done := ptr)) else WKick(c.(done := ptr), out)
        invariant m.reader == old(m.reader) && m.s.rx.delivered == old(m.s.rx.delivered)
        invariant Len(m.s.tx.out, m.s.tx.inn) <= old(Len(m.s.tx.out, m.s.tx.inn)) + (ptr - start)
        invariant !go && ptr < |data| ==> Len(m.s.tx.out, m.s.tx.inn) == N - 1
        decreases |data| - ptr, go
      {
        ptr, out, go := FillOnce(data, ptr, c.(done := ptr));
      }
      CallsMoveWhatTheyCount(alarmStarted, run);
    }

    /** The two loads, with whatever happens between them, and the segment they give. */
    method LoadIndices(data: seq<Byte>, ptr: nat, ghost c: WriteCall) returns (inn: nat, out: nat, n: nat)
      requires Valid() && m.isr == Idle && c.data == data && c.done == ptr < |data|
      requires m.writer == WLoadIn(c)
      modifies this, rxBuf
      ensures Valid() && m.isr == Idle
      ensures m.writer == if n == 0 then WKick(c, out) else WCopy(c, inn, n, 0)
      ensures ptr + n <= |data| && (n == 0 ==> Len(m.s.tx.out, m.s.tx.inn) == N - 1)
      ensures m.reader == old(m.reader) && m.s.rx.delivered == old(m.s.rx.delivered)
      ensures Len(m.s.tx.out, m.s.tx.inn) <= old(Len(m.s.tx.out, m.s.tx.inn))
    {
      hide Exec, Window, Live, IsrMove, ReaderMove, WriterMove;
      inn := txIn;
      LoadInMoves(m);
      Follow(Main(WriterStep));
      Preempt();
      out := txOut;
      Reached(alarmStarted, run);
      LoadOutMoves(m);
      Follow(Main(WriterStep));
      n := if inn < out then out - 1 - inn else if out > 0 then N - inn else N - 1 - inn;
      if n > |data| - ptr { n := |data| - ptr; }
    }

    method FillOnce(data: seq<Byte>, start: nat, ghost c: WriteCall) returns (ptr: nat, out: nat, go: bool)
      requires Valid() && m.isr == Idle && c.data == data && c.done == start
      requires m.writer == WLoadIn(c)
      modifies this, rxBuf, txBuf
      ensures Valid() && m.isr == Idle
      ensures if go then start < ptr <= |data| && m.writer == WLoadIn(c.(done := ptr))
              else ptr == start && m.writer == WKick(c, out)
                   && (ptr < |data| ==> Len(m.s.tx.out, m.s.tx.inn) == N - 1)
      ensures m.reader == old(m.reader) && m.s.rx.delivered == old(m.s.rx.delivered)
      ensures Len(m.s.tx.out, m.s.tx.inn) <= old(Len(m.s.tx.out, m.s.tx.inn)) + (ptr - start)
    {
      ptr, out, go := start, txOut, false;
      if start < |data| {
        var inn, n;
        Preempt();
        inn, out, n := LoadIndices(data, start, c);
        if n != 0 {
          CopyIn(data, start, inn, n, c);
          ptr, go := start + n, true;
        }
      } else {
        Follow(Main(WriterStep));
      }
    }

    /** The enable section, with interrupts off. */
    method Kick(ghost c: WriteCall, ghost out: nat)
      requires Valid() && m.isr == Idle && m.writer == WKick(c, out)
      modifies this
      ensures Valid() && m.isr == Idle && m.s.rx == old(m.s.rx) && m.s.tx == old(m.s.tx) && m.reader == old(m.reader)
      ensures m.writer == (if c.done == |c.data| || c.nonblock then WIdle else WSpin(c, out)) && m.s.ctl.we
    {
      hide Rely, Exec;
      Follow(Main(WriterStep));
      irqWe := true;
      re, we := irqRe, irqWe;
    }

    /** The check of the host after the busy-wait, with whatever happens between the two. The
        writer goes on from it only to find room, or after somebody else had a turn. */
    method CheckHost(ghost c: WriteCall, ghost out: nat, patience: nat) returns (left: nat, again: bool)
      requires Valid() && m.isr == Idle && m.writer == WSpin(c, out)
      requires !(out == txOut && hostInactive < timeout)
      modifies this, rxBuf
      ensures Valid() && m.isr == Idle && m.reader == old(m.reader) && left <= patience
      ensures m.s.rx.delivered == old(m.s.rx.delivered) && m.s.tx.accepted == old(m.s.tx.accepted)
      ensures Len(m.s.tx.out, m.s.tx.inn) <= old(Len(m.s.tx.out, m.s.tx.inn))
      ensures if again then m.writer == WLoadIn(c) else m.writer == WIdle && m.s.host.hostInactive != 0
      ensures again ==> left < patience || Len(m.s.tx.out, m.s.tx.inn) < N - 1
    {
      hide Exec, Window, IsrMove, ReaderMove;
      left := patience;
      SpinsWhileFull(alarmStarted, run);
      Follow(Main(WriterStep));
      if left > 0 {
        left := left - 1;
        Preempt();
      }
      again := hostInactive == 0;
      Follow(Main(WriterStep));
    }

    /** The busy-wait for room (lines 183 and 184), with the check of the host after it. When
        `patience` runs out it gives up the watch, not the wait: the ring is full then and the
        host counts as present. */
    method AwaitRoom(ghost c: WriteCall, out: nat, patience: nat)
        returns (left: nat, awaited: bool, again: bool)
      requires Valid() && m.isr == Idle && m.writer == WSpin(c, out)
      modifies this, rxBuf
      ensures Valid() && m.isr == Idle && m.reader == old(m.reader) && left <= patience
      ensures m.s.rx.delivered == old(m.s.rx.delivered) && m.s.tx.accepted == old(m.s.tx.accepted)
      ensures Len(m.s.tx.out, m.s.tx.inn) <= old(Len(m.s.tx.out, m.s.tx.inn))
      ensures !awaited ==> m.writer == WSpin(c, out) && |TxRing(m.s.tx)| == N - 1 && Connected(m.s.host)
      ensures awaited ==> if again then m.writer == WLoadIn(c) else m.writer == WIdle && m.s.host.hostInactive != 0
      ensures awaited && again ==> left < patience || Len(m.s.tx.out, m.s.tx.inn) < N - 1
    {
      left, awaited, again := patience, true, false;
      while out == txOut && hostInactive < timeout
        invariant Valid() && m.isr == Idle && m.writer == WSpin(c, out) && left <= patience
        invariant Rely(old(m), m) && old(run) <= run
        decreases left
      {
        if left == 0 {
          SpinsWhileFull(alarmStarted, run);
          awaited := false;
          return;
        }
        left := left - 1;
        Preempt();
      }
      left, again := CheckHost(c, out, left);
    }

    /** One turn of the outer loop: fill, kick, and wait for room if there is data left. */
    method WriteOnce(data: seq<Byte>, start: nat, nonblock: bool, ghost c: WriteCall, patience: nat)
        returns (ptr: nat, left: nat, awaited: bool, go: bool)
      requires Valid() && m.isr == Idle && m.writer == WLoadIn(c)
      requires c.data == data && c.done == start && c.nonblock == nonblock
      modifies this, rxBuf, txBuf
      ensures Valid() && m.isr == Idle && m.reader == old(m.reader) && start <= ptr <= |data|
      ensures m.s.rx.delivered == old(m.s.rx.delivered) && m.s.tx.accepted == c.base + data[..ptr]
      ensures Len(m.s.tx.out, m.s.tx.inn) <= old(Len(m.s.tx.out, m.s.tx.inn)) + (ptr - start)
      ensures ptr < |data| ==> ptr - start >= old(Free(m.s.tx.out, m.s.tx.inn))
      ensures left <= patience
      ensures !awaited ==> m.writer.WSpin? && m.writer.w.data == data && !nonblock && ptr < |data|
      ensures !awaited ==> |TxRing(m.s.tx)| == N - 1 && Connected(m.s.host)
      ensures awaited && go ==> m.writer == WLoadIn(c.(done := ptr))
      ensures awaited && go ==> ptr > start || left < patience || Drains(old(m), m)
      ensures awaited && !go ==> m.writer == WIdle && (m.s.ctl.we || m.s.tx.inn == m.s.tx.out)
      ensures awaited && !go && ptr < |data| ==> nonblock || m.s.host.hostInactive != 0
    {
      hide Exec, Window, Live, WriterMove, ReaderMove, IsrMove, RxShape;
      left, awaited, go := patience, true, false;
      var out;
      ptr, out := Fill(data, start, c);
      Preempt();
      Kick(c.(done := ptr), out);
      if ptr < |data| && !nonblock {
        left, awaited, go := AwaitRoom(c.(done := ptr), out, patience);
      }
      NoLostWakeUp(alarmStarted, run);
    }

    /** `altera_avalon_jtag_uart_write`. A blocking call that comes back has taken everything
        if there was room for it, or if there is no presence check. */
    method Write(data: seq<Byte>, nonblock: bool) returns (r: Outcome)
      requires Valid() && m.isr == Idle && m.writer == WIdle
      modifies this, rxBuf, txBuf
      ensures Valid() && m.isr == Idle && m.reader == old(m.reader)
      ensures m.s.rx.delivered == old(m.s.rx.delivered)
      ensures r.Returned? ==> m.writer == WIdle && WriteResult(old(m), m, data, nonblock, r.value)
      ensures r.Returned? && !nonblock && (|data| <= old(Free(m.s.tx.out, m.s.tx.inn)) || !alarmStarted) ==>
                r.value == if data == [] then -EIO else |data|
      ensures r.StillWaiting? ==> m.writer.WSpin? && m.writer.w.data == data && !nonblock
      ensures r.StillWaiting? ==> |TxRing(m.s.tx)| == N - 1 && Connected(m.s.host)
    {
      hide Exec, Window, Live, WriterMove, ReaderMove, IsrMove, RxShape;
      ghost var c := WriteCall(data, 0, m.s.tx.accepted, nonblock);
      Follow(Main(CallWrite(data, nonblock)));
      var ptr, patience: nat := 0, *;
      var go := true;
      while go
        invariant Valid() && m.isr == Idle && m.reader == old(m.reader) && ptr <= |data|
        invariant m.s.rx.delivered == old(m.s.rx.delivered)
        invariant m.writer == if go then WLoadIn(c.(done := ptr)) else WIdle
        invariant Len(m.s.tx.out, m.s.tx.inn) <= old(Len(m.s.tx.out, m.s.tx.inn)) + ptr
        invariant !go ==> WriteEnds(old(m), m, data, nonblock, ptr)
        decreases go, |data| - ptr, patience, Len(m.s.tx.out, m.s.tx.inn) == N - 1
      {
        var awaited;
        ptr, patience, awaited, go := WriteOnce(data, ptr, nonblock, c.(done := ptr), patience);
        if !awaited { return StillWaiting; }
      }
      PresenceIsExact(alarmStarted, run);
      r := Returned(if ptr != 0 then ptr else if nonblock then -EWOULDBLOCK else -EIO);
    }

    // ------------------------------------------------------------ read

    method CopyOutByte(out: nat, n: nat, got: seq<Byte>, ghost c: ReadCall, ghost inn: nat) returns (b: Byte)
      requires Valid() && m.isr == Idle && |got| < n
      requires m.reader == RCopy(c, inn, out, n, got)
      modifies `m, `run
      ensures Valid() && m.isr == Idle && m.reader == RCopy(c, inn, out, n, got + [b])
      ensures m.s == old(m.s) && m.writer == old(m.writer) && old(run) <= run
    {
      Follow(Main(ReaderStep));
      b := rxBuf[out + |got|];
    }

    ghost method FollowRelease(out: nat, n: nat, got: seq<Byte>, c: ReadCall, inn: nat)
      requires Following() && m.isr == Idle && |got| == n
      requires m.reader == RCopy(c, inn, out, n, got)
      modifies `m, `run
      ensures Following() && m == ReaderMove(old(m)) && n > 0 && old(run) <= run
      ensures Len(m.s.rx.out, m.s.rx.inn) == old(Len(m.s.rx.out, m.s.rx.inn)) - n
    {
      Reached(alarmStarted, run);
      ReleaseMoves(m);
      Follow(Main(ReaderStep));
    }

    /** Publish that `n` bytes have been taken. */
    method ReleaseOut(out: nat, n: nat, ghost got: seq<Byte>, ghost c: ReadCall, ghost inn: nat)
      requires Valid() && m.isr == Idle && |got| == n
      requires m.reader == RCopy(c, inn, out, n, got)
      modifies this
      ensures Valid() && m.isr == Idle && m.s.tx == old(m.s.tx) && m.writer == old(m.writer) && old(run) <= run
      ensures var c' := c.(got := c.got + got);
              m.reader == (if |c'.got| < c.space then RTop(c') else RAfter(c', inn)) && n > 0
      ensures Len(m.s.rx.out, m.s.rx.inn) == old(Len(m.s.rx.out, m.s.rx.inn)) - n
    {
      FollowRelease(out, n, got, c, inn);
      rxOut := (out + n) % N;
    }

    /** Copy `n` bytes from the ring at `out` to the caller, then publish that. */
    method CopyOut(out: nat, n: nat, ghost c: ReadCall, ghost inn: nat) returns (got: seq<Byte>)
      requires Valid() && m.isr == Idle && m.reader == RCopy(c, inn, out, n, [])
      modifies this, rxBuf
      ensures Valid() && m.isr == Idle && |got| == n > 0 && old(run) <= run
      ensures m.s.tx.accepted == old(m.s.tx.accepted) && m.writer == old(m.writer)
      ensures var c' := c.(got := c.got + got);
              m.reader == (if |c'.got| < c.space then RTop(c') else RAfter(c', inn))
      ensures Len(m.s.rx.out, m.s.rx.inn) >= old(Len(m.s.rx.out, m.s.rx.inn)) - n
    {
      got := [];
      while |got| < n
        invariant Valid() && m.isr == Idle && m.reader == RCopy(c, inn, out, n, got) && |got| <= n
        invariant old(run) <= run
        invariant m.s.tx.accepted == old(m.s.tx.accepted) && m.writer == old(m.writer)
        invariant Len(m.s.rx.out, m.s.rx.inn) >= old(Len(m.s.rx.out, m.s.rx.inn))
      {
        Preempt();
        var b := CopyOutByte(out, n, got, c, inn);
        got := got + [b];
      }
      Preempt();
      ReleaseOut(out, n, got, c, inn);
    }

    /** The two loads, with whatever happens between them, and the segment they give. */
    method LoadRxIndices(space: nat, ghost c: ReadCall) returns (inn: nat, out: nat, n: nat)
      requires Valid() && m.isr == Idle && c.space == |c.got| + space && space > 0
      requires m.reader == RTop(c)
      modifies this, rxBuf
      ensures Valid() && m.isr == Idle && old(run) <= run
      ensures m.reader == if n == 0 then RAfter(c, inn) else RCopy(c, inn, out, n, [])
      ensures n <= space && (n == 0 ==> inn == m.s.rx.out && old(Len(m.s.rx.out, m.s.rx.inn)) == 0)
      ensures m.s.tx.accepted == old(m.s.tx.accepted) && m.writer == old(m.writer)
      ensures Len(m.s.rx.out, m.s.rx.inn) >= old(Len(m.s.rx.out, m.s.rx.inn))
    {
      inn := rxIn;
      Follow(Main(ReaderStep));
      Preempt();
      out := rxOut;
      DataRunIsSafe(inn, out);
      Follow(Main(ReaderStep));
      n := if inn >= out then inn - out else N - out;
      if n > space { n := space; }
    }

    /** The inner loop of read: it goes on until the space is used or the ring is empty. */
    method Drain(space: nat, ghost c: ReadCall) returns (got: seq<Byte>, inn: nat)
      requires Valid() && m.isr == Idle && c.space == |c.got| + space && space > 0
      requires m.reader == RTop(c) && c.got == []
      modifies this, rxBuf
      ensures Valid() && m.isr == Idle && m.reader == RAfter(c.(got := got), inn) && |got| <= space && old(run) <= run
      ensures m.s.tx.accepted == old(m.s.tx.accepted) && m.writer == old(m.writer)
      ensures |got| == space || |got| >= old(Len(m.s.rx.out, m.s.rx.inn))
    {
      got, inn := [], 0;
      var go := true;
      while go
        invariant Valid() && m.isr == Idle && |got| <= space && (go ==> |got| < space) && old(run) <= run
        invariant m.reader == if go then RTop(c.(got := got)) else RAfter(c.(got := got), inn)
        invariant m.s.tx.accepted == old(m.s.tx.accepted) && m.writer == old(m.writer)
        invariant go ==> Len(m.s.rx.out, m.s.rx.inn) >= old(Len(m.s.rx.out, m.s.rx.inn)) - |got|
        invariant !go ==> |got| == space || |got| >= old(Len(m.s.rx.out, m.s.rx.inn))
        decreases space - |got|, go
      {
        var out, n;
        Preempt();
        inn, out, n := LoadRxIndices(space - |got|, c.(got := got));
        if n == 0 {
          go := false;
        } else {
          var more := CopyOut(out, n, c.(got := got), inn);
          got := got + more;
          go := |got| < space;
        }
      }
    }

    /** The enable section after the loop: RE is set if anything was read. */
    method LeaveRead(got: seq<Byte>, ghost c: ReadCall)
      requires Valid() && m.isr == Idle && m.reader == RExit(c) && c.got == got
      modifies this
      ensures Valid() && m.isr == Idle && m.reader == RIdle && m.writer == old(m.writer) && old(run) <= run
      ensures m.s.rx == old(m.s.rx) && m.s.tx == old(m.s.tx)
    {
      hide Rely, Exec;
      Follow(Main(ReaderStep));
      if got != [] {
        irqRe := true;
        re, we := irqRe, irqWe;
      }
    }

    /** The busy-wait for data, and the test of `in` after it. When `patience` runs out it gives
        up the watch, not the wait: the ring is empty then and the host counts as present. */
    method AwaitData(ghost c: ReadCall, inn: nat) returns (awaited: bool, again: bool)
      requires Valid() && m.isr == Idle && m.reader == RSpin(c, inn)
      modifies this, rxBuf
      ensures Valid() && m.isr == Idle && m.writer == old(m.writer) && old(run) <= run
      ensures m.s.rx.delivered == old(m.s.rx.delivered) && m.s.tx.accepted == old(m.s.tx.accepted)
      ensures Len(m.s.rx.out, m.s.rx.inn) >= old(Len(m.s.rx.out, m.s.rx.inn))
      ensures !awaited ==> m.reader == RSpin(c, inn) && RxRing(m.s.rx) == [] && Connected(m.s.host)
      ensures awaited ==> m.reader == if again then RTop(c) else RExit(c)
      ensures awaited && again ==> Len(m.s.rx.out, m.s.rx.inn) > 0
      ensures awaited && !again ==> m.s.rx.inn == m.s.rx.out && SeenGone(|old(run)|)
    {
      SpinsAtOut(alarmStarted, run);
      var patience: nat := *;
      while inn == rxIn && hostInactive < timeout
        invariant Valid() && m.isr == Idle && m.reader == RSpin(c, inn)
        invariant Rely(old(m), m) && old(run) <= run
        decreases patience
      {
        if patience == 0 { return false, false; }
        patience := patience - 1;
        Preempt();
      }
      awaited := true;
      again := CheckData(c, inn);
    }

    method CheckData(ghost c: ReadCall, inn: nat) returns (again: bool)
      requires Valid() && m.isr == Idle && m.reader == RSpin(c, inn)
      requires !(inn == rxIn && hostInactive < timeout)
      modifies this, rxBuf
      ensures Valid() && m.isr == Idle && m.writer == old(m.writer) && old(run) <= run
      ensures m.s.rx.delivered == old(m.s.rx.delivered) && m.s.tx.accepted == old(m.s.tx.accepted)
      ensures Len(m.s.rx.out, m.s.rx.inn) >= old(Len(m.s.rx.out, m.s.rx.inn))
      ensures m.reader == if again then RTop(c) else RExit(c)
      ensures (again <==> m.s.rx.inn != inn) && (!again ==> SeenGone(|old(run)|))
      ensures m.s.rx.out == old(m.s.rx.out)
    {
      hide Exec, Window, IsrMove, WriterMove;
      ghost var spun := run;
      SpinsAtOut(alarmStarted, run);
      Follow(Main(ReaderStep));
      Preempt();
      again := inn != rxIn;
      Follow(Main(ReaderStep));
      assert run[..|spun|] == spun;
    }

    /** One turn of the outer loop, with space to fill. */
    method ReadOnce(space: nat, nonblock: bool, ghost c: ReadCall)
        returns (got: seq<Byte>, awaited: bool, again: bool)
      requires Valid() && m.isr == Idle && m.reader == RTop(c)
      requires c.space == space > 0 && c.got == [] && c.nonblock == nonblock
      modifies this, rxBuf
      ensures Valid() && m.isr == Idle && m.writer == old(m.writer) && old(run) <= run
      ensures m.s.tx.accepted == old(m.s.tx.accepted)
      ensures !awaited ==> m.reader.RSpin? && got == [] && !nonblock
      ensures !awaited ==> RxRing(m.s.rx) == [] && Connected(m.s.host)
      ensures awaited && again ==> m.reader == RTop(c) && got == []
      ensures awaited && again ==> old(Len(m.s.rx.out, m.s.rx.inn)) == 0 < Len(m.s.rx.out, m.s.rx.inn)
      ensures awaited && !again ==> m.reader == RExit(c.(got := got)) && |got| <= space
      ensures |got| == space || |got| >= old(Len(m.s.rx.out, m.s.rx.inn))
      ensures awaited && !again && got == [] && !nonblock ==> m.s.rx.inn == m.s.rx.out && SeenGone(|old(run)|)
    {
      var inn;
      awaited, again := true, false;
      got, inn := Drain(space, c);
      Follow(Main(ReaderStep));
      if got == [] && !nonblock {
        awaited, again := AwaitData(c, inn);
      }
    }

    ghost method FollowCallRead(space: int, nonblock: bool, c: ReadCall)
      requires Following() && m.isr == Idle && m.reader == RIdle
      requires c == ReadCall(if space > 0 then space else 0, [], m.s.rx.delivered, nonblock)
      modifies `m, `run
      ensures Following() && m == old(m).(reader := RTop(c)) && old(run) <= run
    {
      Follow(Main(CallRead(space, nonblock)));
    }

    ghost method FollowNoSpace(c: ReadCall)
      requires Following() && m.isr == Idle && m.reader == RTop(c) && |c.got| == c.space
      modifies `m, `run
      ensures Following() && m == old(m).(reader := RExit(c)) && old(run) <= run
    {
      Follow(Main(ReaderStep));
    }

    /** `altera_avalon_jtag_uart_read`. A blocking call with space comes back with nothing
        only if the host counted as gone at some point of the call. */
    method Read(space: int, nonblock: bool) returns (got: seq<Byte>, r: Outcome)
      requires Valid() && m.isr == Idle && m.reader == RIdle
      modifies this, rxBuf
      ensures Valid() && m.isr == Idle && m.writer == old(m.writer) && old(run) <= run
      ensures m.s.tx.accepted == old(m.s.tx.accepted)
      ensures r.Returned? ==> m.reader == RIdle && ReadResult(old(m), m, space, nonblock, got, r.value)
      ensures r.Returned? && got == [] && space > 0 && !nonblock ==> SeenGone(|old(run)|)
      ensures r.StillWaiting? ==> m.reader.RSpin? && got == [] && space > 0 && !nonblock
      ensures r.StillWaiting? ==> RxRing(m.s.rx) == [] && Connected(m.s.host)
    {
      hide Exec, Window, Live, Step, TxShape, After, Connected;
      var room := if space > 0 then space else 0;
      ghost var c := ReadCall(room, [], m.s.rx.delivered, nonblock);
      FollowCallRead(space, nonblock, c);
      got := [];
      var go := true;
      while go && room > 0
        invariant Valid() && m.isr == Idle && m.writer == old(m.writer)
        invariant m.s.tx.accepted == old(m.s.tx.accepted) && old(run) <= run
        invariant m.reader == if go then RTop(c) else RExit(c.(got := got))
        invariant go ==> got == []
        invariant |got| <= room
        invariant go || |got| >= space || |got| >= old(Len(m.s.rx.out, m.s.rx.inn))
        invariant go ==> Len(m.s.rx.out, m.s.rx.inn) >= old(Len(m.s.rx.out, m.s.rx.inn))
        invariant !go && got == [] && !nonblock ==> m.s.rx.inn == m.s.rx.out && SeenGone(|old(run)|)
        decreases go, Len(m.s.rx.out, m.s.rx.inn) == 0
      {
        var awaited;
        got, awaited, go := ReadOnce(room, nonblock, c);
        if !awaited { return got, StillWaiting; }
      }
      if go {
        FollowNoSpace(c);
      }
      FinishRead(got, c.(got := got));
      r := Returned(if got != [] then |got| else if nonblock then -EWOULDBLOCK else -EIO);
    }

    method FinishRead(got: seq<Byte>, ghost c: ReadCall)
      requires Valid() && m.isr == Idle && m.reader == RExit(c) && c.got == got
      modifies this
      ensures Valid() && m.isr == Idle && m.reader == RIdle && m.writer == old(m.writer) && old(run) <= run
      ensures m.s.rx == old(m.s.rx) && m.s.tx == old(m.s.tx)
      ensures m.s.rx.delivered == c.base + got
      ensures m.s.ctl.re || Len(m.s.rx.out, m.s.rx.inn) == N - 1
      ensures forall from :: old(SeenGone(from)) ==> SeenGone(from)
    {
      ghost var was := run;
      CallsMoveWhatTheyCount(alarmStarted, run);
      LeaveRead(got, c);
      NoLostWakeUp(alarmStarted, run);
      assert forall k | 0 <= k <= |was| :: run[..k] == was[..k];
    }

    // ------------------------------------------------------------ ioctl and close

    /** `altera_avalon_jtag_uart_ioctl`. TIOCGCONNECTED answers whether there have been fewer
        than `timeout` quiet checks; with an INT_MAX timeout neither request is supported. */
    method Ioctl(req: Request, arg: int) returns (rc: int, answer: int)
      requires Valid() && m.isr == Idle
      modifies this
      ensures Valid() && m.isr == Idle && m.writer == old(m.writer) && m.reader == old(m.reader)
      ensures m.s.rx == old(m.s.rx) && m.s.tx == old(m.s.tx) && m.s.ctl == old(m.s.ctl)
      ensures m.s.host.hostInactive == old(m.s.host.hostInactive)
      ensures rc == 0 <==> req != Other && old(timeout) != INT_MAX
      ensures rc != 0 ==> rc == -ENOTTY && answer == arg && m.s.host == old(m.s.host)
      ensures rc == 0 && req == SetTimeoutReq ==>
                answer == arg && m.s.host.timeout == if 2 <= arg < INT_MAX then arg else INT_MAX - 1
      ensures rc == 0 && req == GetConnectedReq ==>
                m.s.host == old(m.s.host)
                && answer == if timeout >= INT_MAX - 1 || |QuietChecks(alarmStarted, run)| < timeout then 1 else 0
    {
      rc, answer := -ENOTTY, arg;
      match req
      case SetTimeoutReq =>
        if timeout != INT_MAX {
          Follow(Main(SetTimeout(arg)));
          timeout := if arg >= 2 && arg < INT_MAX then arg else INT_MAX - 1;
          rc := 0;
        }
      case GetConnectedReq =>
        if timeout != INT_MAX {
          PresenceIsExact(alarmStarted, run);
          answer := if hostInactive < timeout then 1 else 0;
          rc := 0;
        }
      case Other =>
    }

    /** `altera_avalon_jtag_uart_close`: comes back with 0 only once every byte in the ring
        has gone to the device, or with the host gone. */
    method Close(nonblock: bool) returns (r: Outcome)
      requires Valid() && m.isr == Idle
      modifies this, rxBuf
      ensures Valid() && m.isr == Idle && Rely(old(m), m) && old(run) <= run
      ensures r.Returned? ==> r.value == if Drained(m.s) then 0 else -EWOULDBLOCK
      ensures r.Returned? && r.value != 0 ==> nonblock
      ensures r.StillWaiting? ==> !nonblock && !Drained(m.s)
    {
      var patience: nat := *;
      while txOut != txIn && hostInactive < timeout
        invariant Valid() && m.isr == Idle && Rely(old(m), m) && old(run) <= run
        decreases patience
      {
        if nonblock { return Returned(-EWOULDBLOCK); }
        if patience == 0 { return StillWaiting; }
        patience := patience - 1;
        Preempt();
      }
      r := Returned(0);
    }
  }
}
