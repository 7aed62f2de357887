/** The interrupt-driven JTAG UART driver as a machine of atomic steps.

    Four parties share the state: the host at the far end of the cable, the
    interrupt routine, one writer and one reader. A step of the driver is one access
    to a device register or to a shared index; a `memcpy` is one step a byte. While
    the interrupt routine runs the writer and the reader stand still (there is one
    processor), but the host goes on at any time. */
module UartMachine {
  import opened Ring

  const RX_DEPTH: nat := 64
  const TX_DEPTH: nat := 64
  const INT_MAX: nat := 0x7FFF_FFFF
  const DEFAULT_TIMEOUT: nat := 10

  /** The receive side: `rx_buf`, `rx_in`, `rx_out`, the device's receive FIFO, and the
      history of what the host sent and what callers of read were given. */
  datatype Rx = Rx(buf: seq<Byte>, inn: nat, out: nat, fifo: seq<Byte>,
                   sent: seq<Byte>, delivered: seq<Byte>)

  /** The transmit side: `tx_buf`, `tx_in`, `tx_out`, the device's transmit FIFO, and the
      history of what callers of write had accepted and what the host received. */
  datatype Tx = Tx(buf: seq<Byte>, inn: nat, out: nat, fifo: seq<Byte>,
                   accepted: seq<Byte>, received: seq<Byte>)

  /** The driver's shadow `irq_enable` and the device's RE, WE and AC bits. */
  datatype Control = Control(irqRe: bool, irqWe: bool, re: bool, we: bool, ac: bool)

  /** Host presence. `alarm` says that the alarm for the check could be started. */
  datatype Presence = Presence(alarm: bool, timeout: nat, hostInactive: nat)

  datatype Shared = Shared(rx: Rx, tx: Tx, ctl: Control, host: Presence)

  /** Where the interrupt routine is. `wi` and `space` come from its reading of the
      control register, `ravail` from its last reading of the data register. */
  datatype Isr =
    | Idle
    | Top
    | RxLoop(wi: bool, space: nat, ravail: bool)
    | RxDone(wi: bool, space: nat, ravail: bool)
    | TxLoop(space: nat)
    | TxDone(space: nat)

  /** One call of write: `done` bytes of `data` are published, after `base`. */
  datatype WriteCall = WriteCall(data: seq<Byte>, done: nat, base: seq<Byte>, nonblock: bool)

  datatype Writer =
    | WIdle
    | WLoadIn(w: WriteCall)
    | WLoadOut(w: WriteCall, inn: nat)
    | WCopy(w: WriteCall, inn: nat, n: nat, k: nat)
    | WKick(w: WriteCall, out: nat)
    | WSpin(w: WriteCall, out: nat)
    | WCheck(w: WriteCall)

  /** One call of read: `got` was delivered, after `base`. */
  datatype ReadCall = ReadCall(space: nat, got: seq<Byte>, base: seq<Byte>, nonblock: bool)

  datatype Reader =
    | RIdle
    | RTop(r: ReadCall)
    | RLoadOut(r: ReadCall, inn: nat)
    | RCopy(r: ReadCall, inn: nat, out: nat, n: nat, tmp: seq<Byte>)
    | RAfter(r: ReadCall, inn: nat)
    | RSpin(r: ReadCall, inn: nat)
    | RCheck(r: ReadCall, inn: nat)
    | RExit(r: ReadCall)

  datatype Machine = Machine(s: Shared, isr: Isr, writer: Writer, reader: Reader)

  /** What the processor can do outside the interrupt routine. */
  datatype MainAction =
    | Tick
    | CallWrite(data: seq<Byte>, nonblock: bool)
    | WriterStep
    | CallRead(space: int, nonblock: bool)
    | ReaderStep
    | SetTimeout(arg: int)

  datatype Action =
    | HostPush(b: Byte)
    | HostPop
    | HostActivity
    | IsrStep(ri: bool, wi: bool)
    | Main(t: MainAction)

  function Boot(alarmStarted: bool): (m: Machine)
    ensures WellFormed(m)
  {
    var zero := seq(N, i => 0);
    Machine(Shared(Rx(zero, 0, 0, [], [], []),
                   Tx(zero, 0, 0, [], [], []),
                   Control(true, false, true, false, false),
                   Presence(alarmStarted, if alarmStarted then DEFAULT_TIMEOUT else INT_MAX, 0)),
            Idle, WIdle, RIdle)
  }

  // ---------------------------------------------------------------- bounds

  predicate RxShape(rx: Rx) {
    |rx.buf| == N && Index(rx.inn) && Index(rx.out)
  }

  predicate TxShape(tx: Tx) {
    |tx.buf| == N && Index(tx.inn) && Index(tx.out)
  }

  predicate WriterBounds(w: Writer) {
    match w
    case WIdle => true
    case WLoadIn(c) => c.done <= |c.data|
    case WLoadOut(c, inn) => c.done < |c.data| && Index(inn)
    case WCopy(c, inn, n, k) => c.done + n <= |c.data| && Index(inn) && inn + n <= N && k <= n
    case WKick(c, out) => c.done <= |c.data|
    case WSpin(c, out) => c.done < |c.data|
    case WCheck(c) => c.done < |c.data|
  }

  predicate ReaderBounds(r: Reader) {
    match r
    case RIdle => true
    case RTop(c) => |c.got| <= c.space
    case RLoadOut(c, inn) => |c.got| < c.space && Index(inn)
    case RCopy(c, inn, out, n, tmp) =>
      |c.got| + n <= c.space && Index(out) && out + n <= N && |tmp| <= n
    case RAfter(c, _) => |c.got| <= c.space
    case RSpin(c, _) => |c.got| <= c.space
    case RCheck(c, _) => |c.got| <= c.space
    case RExit(c) => |c.got| <= c.space
  }

  predicate WellFormed(m: Machine) {
    RxShape(m.s.rx) && TxShape(m.s.tx) && WriterBounds(m.writer) && ReaderBounds(m.reader)
  }

  // ---------------------------------------------------------------- the host

  function HostSends(rx: Rx, b: Byte): Rx {
    if |rx.fifo| < RX_DEPTH then rx.(fifo := rx.fifo + [b], sent := rx.sent + [b]) else rx
  }

  function HostTakes(tx: Tx): Tx {
    if tx.fifo != [] then tx.(received := tx.received + [tx.fifo[0]], fifo := tx.fifo[1..]) else tx
  }

  // ---------------------------------------------------------------- control and presence

  /** Writing `irq_enable` to the control register, after changing one of its bits. */
  function SetRe(c: Control, on: bool): Control {
    Control(on, c.irqWe, on, c.irqWe, c.ac)
  }

  function SetWe(c: Control, on: bool): Control {
    Control(c.irqRe, on, c.irqRe, on, c.ac)
  }

  /** `altera_avalon_jtag_uart_timeout`: writing the AC bit back clears it. */
  function PresenceCheck(s: Shared): Shared {
    if s.ctl.ac then
      s.(ctl := Control(s.ctl.irqRe, s.ctl.irqWe, s.ctl.irqRe, s.ctl.irqWe, false),
         host := s.host.(hostInactive := 0))
    else if s.host.hostInactive < INT_MAX - 2 then
      s.(host := s.host.(hostInactive := s.host.hostInactive + 1))
    else s
  }

  /** What TIOCSTIMEOUT leaves in `timeout`. */
  function ClampTimeout(timeout: nat, arg: int): nat {
    if timeout == INT_MAX then timeout
    else if 2 <= arg < INT_MAX then arg
    else INT_MAX - 1
  }

  predicate Connected(host: Presence) {
    host.hostInactive < host.timeout
  }

  // ---------------------------------------------------------------- the interrupt routine

  /** The device may report RI only if RE is set and a byte is waiting, and WI only
      if WE is set and there is room. It need not report them at once. */
  predicate MayReport(s: Shared, ri: bool, wi: bool) {
    && (ri ==> s.ctl.re && s.rx.fifo != [])
    && (wi ==> s.ctl.we && |s.tx.fifo| < TX_DEPTH)
  }

  /** WSPACE */
  function Room(tx: Tx): nat {
    if |tx.fifo| < TX_DEPTH then TX_DEPTH - |tx.fifo| else 0
  }

  function RxStore(rx: Rx): (rx': Rx)
    requires RxShape(rx) && rx.fifo != []
    ensures RxShape(rx')
  {
    rx.(buf := rx.buf[rx.inn := rx.fifo[0]], inn := Advance(rx.inn, 1), fifo := rx.fifo[1..])
  }

  function TxSend(tx: Tx): (tx': Tx)
    requires TxShape(tx)
    ensures TxShape(tx')
  {
    tx.(fifo := tx.fifo + [tx.buf[tx.out]], out := Advance(tx.out, 1))
  }

  function IsrMove(m: Machine, ri: bool, wi: bool): (m': Machine)
    requires WellFormed(m)
    ensures WellFormed(m')
  {
    var s := m.s;
    match m.isr
    case Idle =>
      if MayReport(s, ri, wi) && (ri || wi) then m.(isr := Top) else m
    case Top =>
      if !MayReport(s, ri, wi) then m
      else if ri then m.(isr := RxLoop(wi, Room(s.tx), true))
      else if wi then m.(isr := TxLoop(Room(s.tx)))
      else m.(isr := Idle)
    case RxLoop(wi, space, ravail) =>
      if Advance(s.rx.inn, 1) == s.rx.out then m.(isr := RxDone(wi, space, ravail))
      else if s.rx.fifo == [] then m.(isr := RxDone(wi, space, false))
      else m.(s := s.(rx := RxStore(s.rx)), isr := RxLoop(wi, space, |s.rx.fifo| > 1))
    case RxDone(wi, space, ravail) =>
      m.(s := if ravail then s.(ctl := SetRe(s.ctl, false)) else s,
         isr := if wi then TxLoop(space) else Top)
    case TxLoop(space) =>
      if space > 0 && s.tx.out != s.tx.inn
      then m.(s := s.(tx := TxSend(s.tx)), isr := TxLoop(space - 1))
      else m.(isr := TxDone(space))
    case TxDone(space) =>
      m.(s := if space > 0 then s.(ctl := SetWe(s.ctl, false)) else s, isr := Top)
  }

  // ---------------------------------------------------------------- write

  function TxPublish(tx: Tx, inn: nat, more: seq<Byte>): (tx': Tx)
    requires TxShape(tx)
    ensures TxShape(tx')
  {
    tx.(inn := Advance(inn, |more|), accepted := tx.accepted + more)
  }

  function WriterMove(m: Machine): (m': Machine)
    requires WellFormed(m)
    ensures WellFormed(m')
  {
    var s := m.s;
    match m.writer
    case WIdle => m
    case WLoadIn(c) =>
      m.(writer := if c.done < |c.data| then WLoadOut(c, s.tx.inn) else WKick(c, s.tx.out))
    case WLoadOut(c, inn) =>
      FreeRunIsSafe(inn, s.tx.out);
      var n := FreeRun(inn, s.tx.out);
      if n == 0 then m.(writer := WKick(c, s.tx.out))
      else m.(writer := WCopy(c, inn, if n > |c.data| - c.done then |c.data| - c.done else n, 0))
    case WCopy(c, inn, n, k) =>
      if k < n
      then m.(s := s.(tx := s.tx.(buf := s.tx.buf[inn + k := c.data[c.done + k]])), writer := WCopy(c, inn, n, k + 1))
      else m.(s := s.(tx := TxPublish(s.tx, inn, c.data[c.done..c.done + n])),
              writer := WLoadIn(c.(done := c.done + n)))
    case WKick(c, out) =>
      m.(s := s.(ctl := SetWe(s.ctl, true)),
         writer := if c.done == |c.data| || c.nonblock then WIdle else WSpin(c, out))
    case WSpin(c, out) =>
      if out == s.tx.out && Connected(s.host) then m else m.(writer := WCheck(c))
    case WCheck(c) =>
      m.(writer := if s.host.hostInactive != 0 then WIdle else WLoadIn(c))
  }

  // ---------------------------------------------------------------- read

  function RxRelease(rx: Rx, out: nat, took: seq<Byte>): (rx': Rx)
    requires RxShape(rx)
    ensures RxShape(rx')
  {
    rx.(out := Advance(out, |took|), delivered := rx.delivered + took)
  }

  function ReaderMove(m: Machine): (m': Machine)
    requires WellFormed(m)
    ensures WellFormed(m')
  {
    var s := m.s;
    match m.reader
    case RIdle => m
    case RTop(c) =>
      m.(reader := if |c.got| < c.space then RLoadOut(c, s.rx.inn) else RExit(c))
    case RLoadOut(c, inn) =>
      DataRunIsSafe(inn, s.rx.out);
      var n := DataRun(inn, s.rx.out);
      if n == 0 then m.(reader := RAfter(c, inn))
      else m.(reader := RCopy(c, inn, s.rx.out, if n > c.space - |c.got| then c.space - |c.got| else n, []))
    case RCopy(c, inn, out, n, tmp) =>
      if |tmp| < n
      then m.(reader := RCopy(c, inn, out, n, tmp + [s.rx.buf[out + |tmp|]]))
      else
        var c' := c.(got := c.got + tmp);
        m.(s := s.(rx := RxRelease(s.rx, out, tmp)),
           reader := if |c'.got| < c.space then RTop(c') else RAfter(c', inn))
    case RAfter(c, inn) =>
      m.(reader := if c.got != [] || c.nonblock then RExit(c) else RSpin(c, inn))
    case RSpin(c, inn) =>
      if inn == s.rx.inn && Connected(s.host) then m else m.(reader := RCheck(c, inn))
    case RCheck(c, inn) =>
      m.(reader := if inn == s.rx.inn then RExit(c) else RTop(c))
    case RExit(c) =>
      m.(s := if c.got != [] then s.(ctl := SetRe(s.ctl, true)) else s, reader := RIdle)
  }

  // ---------------------------------------------------------------- runs

  function MainMove(m: Machine, t: MainAction): (m': Machine)
    requires WellFormed(m)
    ensures WellFormed(m')
  {
    match t
    case Tick => if m.s.host.alarm then m.(s := PresenceCheck(m.s)) else m
    case CallWrite(data, nonblock) =>
      if m.writer == WIdle then m.(writer := WLoadIn(WriteCall(data, 0, m.s.tx.accepted, nonblock))) else m
    case WriterStep => WriterMove(m)
    case CallRead(space, nonblock) =>
      if m.reader == RIdle
      then m.(reader := RTop(ReadCall(if space > 0 then space else 0, [], m.s.rx.delivered, nonblock))) else m
    case ReaderStep => ReaderMove(m)
    case SetTimeout(arg) => m.(s := m.s.(host := m.s.host.(timeout := ClampTimeout(m.s.host.timeout, arg))))
  }

  /** One step. An action that cannot happen now changes nothing. */
  function Step(m: Machine, a: Action): (m': Machine)
    requires WellFormed(m)
    ensures WellFormed(m')
  {
    match a
    case HostPush(b) => m.(s := m.s.(rx := HostSends(m.s.rx, b)))
    case HostPop => m.(s := m.s.(tx := HostTakes(m.s.tx)))
    case HostActivity => m.(s := m.s.(ctl := m.s.ctl.(ac := true)))
    case IsrStep(ri, wi) => IsrMove(m, ri, wi)
    case Main(t) => if m.isr == Idle then MainMove(m, t) else m
  }

  /** A run: the actions in order, in any interleaving whatever. */
  function Exec(m: Machine, acts: seq<Action>): (m': Machine)
    requires WellFormed(m)
    ensures WellFormed(m')
    decreases |acts|
  {
    if acts == [] then m else Exec(Step(m, acts[0]), acts[1..])
  }
}
