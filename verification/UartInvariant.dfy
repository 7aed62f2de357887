/** What holds in every state the driver can reach, and why each step keeps it. */
module UartInvariant {
  import opened Ring
  import opened UartMachine

  function RxRing(rx: Rx): seq<Byte>
    requires RxShape(rx)
  {
    Window(rx.buf, rx.out, rx.inn)
  }

  function TxRing(tx: Tx): seq<Byte>
    requires TxShape(tx)
  {
    Window(tx.buf, tx.out, tx.inn)
  }

  /** Every byte the host sent is delivered, in the ring or in the device, in order. */
  predicate RxOk(rx: Rx) {
    RxShape(rx) && |rx.fifo| <= RX_DEPTH && rx.delivered + RxRing(rx) + rx.fifo == rx.sent
  }

  /** Every byte accepted from callers is at the host, in the device or in the ring. */
  predicate TxOk(tx: Tx) {
    TxShape(tx) && |tx.fifo| <= TX_DEPTH && tx.received + tx.fifo + TxRing(tx) == tx.accepted
  }

  predicate ControlOk(c: Control) {
    c.re == c.irqRe && c.we == c.irqWe
  }

  predicate PresenceOk(h: Presence) {
    && h.hostInactive <= INT_MAX - 2
    && (if h.alarm then h.timeout < INT_MAX else h.timeout == INT_MAX && h.hostInactive == 0)
  }

  predicate RxFull(rx: Rx) {
    Advance(rx.inn, 1) == rx.out
  }

  /** `out` was read when the ring was full; what has gone since is what moved it. */
  predicate Stalled(tx: Tx, out: nat)
    requires TxShape(tx)
  {
    Index(out) && Len(tx.out, tx.inn) + Len(out, tx.out) == N - 1
  }

  predicate WriteCallOk(tx: Tx, c: WriteCall) {
    c.done <= |c.data| && tx.accepted == c.base + c.data[..c.done]
  }

  predicate WriterOk(tx: Tx, w: Writer)
    requires TxShape(tx) && WriterBounds(w)
  {
    match w
    case WIdle => true
    case WLoadIn(c) => WriteCallOk(tx, c)
    case WLoadOut(c, inn) => WriteCallOk(tx, c) && inn == tx.inn
    case WCopy(c, inn, n, k) =>
      && WriteCallOk(tx, c) && inn == tx.inn && 0 < n <= Free(tx.out, tx.inn)
      && tx.buf[inn..inn + k] == c.data[c.done..c.done + k]
    case WKick(c, out) => WriteCallOk(tx, c) && (c.done < |c.data| ==> Stalled(tx, out))
    case WSpin(c, out) => WriteCallOk(tx, c) && !c.nonblock && Stalled(tx, out)
    case WCheck(c) => WriteCallOk(tx, c) && !c.nonblock
  }

  predicate ReadCallOk(rx: Rx, c: ReadCall) {
    |c.got| <= c.space && rx.delivered == c.base + c.got
  }

  predicate ReaderOk(rx: Rx, r: Reader)
    requires RxShape(rx) && ReaderBounds(r)
  {
    match r
    case RIdle => true
    case RTop(c) => ReadCallOk(rx, c)
    case RLoadOut(c, inn) => ReadCallOk(rx, c) && Len(rx.out, inn) <= Len(rx.out, rx.inn)
    case RCopy(c, inn, out, n, tmp) =>
      && ReadCallOk(rx, c) && out == rx.out && 0 < n <= Len(rx.out, rx.inn)
      && tmp == rx.buf[out..out + |tmp|]
    case RAfter(c, inn) => ReadCallOk(rx, c) && (c.got == [] ==> inn == rx.out)
    case RSpin(c, inn) => ReadCallOk(rx, c) && c.got == [] && !c.nonblock && inn == rx.out
    case RCheck(c, inn) => ReadCallOk(rx, c) && c.got == [] && !c.nonblock && inn == rx.out
    case RExit(c) => ReadCallOk(rx, c)
  }

  /** What the routine believes about the receive side is so. */
  predicate IsrRxOk(rx: Rx, c: Control, isr: Isr) {
    match isr
    case RxLoop(_, _, ravail) => c.re && (ravail ==> rx.fifo != [])
    case RxDone(_, _, ravail) => c.re && (ravail ==> RxFull(rx))
    case _ => true
  }

  /** The room in the device that the routine counts on is really there, and it gives
      up WE only over an empty ring. */
  predicate IsrTxOk(tx: Tx, c: Control, isr: Isr) {
    match isr
    case RxLoop(wi, space, _) => wi ==> c.we && 0 < space && space + |tx.fifo| <= TX_DEPTH
    case RxDone(wi, space, _) => wi ==> c.we && 0 < space && space + |tx.fifo| <= TX_DEPTH
    case TxLoop(space) => c.we && space + |tx.fifo| <= TX_DEPTH
    case TxDone(space) => c.we && (space > 0 ==> tx.inn == tx.out)
    case _ => true
  }

  /** The writer has yet to pass its enable section. */
  predicate OwesKick(w: Writer) {
    w.WLoadIn? || w.WLoadOut? || w.WCopy? || w.WKick?
  }

  /** The reader has drained bytes and has yet to pass its enable section. */
  predicate OwesEnable(r: Reader) {
    !r.RIdle? && r.r.got != []
  }

  predicate TxAwake(tx: Tx, c: Control, w: Writer) {
    tx.inn != tx.out ==> c.we || OwesKick(w)
  }

  predicate RxAwake(rx: Rx, c: Control, r: Reader) {
    !c.re ==> RxFull(rx) || OwesEnable(r)
  }

  predicate RxSide(m: Machine) {
    && RxOk(m.s.rx) && ReaderBounds(m.reader) && ReaderOk(m.s.rx, m.reader)
    && IsrRxOk(m.s.rx, m.s.ctl, m.isr) && RxAwake(m.s.rx, m.s.ctl, m.reader)
  }

  predicate TxSide(m: Machine) {
    && TxOk(m.s.tx) && WriterBounds(m.writer) && WriterOk(m.s.tx, m.writer)
    && IsrTxOk(m.s.tx, m.s.ctl, m.isr) && TxAwake(m.s.tx, m.s.ctl, m.writer)
  }

  predicate Inv(m: Machine) {
    WellFormed(m) && RxSide(m) && TxSide(m) && ControlOk(m.s.ctl) && PresenceOk(m.s.host)
  }

  // ---------------------------------------------------------------- the host

  lemma HostSendsKeeps(m: Machine, b: Byte)
    requires Inv(m)
    ensures Inv(Step(m, HostPush(b)))
  {
    var rx := m.s.rx;
    assert rx.delivered + RxRing(rx) + (rx.fifo + [b]) == (rx.delivered + RxRing(rx) + rx.fifo) + [b];
  }

  lemma HostTakesKeeps(m: Machine)
    requires Inv(m)
    ensures Inv(Step(m, HostPop))
  {
    var tx := m.s.tx;
    if tx.fifo != [] {
      assert [tx.fifo[0]] + tx.fifo[1..] == tx.fifo;
      assert (tx.received + [tx.fifo[0]]) + tx.fifo[1..] == tx.received + tx.fifo;
    }
  }

  // ---------------------------------------------------------------- the interrupt routine

  lemma RxStoreKeeps(rx: Rx, r: Reader)
    requires RxOk(rx) && ReaderBounds(r) && ReaderOk(rx, r) && !RxFull(rx) && rx.fifo != []
    ensures RxOk(RxStore(rx)) && ReaderOk(RxStore(rx), r)
    ensures Len(RxStore(rx).out, RxStore(rx).inn) == Len(rx.out, rx.inn) + 1
  {
    Append(rx.buf, rx.out, rx.inn, rx.fifo[0]);
    assert [rx.fifo[0]] + rx.fifo[1..] == rx.fifo;
    assert rx.delivered + (RxRing(rx) + [rx.fifo[0]]) + rx.fifo[1..] == rx.delivered + RxRing(rx) + rx.fifo;
    match r
    case RCopy(c, inn, out, n, tmp) =>
      assert rx.inn < out || rx.inn >= out + n;
      assert RxStore(rx).buf[out..out + |tmp|] == rx.buf[out..out + |tmp|];
    case _ =>
  }

  lemma TxSendKeeps(tx: Tx, w: Writer)
    requires TxOk(tx) && WriterBounds(w) && WriterOk(tx, w) && tx.out != tx.inn && |tx.fifo| < TX_DEPTH
    ensures TxOk(TxSend(tx)) && WriterOk(TxSend(tx), w)
    ensures Len(TxSend(tx).out, TxSend(tx).inn) == Len(tx.out, tx.inn) - 1
  {
    Consume(tx.buf, tx.out, tx.inn, 1);
    var rest := Window(tx.buf, Advance(tx.out, 1), tx.inn);
    assert tx.buf[tx.out..tx.out + 1] == [tx.buf[tx.out]];
    assert tx.received + (tx.fifo + [tx.buf[tx.out]]) + rest == tx.received + tx.fifo + TxRing(tx);
    assert forall out | Index(out) :: Stalled(tx, out) ==> Stalled(TxSend(tx), out);
  }

  lemma IsrKeeps(m: Machine, ri: bool, wi: bool)
    requires Inv(m)
    ensures Inv(IsrMove(m, ri, wi))
  {
    hide Window, Live;
    var s := m.s;
    if m.isr.RxLoop? && !RxFull(s.rx) && s.rx.fifo != [] {
      RxStoreKeeps(s.rx, m.reader);
    } else if m.isr.TxLoop? && m.isr.space > 0 && s.tx.out != s.tx.inn {
      TxSendKeeps(s.tx, m.writer);
    }
  }

  // ---------------------------------------------------------------- write

  lemma CopyInKeeps(tx: Tx, c: WriteCall, inn: nat, n: nat, k: nat)
    requires TxOk(tx) && WriterBounds(WCopy(c, inn, n, k)) && WriterOk(tx, WCopy(c, inn, n, k)) && k < n
    ensures !Live(tx.out, tx.inn, inn + k)
    ensures var tx' := tx.(buf := tx.buf[inn + k := c.data[c.done + k]]);
            TxOk(tx') && WriterOk(tx', WCopy(c, inn, n, k + 1))
  {
    var b := c.data[c.done + k];
    StoreOutside(tx.buf, tx.out, tx.inn, inn + k, b);
    assert c.data[c.done..c.done + k] + [b] == c.data[c.done..c.done + k + 1];
    assert tx.buf[inn + k := b][inn..inn + k + 1] == tx.buf[inn..inn + k] + [b];
  }

  lemma PublishKeeps(tx: Tx, c: WriteCall, inn: nat, n: nat)
    requires TxOk(tx) && WriterBounds(WCopy(c, inn, n, n)) && WriterOk(tx, WCopy(c, inn, n, n))
    ensures var tx' := TxPublish(tx, inn, c.data[c.done..c.done + n]);
            TxOk(tx') && WriterOk(tx', WLoadIn(c.(done := c.done + n)))
  {
    var more := c.data[c.done..c.done + n];
    Publish(tx.buf, tx.out, tx.inn, n);
    assert tx.received + tx.fifo + (TxRing(tx) + more) == tx.received + tx.fifo + TxRing(tx) + more;
    assert c.base + c.data[..c.done] + more == c.base + c.data[..c.done + n];
  }

  lemma CopyStoreKeeps(m: Machine)
    requires Inv(m) && m.isr == Idle && m.writer.WCopy? && m.writer.k < m.writer.n
    ensures Inv(WriterMove(m))
  {
    hide Window, Live, RxOk, ReaderOk, RxAwake;
    CopyInKeeps(m.s.tx, m.writer.w, m.writer.inn, m.writer.n, m.writer.k);
  }

  lemma CopyPublishKeeps(m: Machine)
    requires Inv(m) && m.isr == Idle && m.writer.WCopy? && m.writer.k == m.writer.n
    ensures Inv(WriterMove(m))
  {
    hide Window, Live, RxOk, ReaderOk, RxAwake;
    PublishKeeps(m.s.tx, m.writer.w, m.writer.inn, m.writer.n);
  }

  lemma CopyStepKeeps(m: Machine)
    requires Inv(m) && m.isr == Idle && m.writer.WCopy?
    ensures Inv(WriterMove(m))
  {
    if m.writer.k < m.writer.n {
      CopyStoreKeeps(m);
    } else {
      CopyPublishKeeps(m);
    }
  }

  lemma WriterKeeps(m: Machine)
    requires Inv(m) && m.isr == Idle
    ensures Inv(WriterMove(m))
  {
    match m.writer
    case WLoadOut(c, inn) =>
      FreeRunIsSafe(inn, m.s.tx.out);
      assert c.data[c.done..c.done + 0] == m.s.tx.buf[inn..inn + 0];
    case WCopy(_, _, _, _) => CopyStepKeeps(m);
    case _ =>
  }

  // ---------------------------------------------------------------- read

  lemma ReleaseKeeps(rx: Rx, c: ReadCall, inn: nat, out: nat, n: nat, tmp: seq<Byte>)
    requires RxOk(rx) && ReaderBounds(RCopy(c, inn, out, n, tmp)) && ReaderOk(rx, RCopy(c, inn, out, n, tmp))
    requires |tmp| == n
    ensures RxOk(RxRelease(rx, out, tmp)) && ReadCallOk(RxRelease(rx, out, tmp), c.(got := c.got + tmp))
  {
    Consume(rx.buf, rx.out, rx.inn, n);
    var rest := Window(rx.buf, Advance(out, n), rx.inn);
    assert rx.delivered + tmp + rest + rx.fifo == rx.delivered + (tmp + rest) + rx.fifo;
    assert c.base + c.got + tmp == c.base + (c.got + tmp);
  }

  lemma CopyOutKeeps(m: Machine)
    requires Inv(m) && m.isr == Idle && m.reader.RCopy?
    ensures Inv(ReaderMove(m))
  {
    var RCopy(c, inn, out, n, tmp) := m.reader;
    var rx := m.s.rx;
    if |tmp| < n {
      assert rx.buf[out..out + |tmp| + 1] == rx.buf[out..out + |tmp|] + [rx.buf[out + |tmp|]];
    } else {
      ReleaseKeeps(rx, c, inn, out, n, tmp);
    }
  }

  lemma ReaderKeeps(m: Machine)
    requires Inv(m) && m.isr == Idle
    ensures Inv(ReaderMove(m))
  {
    hide Window, TxOk, WriterOk;
    match m.reader
    case RLoadOut(c, inn) => DataRunIsSafe(inn, m.s.rx.out);
    case RCopy(_, _, _, _, _) => CopyOutKeeps(m);
    case _ =>
  }

  // ---------------------------------------------------------------- every run

  lemma MainKeeps(m: Machine, t: MainAction)
    requires Inv(m) && m.isr == Idle
    ensures Inv(MainMove(m, t))
  {
    match t
    case WriterStep => WriterKeeps(m);
    case ReaderStep => ReaderKeeps(m);
    case CallWrite(data, nonblock) => assert m.s.tx.accepted + data[..0] == m.s.tx.accepted;
    case CallRead(space, nonblock) => assert m.s.rx.delivered + [] == m.s.rx.delivered;
    case _ =>
  }

  lemma StepKeeps(m: Machine, a: Action)
    requires Inv(m)
    ensures Inv(Step(m, a))
  {
    match a
    case HostPush(b) => HostSendsKeeps(m, b);
    case HostPop => HostTakesKeeps(m);
    case HostActivity =>
    case IsrStep(ri, wi) => IsrKeeps(m, ri, wi);
    case Main(t) => if m.isr == Idle { MainKeeps(m, t); }
  }

  lemma {:induction false} RunKeeps(m: Machine, acts: seq<Action>)
    requires Inv(m)
    ensures Inv(Exec(m, acts))
    decreases |acts|
  {
    if acts != [] {
      StepKeeps(m, acts[0]);
      RunKeeps(Step(m, acts[0]), acts[1..]);
    }
  }

  lemma BootHolds(alarmStarted: bool)
    ensures Inv(Boot(alarmStarted))
  {
    var s := Boot(alarmStarted).s;
    assert RxRing(s.rx) == [] && TxRing(s.tx) == [];
  }
}
