/** write and read when nothing interferes: a plain bounded queue of 2047 bytes,
    although both copy it in contiguous segments that stop at the end of the array. */
module UartAlone {
  import opened Ring
  import opened UartMachine
  import opened UartInvariant

  function Min(a: int, b: int): int {
    if a < b then a else b
  }

  function WriterRun(m: Machine, k: nat): (m': Machine)
    requires WellFormed(m)
    ensures WellFormed(m')
    decreases k
  {
    if k == 0 then m else WriterRun(WriterMove(m), k - 1)
  }

  function ReaderRun(m: Machine, k: nat): (m': Machine)
    requires WellFormed(m)
    ensures WellFormed(m')
    decreases k
  {
    if k == 0 then m else ReaderRun(ReaderMove(m), k - 1)
  }

  /** Exactly `took` has gone into the transmit ring, and nothing else has happened. */
  predicate Put(tx: Tx, tx': Tx, took: seq<Byte>)
    requires TxShape(tx) && TxShape(tx')
  {
    && TxRing(tx') == TxRing(tx) + took && tx'.accepted == tx.accepted + took
    && tx'.fifo == tx.fifo && tx'.out == tx.out
  }

  /** The writer, running alone from `m`, comes to the end of its call at `m'` having put
      exactly `took` into the ring, and leaves WE set. */
  predicate WroteExactly(m: Machine, m': Machine, took: seq<Byte>)
    requires WellFormed(m) && WellFormed(m')
  {
    m'.writer == WIdle && m'.s.ctl.we && m'.s.rx == m.s.rx && Put(m.s.tx, m'.s.tx, took)
  }

  /** Exactly `took` has come out of the receive ring, and nothing else has happened. */
  predicate Took(rx: Rx, rx': Rx, took: seq<Byte>)
    requires RxShape(rx) && RxShape(rx')
  {
    && took + RxRing(rx') == RxRing(rx) && rx'.delivered == rx.delivered + took
    && rx'.fifo == rx.fifo && rx'.inn == rx.inn
  }

  /** From `m` the reader, running alone, comes to the end of its call having taken
      exactly `took` from the ring, and sets RE if it took anything. */
  predicate ReadExactly(m: Machine, m': Machine, took: seq<Byte>)
    requires WellFormed(m) && WellFormed(m')
  {
    m'.reader == RIdle && m'.s.tx == m.s.tx && Took(m.s.rx, m'.s.rx, took)
  }

  lemma PutJoins(tx: Tx, tx1: Tx, tx2: Tx, more: seq<Byte>, rest: seq<Byte>)
    requires TxShape(tx) && TxShape(tx1) && TxShape(tx2)
    requires Put(tx, tx1, more) && Put(tx1, tx2, rest)
    ensures Put(tx, tx2, more + rest)
  {
    assert TxRing(tx) + more + rest == TxRing(tx) + (more + rest);
    assert tx.accepted + more + rest == tx.accepted + (more + rest);
  }

  lemma WroteJoins(m: Machine, m1: Machine, m2: Machine, more: seq<Byte>, rest: seq<Byte>)
    requires WellFormed(m) && WellFormed(m1) && WellFormed(m2)
    requires Put(m.s.tx, m1.s.tx, more) && m1.s.rx == m.s.rx && WroteExactly(m1, m2, rest)
    ensures WroteExactly(m, m2, more + rest)
  {
    PutJoins(m.s.tx, m1.s.tx, m2.s.tx, more, rest);
  }

  lemma ReadJoins(m: Machine, m1: Machine, m2: Machine, more: seq<Byte>, rest: seq<Byte>)
    requires WellFormed(m) && WellFormed(m1) && WellFormed(m2)
    requires Took(m.s.rx, m1.s.rx, more) && m1.s.tx == m.s.tx && ReadExactly(m1, m2, rest)
    ensures ReadExactly(m, m2, more + rest)
  {
    TookJoins(m.s.rx, m1.s.rx, m2.s.rx, more, rest);
  }

  lemma TookJoins(rx: Rx, rx1: Rx, rx2: Rx, more: seq<Byte>, rest: seq<Byte>)
    requires RxShape(rx) && RxShape(rx1) && RxShape(rx2)
    requires Took(rx, rx1, more) && Took(rx1, rx2, rest)
    ensures Took(rx, rx2, more + rest)
  {
    assert more + (rest + RxRing(rx2)) == more + rest + RxRing(rx2);
    assert rx.delivered + more + rest == rx.delivered + (more + rest);
  }

  /** A byte stored ahead of `tx_in` is not yet in the ring. */
  lemma StoresUnseen(tx: Tx, c: WriteCall, inn: nat, n: nat, k: nat)
    requires TxOk(tx) && WriterBounds(WCopy(c, inn, n, k)) && WriterOk(tx, WCopy(c, inn, n, k)) && k < n
    ensures Put(tx, tx.(buf := tx.buf[inn + k := c.data[c.done + k]]), [])
  {
    CopyInKeeps(tx, c, inn, n, k);
    StoreOutside(tx.buf, tx.out, tx.inn, inn + k, c.data[c.done + k]);
    assert TxRing(tx) + [] == TxRing(tx) && tx.accepted + [] == tx.accepted;
  }

  /** Publishing puts the whole segment in at once. */
  lemma PublishesAll(tx: Tx, c: WriteCall, inn: nat, n: nat)
    requires TxOk(tx) && WriterBounds(WCopy(c, inn, n, n)) && WriterOk(tx, WCopy(c, inn, n, n))
    ensures Put(tx, TxPublish(tx, inn, c.data[c.done..c.done + n]), c.data[c.done..c.done + n])
  {
    Publish(tx.buf, tx.out, tx.inn, n);
  }

  lemma CopyInOnce(m: Machine)
    requires Inv(m) && m.isr == Idle && m.writer.WCopy?
    ensures var WCopy(c, inn, n, k) := m.writer;
            var m1 := WriterMove(m);
            && Inv(m1) && m1.isr == Idle && m1.s.rx == m.s.rx
            && (if k < n then m1.writer == WCopy(c, inn, n, k + 1) && Put(m.s.tx, m1.s.tx, [])
                else m1.writer == WLoadIn(c.(done := c.done + n)) && Put(m.s.tx, m1.s.tx, c.data[c.done..c.done + n]))
  {
    hide Window, Live, Put;
    var WCopy(c, inn, n, k) := m.writer;
    CopyStepKeeps(m);
    if k < n {
      StoresUnseen(m.s.tx, c, inn, n, k);
    } else {
      PublishesAll(m.s.tx, c, inn, n);
    }
  }

  /** The writer has copied and published: what CopyInAlone arrives at. */
  predicate Filled(m: Machine, m': Machine, c: WriteCall, n: nat)
    requires WellFormed(m) && WellFormed(m') && c.done + n <= |c.data|
  {
    && Inv(m') && m'.isr == Idle && m'.writer == WLoadIn(c.(done := c.done + n))
    && m'.s.rx == m.s.rx && Put(m.s.tx, m'.s.tx, c.data[c.done..c.done + n])
  }

  lemma FilledLater(m: Machine, m1: Machine, m': Machine, c: WriteCall, n: nat)
    requires WellFormed(m) && WellFormed(m1) && WellFormed(m') && c.done + n <= |c.data|
    requires m1.s.rx == m.s.rx && Put(m.s.tx, m1.s.tx, []) && Filled(m1, m', c, n)
    ensures Filled(m, m', c, n)
  {
    var more := c.data[c.done..c.done + n];
    PutJoins(m.s.tx, m1.s.tx, m'.s.tx, [], more);
    assert [] + more == more;
  }

  lemma {:induction false} CopyInAlone(m: Machine, c: WriteCall, inn: nat, n: nat, k: nat)
    requires Inv(m) && m.isr == Idle && m.writer == WCopy(c, inn, n, k)
    ensures Filled(m, WriterRun(m, n - k + 1), c, n)
    decreases n - k
  {
    var m1 := WriterMove(m);
    CopyInOnce(m);
    if k < n {
      CopyInAlone(m1, c, inn, n, k + 1);
      FilledLater(m, m1, WriterRun(m1, n - k), c, n);
    } else {
      assert WriterRun(m, 1) == WriterRun(m1, 0) == m1;
    }
  }

  lemma {:induction false} WriterRunAdds(m: Machine, a: nat, b: nat)
    requires WellFormed(m)
    ensures WriterRun(m, a + b) == WriterRun(WriterRun(m, a), b)
    decreases a
  {
    if a > 0 {
      WriterRunAdds(WriterMove(m), a - 1, b);
    }
  }

  lemma WriterStopsAlone(m: Machine)
    requires Inv(m) && m.isr == Idle && m.writer.WLoadIn? && m.writer.w.nonblock
    requires m.writer.w.done == |m.writer.w.data| || Free(m.s.tx.out, m.s.tx.inn) == 0
    ensures WroteExactly(m, WriterRun(m, if m.writer.w.done == |m.writer.w.data| then 2 else 3), [])
  {
    var tx := m.s.tx;
    FreeRunIsSafe(tx.inn, tx.out);
    var m1 := WriterMove(m);
    var m2 := WriterMove(m1);
    var m3 := WriterMove(m2);
    assert TxRing(tx) + [] == TxRing(tx) && tx.accepted + [] == tx.accepted;
    if m.writer.w.done == |m.writer.w.data| {
      assert WriterRun(m, 2) == WriterRun(m1, 1) == WriterRun(m2, 0) == m2;
    } else {
      assert WriterRun(m, 3) == WriterRun(m1, 2) == WriterRun(m2, 1) == WriterRun(m3, 0) == m3;
    }
  }

  lemma ReachesCopyIn(m: Machine)
    requires Inv(m) && m.isr == Idle && m.writer.WLoadIn?
    requires m.writer.w.done < |m.writer.w.data| && Free(m.s.tx.out, m.s.tx.inn) > 0
    ensures var m2 := WriterMove(WriterMove(m));
            && Inv(m2) && m2.isr == Idle && m2.s == m.s
            && m2.writer.WCopy? && m2.writer.k == 0 && m2.writer.w == m.writer.w
            && 0 < m2.writer.n <= Min(|m.writer.w.data| - m.writer.w.done, Free(m.s.tx.out, m.s.tx.inn))
  {
    FreeRunIsSafe(m.s.tx.inn, m.s.tx.out);
    WriterKeeps(m);
    WriterKeeps(WriterMove(m));
  }

  /** From the top of its loop, with room and data, the writer fills one segment. */
  lemma SegmentInAlone(m: Machine) returns (k: nat, n: nat)
    requires Inv(m) && m.isr == Idle && m.writer.WLoadIn?
    requires m.writer.w.done < |m.writer.w.data| && Free(m.s.tx.out, m.s.tx.inn) > 0
    ensures var c := m.writer.w;
            var m' := WriterRun(m, k);
            && 0 < n <= Min(|c.data| - c.done, Free(m.s.tx.out, m.s.tx.inn))
            && Filled(m, m', c, n)
  {
    var m1 := WriterMove(m);
    var m2 := WriterMove(m1);
    ReachesCopyIn(m);
    n := m2.writer.n;
    CopyInAlone(m2, m2.writer.w, m2.writer.inn, n, 0);
    k := n + 3;
    assert WriterRun(m, k) == WriterRun(m1, k - 1) == WriterRun(m2, k - 2);
  }

  function Takes(m: Machine, c: WriteCall): seq<Byte>
    requires WellFormed(m) && c.done <= |c.data|
  {
    c.data[c.done..c.done + Min(|c.data| - c.done, Free(m.s.tx.out, m.s.tx.inn))]
  }

  lemma TakesInParts(m: Machine, m1: Machine, c: WriteCall, n: nat)
    requires WellFormed(m) && WellFormed(m1)
    requires c.done + n <= |c.data| && n <= Free(m.s.tx.out, m.s.tx.inn) && Filled(m, m1, c, n)
    ensures Takes(m, c) == c.data[c.done..c.done + n] + Takes(m1, c.(done := c.done + n))
  {
    assert |TxRing(m1.s.tx)| == |TxRing(m.s.tx)| + n;
  }

  /** A non-blocking write appends exactly the first min(count, room) bytes. */
  lemma {:induction false} WriteAlone(m: Machine, c: WriteCall)
    requires Inv(m) && m.isr == Idle && m.writer == WLoadIn(c) && c.nonblock
    ensures exists k: nat :: WroteExactly(m, WriterRun(m, k), Takes(m, c))
    decreases |c.data| - c.done
  {
    hide Window, WriterMove, WriterRun, WroteExactly, Put;
    if c.done == |c.data| || Free(m.s.tx.out, m.s.tx.inn) == 0 {
      WriterStopsAlone(m);
      assert Takes(m, c) == [];
    } else {
      var k1, n := SegmentInAlone(m);
      var m1 := WriterRun(m, k1);
      var c1 := c.(done := c.done + n);
      WriteAlone(m1, c1);
      var k :| WroteExactly(m1, WriterRun(m1, k), Takes(m1, c1));
      WriterRunAdds(m, k1, k);
      TakesInParts(m, m1, c, n);
      WroteJoins(m, m1, WriterRun(m1, k), c.data[c.done..c.done + n], Takes(m1, c1));
      assert WroteExactly(m, WriterRun(m, k1 + k), Takes(m, c));
    }
  }

  lemma {:induction false} CopyOutAlone(m: Machine)
    requires Inv(m) && m.isr == Idle && m.reader.RCopy?
    ensures var RCopy(c, inn, out, n, tmp) := m.reader;
            var m' := ReaderRun(m, n - |tmp| + 1);
            var c' := c.(got := c.got + RxRing(m.s.rx)[..n]);
            && Inv(m') && m'.isr == Idle
            && m'.reader == (if |c'.got| < c.space then RTop(c') else RAfter(c', inn))
            && m'.s.tx == m.s.tx && Took(m.s.rx, m'.s.rx, RxRing(m.s.rx)[..n])
    decreases m.reader.n - |m.reader.tmp|
  {
    var RCopy(c, inn, out, n, tmp) := m.reader;
    var rx := m.s.rx;
    var m1 := ReaderMove(m);
    CopyOutKeeps(m);
    if |tmp| < n {
      CopyOutAlone(m1);
      assert ReaderRun(m, n - |tmp| + 1) == ReaderRun(m1, n - |m1.reader.tmp| + 1);
    } else {
      Consume(rx.buf, rx.out, rx.inn, n);
      assert RxRing(rx)[..n] == tmp;
      assert ReaderRun(m, 1) == ReaderRun(m1, 0) == m1;
    }
  }

  lemma {:induction false} ReaderRunAdds(m: Machine, a: nat, b: nat)
    requires WellFormed(m)
    ensures ReaderRun(m, a + b) == ReaderRun(ReaderRun(m, a), b)
    decreases a
  {
    if a > 0 {
      ReaderRunAdds(ReaderMove(m), a - 1, b);
    }
  }

  lemma ReaderLeavesAlone(m: Machine)
    requires Inv(m) && m.isr == Idle && m.reader.RAfter?
    requires m.reader.r.nonblock || m.reader.r.got != []
    ensures ReadExactly(m, ReaderRun(m, 2), [])
  {
    var m1 := ReaderMove(m);
    var m2 := ReaderMove(m1);
    assert ReaderRun(m, 2) == ReaderRun(m1, 1) == ReaderRun(m2, 0) == m2;
    assert m.s.rx.delivered + [] == m.s.rx.delivered && [] + RxRing(m.s.rx) == RxRing(m.s.rx);
  }

  lemma ReaderStopsAlone(m: Machine)
    requires Inv(m) && m.isr == Idle && m.reader.RTop?
    requires |m.reader.r.got| == m.reader.r.space
             || (RxRing(m.s.rx) == [] && (m.reader.r.nonblock || m.reader.r.got != []))
    ensures exists k: nat :: ReadExactly(m, ReaderRun(m, k), [])
  {
    var m1 := ReaderMove(m);
    var m2 := ReaderMove(m1);
    ReaderKeeps(m);
    ReaderKeeps(m1);
    assert m.s.rx.delivered + [] == m.s.rx.delivered && [] + RxRing(m.s.rx) == RxRing(m.s.rx);
    if |m.reader.r.got| == m.reader.r.space {
      assert ReaderRun(m, 2) == ReaderRun(m1, 1) == ReaderRun(m2, 0) == m2;
      assert ReadExactly(m, ReaderRun(m, 2), []);
    } else {
      DataRunIsSafe(m.s.rx.inn, m.s.rx.out);
      ReaderLeavesAlone(m2);
      assert ReaderRun(m, 4) == ReaderRun(m1, 3) == ReaderRun(m2, 2);
      assert ReadExactly(m, ReaderRun(m, 4), []);
    }
  }

  /** From the top of its loop, with data and space, the reader takes one segment. */
  lemma SegmentOutAlone(m: Machine) returns (k: nat, n: nat)
    requires Inv(m) && m.isr == Idle && m.reader.RTop?
    requires |m.reader.r.got| < m.reader.r.space && RxRing(m.s.rx) != []
    ensures var c := m.reader.r;
            var m' := ReaderRun(m, k);
            && 0 < n <= Min(c.space - |c.got|, |RxRing(m.s.rx)|)
            && Inv(m') && m'.isr == Idle
            && (if |c.got| + n < c.space then m'.reader.RTop? else m'.reader.RAfter?)
            && m'.reader.r == c.(got := c.got + RxRing(m.s.rx)[..n])
            && m'.s.tx == m.s.tx && Took(m.s.rx, m'.s.rx, RxRing(m.s.rx)[..n])
  {
    hide Window, Live;
    DataRunIsSafe(m.s.rx.inn, m.s.rx.out);
    ReaderKeeps(m);
    var m1 := ReaderMove(m);
    ReaderKeeps(m1);
    var m2 := ReaderMove(m1);
    n := m2.reader.n;
    CopyOutAlone(m2);
    k := n + 3;
    assert ReaderRun(m, k) == ReaderRun(m1, k - 1) == ReaderRun(m2, k - 2);
  }

  /** A read that need not block removes exactly the first min(space, waiting) bytes. */
  lemma {:induction false} ReadAlone(m: Machine)
    requires Inv(m) && m.isr == Idle && m.reader.RTop?
    requires m.reader.r.nonblock || m.reader.r.got != [] || RxRing(m.s.rx) != []
    ensures var c := m.reader.r;
            var n := Min(c.space - |c.got|, |RxRing(m.s.rx)|);
            exists k: nat :: ReadExactly(m, ReaderRun(m, k), RxRing(m.s.rx)[..n])
    decreases m.reader.r.space - |m.reader.r.got|
  {
    var c := m.reader.r;
    var ring := RxRing(m.s.rx);
    var n := Min(c.space - |c.got|, |ring|);
    if n == 0 {
      ReaderStopsAlone(m);
      assert ring[..n] == [];
    } else {
      var k1, n1 := SegmentOutAlone(m);
      var m1 := ReaderRun(m, k1);
      var ring1 := RxRing(m1.s.rx);
      assert ring1 == ring[n1..];
      if m1.reader.RTop? {
        ReadAlone(m1);
      } else {
        ReaderLeavesAlone(m1);
        assert ring1[..n - n1] == [];
      }
      var k :| ReadExactly(m1, ReaderRun(m1, k), ring1[..n - n1]);
      ReaderRunAdds(m, k1, k);
      ReadJoins(m, m1, ReaderRun(m1, k), ring[..n1], ring1[..n - n1]);
      assert ring[..n] == ring[..n1] + ring1[..n - n1];
      assert ReadExactly(m, ReaderRun(m, k1 + k), ring[..n]);
    }
  }
}
