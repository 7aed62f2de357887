/** When a blocking write takes all of its data: the condition, and the run in which it
    comes back short with the host still connected and room in the ring. */
module UartBlocking {
  import opened Ring
  import opened UartMachine
  import opened UartInvariant
  import opened UartTheorems
  import opened UartAlone
  import opened UartDriver

  /** No further call of write is made in `acts`. */
  predicate NoCalls(acts: seq<Action>) {
    forall a | a in acts :: !(a.Main? && a.t.CallWrite?)
  }

  /** The state just after a blocking call of write was made. */
  function Called(m: Machine, data: seq<Byte>): (m': Machine)
    requires WellFormed(m)
    ensures WellFormed(m')
  {
    MainMove(m, CallWrite(data, false))
  }

  /** Whatever the parties do in `acts`, the call has come back at the end. */
  predicate Returns(m: Machine, data: seq<Byte>, acts: seq<Action>)
    requires WellFormed(m)
  {
    NoCalls(acts) && Exec(Called(m, data), acts).writer == WIdle
  }

  predicate TookAll(m: Machine, data: seq<Byte>, acts: seq<Action>)
    requires WellFormed(m)
  {
    Exec(Called(m, data), acts).s.tx.accepted == m.s.tx.accepted + data
  }

  /** A state in which a call can be made. */
  predicate Ready(m: Machine) {
    Inv(m) && m.isr == Idle && m.writer == WIdle
  }

  // ---------------------------------------------------------------- it takes all

  /** The call under way is the blocking one for `data`, made after `base`. */
  predicate Mine(c: WriteCall, data: seq<Byte>, base: seq<Byte>) {
    c.data == data && c.base == base && !c.nonblock
  }

  predicate RoomForRest(tx: Tx, c: WriteCall)
    requires TxShape(tx)
  {
    Len(tx.out, tx.inn) + |c.data| - c.done <= N - 1
  }

  /** The call will not be cut short: there is room for what is left, or no presence check. */
  predicate Sure(m: Machine, data: seq<Byte>, base: seq<Byte>) {
    && Inv(m)
    && var alarm := m.s.host.alarm;
    match m.writer
    case WIdle => m.s.tx.accepted == base + data
    case WLoadIn(c) => Mine(c, data, base) && (alarm ==> RoomForRest(m.s.tx, c))
    case WLoadOut(c, _) => Mine(c, data, base) && (alarm ==> RoomForRest(m.s.tx, c))
    case WCopy(c, _, _, _) => Mine(c, data, base) && (alarm ==> RoomForRest(m.s.tx, c))
    case WKick(c, _) => Mine(c, data, base) && (alarm ==> c.done == |data|)
    case WSpin(c, _) => Mine(c, data, base) && !alarm
    case WCheck(c) => Mine(c, data, base) && !alarm
  }

  lemma SureWriter(m: Machine, data: seq<Byte>, base: seq<Byte>)
    requires Sure(m, data, base) && m.isr == Idle
    ensures Sure(WriterMove(m), data, base)
  {
    hide Window, Live;
    WriterKeeps(m);
    match m.writer {
      case WLoadOut(_, _) => LoadOutMoves(m);
      case WCopy(_, _, n, k) => if k == n { PublishMoves(m); }
      case WKick(c, _) => assert c.done == |data| ==> c.data[..c.done] == data;
      case _ =>
    }
  }

  lemma SureStep(m: Machine, a: Action, data: seq<Byte>, base: seq<Byte>)
    requires Sure(m, data, base) && !(a.Main? && a.t.CallWrite?)
    ensures Sure(Step(m, a), data, base)
  {
    hide Window, Live;
    StepKeeps(m, a);
    if a.Main? && a.t.WriterStep? {
      if m.isr == Idle { SureWriter(m, data, base); }
    } else {
      SureOthers(m, a, data, base);
    }
  }

  lemma SureOthers(m: Machine, a: Action, data: seq<Byte>, base: seq<Byte>)
    requires Sure(m, data, base) && !(a.Main? && (a.t.CallWrite? || a.t.WriterStep?)) && Inv(Step(m, a))
    ensures Sure(Step(m, a), data, base)
  {
    hide Window, Live, WriterMove;
    var m' := Step(m, a);
    if !a.Main? || a.t.Tick? {
      OthersRely(m, a);
      IsrSparesHost(m, a);
    }
    assert m'.writer == m.writer && m'.s.host.alarm == m.s.host.alarm && m'.s.tx.accepted == m.s.tx.accepted;
    assert Len(m'.s.tx.out, m'.s.tx.inn) <= Len(m.s.tx.out, m.s.tx.inn);
  }

  lemma IsrSparesHost(m: Machine, a: Action)
    requires WellFormed(m)
    ensures Step(m, a).s.host.alarm == m.s.host.alarm
    ensures a.IsrStep? ==> Step(m, a).s.host == m.s.host
  {
  }

  lemma {:induction false} SureRun(m: Machine, acts: seq<Action>, data: seq<Byte>, base: seq<Byte>)
    requires Sure(m, data, base) && NoCalls(acts)
    ensures Sure(Exec(m, acts), data, base)
    decreases |acts|
  {
    if acts != [] {
      SureStep(m, acts[0], data, base);
      assert forall a | a in acts[1..] :: a in acts;
      SureRun(Step(m, acts[0]), acts[1..], data, base);
    }
  }

  lemma TakesAll(m: Machine, data: seq<Byte>, acts: seq<Action>)
    requires Ready(m) && Returns(m, data, acts)
    requires |data| <= Free(m.s.tx.out, m.s.tx.inn) || !m.s.host.alarm
    ensures TookAll(m, data, acts)
  {
    StepKeeps(m, Main(CallWrite(data, false)));
    SureRun(Called(m, data), acts, data, m.s.tx.accepted);
  }

  // ---------------------------------------------------------------- it comes back short

  function WriterSteps(k: nat): (acts: seq<Action>)
    ensures |acts| == k && NoCalls(acts)
  {
    seq(k, i => Main(WriterStep))
  }

  lemma {:induction false} WriterStepsRun(m: Machine, k: nat)
    requires WellFormed(m) && m.isr == Idle
    ensures Exec(m, WriterSteps(k)) == WriterRun(m, k)
    ensures WriterRun(m, k).isr == Idle && WriterRun(m, k).s.host == m.s.host
    decreases k
  {
    if k > 0 {
      assert WriterSteps(k)[1..] == WriterSteps(k - 1);
      WriterStepsRun(WriterMove(m), k - 1);
    }
  }

  lemma {:induction false} ExecJoins(m: Machine, acts: seq<Action>, more: seq<Action>)
    requires WellFormed(m)
    ensures Exec(m, acts + more) == Exec(Exec(m, acts), more)
    decreases |acts|
  {
    if acts == [] {
      assert acts + more == more;
    } else {
      assert (acts + more)[1..] == acts[1..] + more;
      ExecJoins(Step(m, acts[0]), acts[1..], more);
    }
  }

  /** The writer waits behind a full ring with data left over, having kicked. */
  predicate Held(m: Machine, data: seq<Byte>, base: seq<Byte>) {
    && Inv(m) && m.isr == Idle && m.writer.WSpin? && Mine(m.writer.w, data, base)
    && Free(m.s.tx.out, m.s.tx.inn) == 0 && m.s.ctl.we
  }

  lemma HoldsAtFull(m: Machine)
    requires Inv(m) && m.isr == Idle && m.writer.WLoadIn? && !m.writer.w.nonblock
    requires m.writer.w.done < |m.writer.w.data| && Free(m.s.tx.out, m.s.tx.inn) == 0
    ensures Held(WriterRun(m, 3), m.writer.w.data, m.writer.w.base)
  {
    FreeRunIsSafe(m.s.tx.inn, m.s.tx.out);
    var m1 := WriterMove(m);
    var m2 := WriterMove(m1);
    var m3 := WriterMove(m2);
    WriterKeeps(m);
    WriterKeeps(m1);
    WriterKeeps(m2);
    assert WriterRun(m, 3) == WriterRun(m1, 2) == WriterRun(m2, 1) == WriterRun(m3, 0) == m3;
  }

  /** With more data than room the writer, running alone, fills the ring and is held up. */
  lemma {:induction false} FillsAndHolds(m: Machine) returns (k: nat)
    requires Inv(m) && m.isr == Idle && m.writer.WLoadIn? && !m.writer.w.nonblock
    requires |m.writer.w.data| - m.writer.w.done > Free(m.s.tx.out, m.s.tx.inn)
    ensures Held(WriterRun(m, k), m.writer.w.data, m.writer.w.base)
    decreases Free(m.s.tx.out, m.s.tx.inn)
  {
    hide Window, WriterMove, WriterRun;
    if Free(m.s.tx.out, m.s.tx.inn) == 0 {
      HoldsAtFull(m);
      k := 3;
    } else {
      var k1, n := SegmentInAlone(m);
      var m1 := WriterRun(m, k1);
      assert |TxRing(m1.s.tx)| == |TxRing(m.s.tx)| + n;
      var k2 := FillsAndHolds(m1);
      WriterRunAdds(m, k1, k2);
      k := k1 + k2;
    }
  }

  /** The interrupt routine, left to itself, comes to its end. */
  lemma {:induction false} FinishIsr(m: Machine) returns (acts: seq<Action>)
    requires Inv(m)
    ensures NoCalls(acts)
    ensures var m' := Exec(m, acts);
            Inv(m') && m'.isr == Idle && m'.s.host == m.s.host && Rely(m, m')
    decreases Rank(m)
  {
    hide Window, IsrMove, Rank, WriterMove, ReaderMove;
    if m.isr == Idle {
      acts := [];
    } else {
      var a := IsrStep(false, false);
      StepKeeps(m, a);
      EachIsrStepCounts(m, a);
      OthersRely(m, a);
      IsrSparesHost(m, a);
      var rest := FinishIsr(Step(m, a));
      acts := [a] + rest;
      assert acts[1..] == rest;
    }
  }

  lemma ExecThree(m: Machine, a: Action, b: Action, c: Action)
    requires WellFormed(m)
    ensures Exec(m, [a, b, c]) == Step(Step(Step(m, a), b), c)
  {
    hide Step;
    assert [a, b, c][1..] == [b, c] && [b, c][1..] == [c] && [c][1..] == [];
    assert Exec(m, [a, b, c]) == Exec(Step(m, a), [b, c]);
    assert Exec(Step(m, a), [b, c]) == Exec(Step(Step(m, a), b), [c]);
    assert Exec(Step(Step(m, a), b), [c]) == Exec(Step(Step(Step(m, a), b), c), []);
  }

  /** The host takes a byte, and two presence checks see no activity between them. */
  const QUIET: seq<Action> := [HostPop, Main(Tick), Main(Tick)]

  lemma GoesQuiet(m: Machine)
    requires Inv(m) && m.isr == Idle && m.s.host.alarm
    ensures var m' := Exec(m, QUIET);
            && Inv(m') && m'.isr == Idle && m'.writer == m.writer && m'.s.tx == HostTakes(m.s.tx)
            && m'.s.ctl.we == m.s.ctl.we && m'.s.host.timeout == m.s.host.timeout
            && 0 < m'.s.host.hostInactive <= m.s.host.hostInactive + 2
  {
    hide Window, RxSide, TxSide;
    RunKeeps(m, QUIET);
    ExecThree(m, HostPop, Main(Tick), Main(Tick));
  }

  /** The transmit interrupt is taken and sends a byte. */
  const SEND: seq<Action> := [IsrStep(false, true), IsrStep(false, true), IsrStep(false, false)]

  lemma SendsOne(m: Machine)
    requires Inv(m) && m.isr == Idle && m.s.ctl.we && |m.s.tx.fifo| < TX_DEPTH && m.s.tx.out != m.s.tx.inn
    ensures var m' := Exec(m, SEND);
            && Inv(m') && m'.writer == m.writer && m'.s.host == m.s.host && m'.s.tx.accepted == m.s.tx.accepted
            && Len(m'.s.tx.out, m'.s.tx.inn) == Len(m.s.tx.out, m.s.tx.inn) - 1
  {
    hide Window, WriterOk, ReaderOk, RxOk, TxAwake, RxAwake;
    RunKeeps(m, SEND);
    ExecThree(m, IsrStep(false, true), IsrStep(false, true), IsrStep(false, false));
    TxSendKeeps(m.s.tx, m.writer);
  }

  /** The wait over, the host seen inactive, the call comes back with data left over. */
  lemma GivesUp(m: Machine, data: seq<Byte>, base: seq<Byte>)
    requires Inv(m) && m.isr == Idle && m.writer.WSpin? && Mine(m.writer.w, data, base)
    requires Free(m.s.tx.out, m.s.tx.inn) > 0 && m.s.host.hostInactive != 0
    ensures var m' := Exec(m, WriterSteps(2));
            && m'.writer == WIdle && m'.s.tx.accepted < base + data
            && m'.s.tx == m.s.tx && m'.s.host == m.s.host
  {
    hide Window;
    WriterStepsRun(m, 2);
    var m1 := WriterMove(m);
    var m2 := WriterMove(m1);
    assert WriterRun(m, 2) == WriterRun(m1, 1) == WriterRun(m2, 0) == m2;
  }

  /** From a writer held up by a full ring: the call comes back short. */
  lemma HeldComesBackShort(m: Machine, data: seq<Byte>, base: seq<Byte>) returns (acts: seq<Action>)
    requires Held(m, data, base) && m.s.host.alarm
    ensures NoCalls(acts)
    ensures var m' := Exec(m, acts);
            && m'.writer == WIdle && m'.s.tx.accepted < base + data
            && Free(m'.s.tx.out, m'.s.tx.inn) > 0
            && m'.s.host.hostInactive <= m.s.host.hostInactive + 2 && m'.s.host.timeout == m.s.host.timeout
  {
    hide Exec, Window, WriterSteps;
    var m1 := Exec(m, QUIET);
    GoesQuiet(m);
    var m2 := Exec(m1, SEND);
    SendsOne(m1);
    var finish := FinishIsr(m2);
    var m3 := Exec(m2, finish);
    GivesUp(m3, data, base);
    ExecJoins(m, QUIET, SEND);
    ExecJoins(m, QUIET + SEND, finish);
    ExecJoins(m, QUIET + SEND + finish, WriterSteps(2));
    acts := QUIET + SEND + finish + WriterSteps(2);
  }

  /** The call of more than there is room for comes back short in some run; and with a
      timeout not yet near, with the host still connected and room in the ring. */
  lemma ComesBackShort(m: Machine, data: seq<Byte>) returns (acts: seq<Action>)
    requires Ready(m) && m.s.host.alarm && |data| > Free(m.s.tx.out, m.s.tx.inn)
    ensures Returns(m, data, acts) && !TookAll(m, data, acts)
    ensures var m' := Exec(Called(m, data), acts);
            && m'.s.tx.accepted < m.s.tx.accepted + data && Free(m'.s.tx.out, m'.s.tx.inn) > 0
            && (m.s.host.hostInactive + 2 < m.s.host.timeout ==> Connected(m'.s.host))
  {
    hide Exec, Window, Held, WriterRun;
    var m1 := Called(m, data);
    StepKeeps(m, Main(CallWrite(data, false)));
    var k := FillsAndHolds(m1);
    WriterStepsRun(m1, k);
    var rest := HeldComesBackShort(WriterRun(m1, k), data, m.s.tx.accepted);
    ExecJoins(m1, WriterSteps(k), rest);
    acts := WriterSteps(k) + rest;
  }

  /** A blocking write that comes back has taken all of its data, whatever the other
      parties did meanwhile, if and only if there was room for it when it was called or the
      alarm for the presence check was never started. */
  lemma TakesAllExactlyWhen(m: Machine, data: seq<Byte>)
    requires Ready(m)
    ensures (forall acts | Returns(m, data, acts) :: TookAll(m, data, acts))
            <==> |data| <= Free(m.s.tx.out, m.s.tx.inn) || !m.s.host.alarm
  {
    if |data| <= Free(m.s.tx.out, m.s.tx.inn) || !m.s.host.alarm {
      forall acts | Returns(m, data, acts) ensures TookAll(m, data, acts) {
        TakesAll(m, data, acts);
      }
    } else {
      var acts := ComesBackShort(m, data);
    }
  }

  /** It happens, long before the timeout: after start-up a blocking write of 2048 bytes can
      come back with 2047 or fewer taken, the host connected and room in the ring. */
  lemma ShortWhileConnected() returns (data: seq<Byte>, acts: seq<Action>)
    ensures |data| == 2048 && Returns(Boot(true), data, acts)
    ensures var m' := Exec(Called(Boot(true), data), acts);
            && m'.s.tx.accepted < data
            && Connected(m'.s.host) && Free(m'.s.tx.out, m'.s.tx.inn) > 0
  {
    BootHolds(true);
    data := seq(2048, i => 0);
    acts := ComesBackShort(Boot(true), data);
    assert Boot(true).s.tx.accepted + data == data;
  }
}
