/** Progress: when the host goes on taking bytes and the device reports that it has room,
    everything that was accepted reaches the host. */
module UartProgress {
  import opened Ring
  import opened UartMachine
  import opened UartInvariant
  import opened UartTheorems
  import opened UartDriver
  import opened UartBlocking

  /** The device reports WI whenever it may: with WE set and room in its FIFO. */
  predicate MayWant(s: Shared) {
    s.ctl.we && |s.tx.fifo| < TX_DEPTH
  }

  /** If this step reads the interrupt bits, the device reports what it may, WI without delay. */
  predicate Prompt(m: Machine, a: Action) {
    a.IsrStep? && (m.isr == Idle || m.isr == Top) ==> MayReport(m.s, a.ri, a.wi) && (MayWant(m.s) ==> a.wi)
  }

  predicate PromptRun(m: Machine, acts: seq<Action>)
    requires WellFormed(m)
    decreases |acts|
  {
    acts == [] || (Prompt(m, acts[0]) && PromptRun(Step(m, acts[0]), acts[1..]))
  }

  /** What is left to do: two moves for a byte in the ring, one for a byte in the device. */
  function Left(m: Machine): nat
    requires WellFormed(m)
  {
    2 * Len(m.s.tx.out, m.s.tx.inn) + |m.s.tx.fifo|
  }

  /** The writer is outside its calls. */
  predicate Calm(m: Machine) {
    Inv(m) && m.writer == WIdle
  }

  lemma NothingLeft(m: Machine)
    requires Calm(m) && Left(m) == 0
    ensures m.s.tx.received == m.s.tx.accepted
  {
    var tx := m.s.tx;
    assert tx.fifo == [] && TxRing(tx) == [];
    assert tx.received + [] + [] == tx.received;
  }

  lemma CalmStep(m: Machine, a: Action)
    requires Calm(m) && !(a.Main? && a.t.CallWrite?)
    ensures Calm(Step(m, a)) && Left(Step(m, a)) <= Left(m) && Step(m, a).s.tx.accepted == m.s.tx.accepted
    ensures a == HostPop && m.s.tx.fifo != [] ==> Left(Step(m, a)) < Left(m)
    ensures a != HostPop && m.s.tx.fifo != [] ==> Step(m, a).s.tx.fifo != []
  {
    hide Window, Live, RxSide;
    StepKeeps(m, a);
    if a.IsrStep? && m.isr.TxLoop? && m.isr.space > 0 && m.s.tx.out != m.s.tx.inn {
      TxSendKeeps(m.s.tx, m.writer);
    }
  }

  lemma {:induction false} CalmRun(m: Machine, acts: seq<Action>)
    requires Calm(m) && NoCalls(acts)
    ensures var m' := Exec(m, acts);
            Calm(m') && Left(m') <= Left(m) && m'.s.tx.accepted == m.s.tx.accepted
    decreases |acts|
  {
    hide RxSide, TxSide, Step, Left;
    if acts != [] {
      CalmStep(m, acts[0]);
      assert forall a | a in acts[1..] :: a in acts;
      CalmRun(Step(m, acts[0]), acts[1..]);
    }
  }

  // ---------------------------------------------------------------- a byte in the device

  lemma {:induction false} TakeCounts(m: Machine, acts: seq<Action>)
    requires Calm(m) && NoCalls(acts) && HostPop in acts && m.s.tx.fifo != []
    ensures Left(Exec(m, acts)) < Left(m)
    decreases |acts|
  {
    hide Step, Left;
    var m1 := Step(m, acts[0]);
    CalmStep(m, acts[0]);
    assert forall a | a in acts[1..] :: a in acts;
    if acts[0] == HostPop {
      CalmRun(m1, acts[1..]);
    } else {
      assert acts == [acts[0]] + acts[1..];
      TakeCounts(m1, acts[1..]);
    }
  }

  // ---------------------------------------------------------------- a byte in the ring only

  /** Bytes wait in the ring and the device has none. */
  predicate Starved(m: Machine) {
    Calm(m) && m.s.tx.fifo == [] && m.s.tx.out != m.s.tx.inn
  }

  /** One step more than the rank of the routine can be, for it may have to be entered first. */
  const ROUND: nat := 40978

  /** How many steps the interrupt routine may make before it must send. */
  function Budget(m: Machine): nat
    requires WellFormed(m)
  {
    if m.isr == Idle then ROUND else Rank(m)
  }

  lemma BudgetIsBounded(m: Machine)
    requires WellFormed(m)
    ensures 0 < Budget(m) <= ROUND && (m.isr != Idle ==> Budget(m) < ROUND)
  {
  }

  lemma StarvedRoutine(m: Machine, a: Action)
    requires Starved(m) && a.IsrStep? && Prompt(m, a)
    ensures Left(Step(m, a)) < Left(m) || (Starved(Step(m, a)) && Budget(Step(m, a)) < Budget(m))
  {
    hide Window, Live, RxSide, Rank;
    CalmStep(m, a);
    assert MayWant(m.s);
    BudgetIsBounded(Step(m, a));
    if m.isr != Idle {
      EachIsrStepCounts(m, a);
      Sends(m, a);
    }
  }

  lemma Sends(m: Machine, a: Action)
    requires Starved(m) && a.IsrStep? && Prompt(m, a) && m.isr != Idle
    ensures Step(m, a).isr != Idle
    ensures Step(m, a).s.tx == m.s.tx || Left(Step(m, a)) < Left(m)
  {
    hide Window, Live, RxSide;
    if m.isr.TxLoop? && m.isr.space > 0 {
      TxSendKeeps(m.s.tx, m.writer);
    }
  }

  lemma StarvedOtherwise(m: Machine, a: Action)
    requires Starved(m) && !a.IsrStep? && !(a.Main? && a.t.CallWrite?)
    ensures Starved(Step(m, a)) && Budget(Step(m, a)) == Budget(m)
  {
    hide Window, Live, RxSide, Rank;
    CalmStep(m, a);
    if m.isr != Idle {
      OtherStepsCostNothing(m, a);
    }
  }

  function IsrSteps(acts: seq<Action>): nat {
    if acts == [] then 0 else (if acts[0].IsrStep? then 1 else 0) + IsrSteps(acts[1..])
  }

  /** In time the routine sends a byte, whatever else goes on. */
  lemma {:induction false} SendCounts(m: Machine, acts: seq<Action>)
    requires Starved(m) && NoCalls(acts) && PromptRun(m, acts) && IsrSteps(acts) >= Budget(m)
    ensures Left(Exec(m, acts)) < Left(m)
    decreases |acts|
  {
    hide RxSide, TxSide, Step, Left, Budget, Prompt;
    BudgetIsBounded(m);
    if acts != [] {
      var a := acts[0];
      var m1 := Step(m, a);
      CalmStep(m, a);
      assert forall b | b in acts[1..] :: b in acts;
      if a.IsrStep? {
        StarvedRoutine(m, a);
      } else {
        StarvedOtherwise(m, a);
      }
      if Left(m1) < Left(m) {
        CalmRun(m1, acts[1..]);
      } else {
        SendCounts(m1, acts[1..]);
      }
    }
  }

  // ---------------------------------------------------------------- rounds

  /** A stretch of a run in which the host takes at least once and the interrupt routine gets
      its turn, among any other steps in any order, but no call of write is made. */
  predicate Round(acts: seq<Action>) {
    NoCalls(acts) && HostPop in acts && IsrSteps(acts) >= ROUND
  }

  lemma EachRoundCounts(m: Machine, acts: seq<Action>)
    requires Calm(m) && Round(acts) && PromptRun(m, acts) && Left(m) > 0
    ensures Left(Exec(m, acts)) < Left(m)
  {
    if m.s.tx.fifo != [] {
      TakeCounts(m, acts);
    } else {
      BudgetIsBounded(m);
      SendCounts(m, acts);
    }
  }

  function Flat(rounds: seq<seq<Action>>): seq<Action> {
    if rounds == [] then [] else rounds[0] + Flat(rounds[1..])
  }

  lemma {:induction false} PromptParts(m: Machine, acts: seq<Action>, more: seq<Action>)
    requires WellFormed(m)
    ensures PromptRun(m, acts + more) <==> PromptRun(m, acts) && PromptRun(Exec(m, acts), more)
    decreases |acts|
  {
    hide Step, Prompt;
    if acts == [] {
      assert acts + more == more;
    } else {
      assert (acts + more)[1..] == acts[1..] + more;
      PromptParts(Step(m, acts[0]), acts[1..], more);
    }
  }

  /** From every state that satisfies the invariant, with the writer outside its calls, and
      on every run made of at least `Left(m)` rounds, which is at most 4158: everything ever
      accepted has reached the host. */
  lemma {:induction false} AllIsReceived(m: Machine, rounds: seq<seq<Action>>)
    requires Calm(m) && PromptRun(m, Flat(rounds))
    requires (forall r | r in rounds :: Round(r)) && |rounds| >= Left(m)
    ensures var m' := Exec(m, Flat(rounds));
            m'.s.tx.received == m'.s.tx.accepted == m.s.tx.accepted && Calm(m')
    ensures Left(m) <= 4158
    decreases |rounds|
  {
    assert |m.s.tx.fifo| <= TX_DEPTH;
    if rounds == [] {
      NothingLeft(m);
    } else {
      OneRoundOff(m, rounds);
      AllIsReceived(Exec(m, rounds[0]), rounds[1..]);
    }
  }

  lemma OneRoundOff(m: Machine, rounds: seq<seq<Action>>)
    requires Calm(m) && PromptRun(m, Flat(rounds)) && rounds != []
    requires (forall r | r in rounds :: Round(r)) && |rounds| >= Left(m)
    ensures var m1 := Exec(m, rounds[0]);
            && Calm(m1) && PromptRun(m1, Flat(rounds[1..])) && m1.s.tx.accepted == m.s.tx.accepted
            && (forall r | r in rounds[1..] :: Round(r)) && |rounds[1..]| >= Left(m1)
            && Exec(m, Flat(rounds)) == Exec(m1, Flat(rounds[1..]))
  {
    hide Exec, RxSide, TxSide, Left;
    assert Round(rounds[0]);
    PromptParts(m, rounds[0], Flat(rounds[1..]));
    ExecJoins(m, rounds[0], Flat(rounds[1..]));
    CalmRun(m, rounds[0]);
    if Left(m) > 0 {
      EachRoundCounts(m, rounds[0]);
    }
  }

  /** Such rounds can always be had. */
  lemma ARoundExists(m: Machine) returns (acts: seq<Action>)
    requires WellFormed(m)
    ensures Round(acts) && PromptRun(m, acts)
  {
    var rest := PromptSteps(Step(m, HostPop), ROUND);
    acts := [HostPop] + rest;
    assert acts[1..] == rest;
  }

  lemma {:induction false} PromptSteps(m: Machine, n: nat) returns (acts: seq<Action>)
    requires WellFormed(m)
    ensures NoCalls(acts) && IsrSteps(acts) == n && PromptRun(m, acts)
    decreases n
  {
    if n == 0 {
      acts := [];
    } else {
      var a := IsrStep(false, MayWant(m.s));
      var rest := PromptSteps(Step(m, a), n - 1);
      acts := [a] + rest;
      assert acts[1..] == rest;
    }
  }
}
