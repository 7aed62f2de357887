/** Interrupt registration, the shadow of the enable register, and software dispatch. A
    32-bit mask is the set of the numbers of its set bits. */
module Interrupts {
  import opened Words

  const NIRQ: nat := 32
  const EINVAL := 22

  /** An entry of `alt_irq`: the handler, which may be null, and its context. */
  datatype Entry = Entry(handler: Option<nat>, context: int)

  /** `alt_irq`, `alt_irq_active`, the IENABLE register and the lines the devices assert. */
  datatype Irqs = Irqs(table: seq<Entry>, active: set<nat>, ienable: set<nat>, lines: set<nat>)

  predicate Shaped(s: Irqs) {
    |s.table| == NIRQ
  }

  function Reset(): Irqs {
    Irqs(seq(NIRQ, i => Entry(None, 0)), {}, {}, {})
  }

  /** The shadow agrees with the register, and only lines with a handler are enabled. */
  predicate Inv(s: Irqs) {
    && Shaped(s) && s.ienable == s.active
    && forall i | i in s.active :: i < NIRQ && s.table[i].handler.Some?
  }

  // ---------------------------------------------------------------- registration

  /** `alt_irq_enable` */
  function Enable(s: Irqs, id: nat): Irqs {
    s.(active := s.active + {id}, ienable := s.active + {id})
  }

  /** `alt_irq_disable` */
  function Disable(s: Irqs, id: nat): Irqs {
    s.(active := s.active - {id}, ienable := s.active - {id})
  }

  /** `alt_iic_isr_register`: a null handler disables the line. */
  function Register(s: Irqs, irq: nat, e: Entry): (Irqs, int)
    requires Shaped(s)
  {
    if irq >= NIRQ then (s, -EINVAL)
    else
      var s1 := s.(table := s.table[irq := e]);
      (if e.handler.Some? then Enable(s1, irq) else Disable(s1, irq), 0)
  }

  /** A registration fails, with -EINVAL and no change, exactly when there is no such line. */
  lemma RegisterFailsExactlyWhen(s: Irqs, irq: nat, e: Entry)
    requires Shaped(s)
    ensures var (s', rc) := Register(s, irq, e);
            && rc in {0, -EINVAL} && (rc == -EINVAL <==> irq >= NIRQ) && (rc != 0 ==> s' == s)
            && (rc == 0 ==> s'.table[irq] == e && (irq in s'.ienable <==> e.handler.Some?))
  {
  }

  datatype Call = DoRegister(irq: nat, e: Entry) | DoDisable(irq: nat)

  function Apply(s: Irqs, c: Call): (s': Irqs)
    requires Shaped(s)
    ensures Shaped(s')
  {
    match c
    case DoRegister(irq, e) => Register(s, irq, e).0
    case DoDisable(irq) => Disable(s, irq)
  }

  function Run(s: Irqs, calls: seq<Call>): (s': Irqs)
    requires Shaped(s)
    ensures Shaped(s')
    decreases |calls|
  {
    if calls == [] then s else Run(Apply(s, calls[0]), calls[1..])
  }

  /** Over any run of registrations and disables an enabled line has a handler and the
      register agrees with its shadow; and what the devices do is not touched. */
  lemma {:induction false} RunKeeps(s: Irqs, calls: seq<Call>)
    requires Inv(s)
    ensures Inv(Run(s, calls)) && Run(s, calls).lines == s.lines
    decreases |calls|
  {
    if calls != [] {
      RunKeeps(Apply(s, calls[0]), calls[1..]);
    }
  }

  /** The last registration of a line decides: it is enabled, with that handler, exactly if
      that was not null and it was not disabled since. */
  predicate LastWord(calls: seq<Call>, irq: nat, e: Entry) {
    exists k | 0 <= k < |calls| :: calls[k] == DoRegister(irq, e) && SilentAfter(calls, k, irq)
  }

  /** No call after the `k`th registers or disables the line. */
  predicate SilentAfter(calls: seq<Call>, k: nat, irq: nat) {
    forall j | k < j < |calls| :: !(calls[j].DoRegister? && calls[j].irq == irq) && calls[j] != DoDisable(irq)
  }

  lemma {:induction false} EnabledExactlyByLastWord(calls: seq<Call>, irq: nat)
    requires irq < NIRQ
    ensures var s := Run(Reset(), calls);
            irq in s.ienable <==> s.table[irq].handler.Some? && LastWord(calls, irq, s.table[irq])
    decreases |calls|
  {
    var s := Run(Reset(), calls);
    if calls != [] {
      var n := |calls| - 1;
      var before, c := calls[..n], calls[n];
      RunAppends(Reset(), before, c);
      assert before + [c] == calls;
      EnabledExactlyByLastWord(before, irq);
      RunKeeps(Reset(), before);
      var p := Run(Reset(), before);
      if (c.DoRegister? && c.irq == irq) {
        assert calls[n] == DoRegister(irq, s.table[irq]);
      } else if c == DoDisable(irq) {
        if LastWord(calls, irq, s.table[irq]) { assert false; }
      } else {
        assert s.table[irq] == p.table[irq] && (irq in s.ienable <==> irq in p.ienable);
        LastWordStays(before, c, irq, s.table[irq]);
      }
    }
  }

  lemma LastWordStays(before: seq<Call>, c: Call, irq: nat, e: Entry)
    requires !(c.DoRegister? && c.irq == irq) && c != DoDisable(irq)
    ensures LastWord(before + [c], irq, e) <==> LastWord(before, irq, e)
  {
    var calls := before + [c];
    if LastWord(before, irq, e) {
      var k :| 0 <= k < |before| && before[k] == DoRegister(irq, e) && SilentAfter(before, k, irq);
      assert calls[k] == DoRegister(irq, e);
    }
    if LastWord(calls, irq, e) {
      var k :| 0 <= k < |calls| && calls[k] == DoRegister(irq, e) && SilentAfter(calls, k, irq);
      assert k < |before| && before[k] == calls[k];
      assert forall j | k < j < |before| :: before[j] == calls[j];
    }
  }

  lemma {:induction false} RunAppends(s: Irqs, calls: seq<Call>, c: Call)
    requires Shaped(s)
    ensures Run(s, calls + [c]) == Apply(Run(s, calls), c)
    decreases |calls|
  {
    if calls == [] {
      assert calls + [c] == [c] && [c][1..] == [];
    } else {
      assert (calls + [c])[1..] == calls[1..] + [c];
      RunAppends(Apply(s, calls[0]), calls[1..], c);
    }
  }

  // ---------------------------------------------------------------- dispatch

  /** What `alt_irq_pending` reads: the asserted lines that are enabled. */
  function Pending(s: Irqs): set<nat> {
    s.lines * s.ienable
  }

  /** What one run of a handler does: registrations of its own, and whatever lines the
      devices assert when it returns. */
  datatype Effect = Effect(calls: seq<Call>, lines: set<nat>)

  function Serve(s: Irqs, e: Effect): (s': Irqs)
    requires Shaped(s)
    ensures Shaped(s')
  {
    Run(s, e.calls).(lines := e.lines)
  }

  lemma ServeKeeps(s: Irqs, e: Effect)
    requires Inv(s)
    ensures Inv(Serve(s, e))
  {
    RunKeeps(s, e.calls);
  }

  /** One dispatch: which line, which entry, and in what state. */
  datatype Dispatch = Dispatch(irq: nat, entry: Entry, s: Irqs)

  /** The line dispatched was pending and no lower-numbered one was; its handler is the
      one in the table, and is not null. */
  predicate Proper(d: Dispatch) {
    && Shaped(d.s) && d.irq in Pending(d.s) && d.irq < NIRQ
    && (forall i | i in Pending(d.s) :: d.irq <= i)
    && d.entry == d.s.table[d.irq] && d.entry.handler.Some?
  }

  /** The state in which the dispatches began, and each state a handler left, in turn. */
  predicate Follows(s: Irqs, log: seq<Dispatch>, effects: seq<Effect>, s': Irqs)
    decreases |log|
  {
    if log == [] then s' == s
    else effects != [] && log[0].s == s && Shaped(s) && Follows(Serve(s, effects[0]), log[1..], effects[1..], s')
  }

  lemma {:induction false} FollowsFurther(s: Irqs, log: seq<Dispatch>, effects: seq<Effect>, s': Irqs, d: Dispatch)
    requires Follows(s, log, effects, s') && |log| < |effects| && Shaped(s') && d.s == s'
    ensures Follows(s, log + [d], effects, Serve(s', effects[|log|]))
    decreases |log|
  {
    if log == [] {
      assert log + [d] == [d] && [d][1..] == [];
    } else {
      FollowsFurther(Serve(s, effects[0]), log[1..], effects[1..], s', d);
      assert (log + [d])[1..] == log[1..] + [d];
    }
  }

  class Controller {
    const table: array<Entry>
    var active: set<nat>
    var ienable: set<nat>
    var lines: set<nat>

    function View(): Irqs
      reads this, table
    {
      Irqs(table[..], active, ienable, lines)
    }

    constructor ()
      ensures View() == Reset() && Inv(View()) && fresh(table)
    {
      table := new Entry[NIRQ](i => Entry(None, 0));
      active, ienable, lines := {}, {}, {};
      new;
      assert table[..] == Reset().table;
    }

    method IrqEnable(id: nat) returns (rc: int)
      modifies `active, `ienable
      ensures View() == Enable(old(View()), id) && rc == 0
    {
      active := active + {id};
      ienable := active;
      rc := 0;
    }

    method IrqDisable(id: nat) returns (rc: int)
      modifies `active, `ienable
      ensures View() == Disable(old(View()), id) && rc == 0
    {
      active := active - {id};
      ienable := active;
      rc := 0;
    }

    /** `alt_iic_isr_register`, for an interrupt number that is not negative as an int. */
    method IsrRegister(irq: nat, e: Entry) returns (rc: int)
      requires Shaped(View()) && irq < 0x8000_0000
      modifies this, table
      ensures (View(), rc) == Register(old(View()), irq, e)
    {
      rc := -EINVAL;
      var id := irq;
      if id < NIRQ {
        table[id] := e;
        if e.handler.Some? {
          rc := IrqEnable(id);
        } else {
          rc := IrqDisable(id);
        }
      }
    }

    /** A handler is called; what it and the devices do is `e`. */
    method CallHandler(e: Effect)
      requires Shaped(View())
      modifies this, table
      ensures View() == Serve(old(View()), e)
    {
      var k := 0;
      assert e.calls[0..] == e.calls;
      while k < |e.calls|
        invariant k <= |e.calls| && Shaped(View())
        invariant Run(View(), e.calls[k..]) == Run(old(View()), e.calls)
      {
        assert e.calls[k..][1..] == e.calls[k + 1..];
        match e.calls[k] {
          case DoRegister(irq, entry) => if irq < NIRQ { var _ := IsrRegister(irq, entry); }
          case DoDisable(irq) => var _ := IrqDisable(irq);
        }
        k := k + 1;
      }
      lines := e.lines;
    }

    /** The inner loop of `alt_irq_handler`: the lowest set bit. It ends because there is one. */
    method LowestBit(pending: set<nat>) returns (i: nat)
      requires exists b :: b in pending
      ensures i in pending && forall b | b in pending :: i <= b
    {
      ghost var b :| b in pending;
      i := 0;
      while i !in pending
        invariant i <= b && forall c | c in pending :: i <= c
        decreases b - i
      {
        i := i + 1;
      }
    }

    /** `alt_irq_handler`, entered because something is pending. Every dispatch is proper
        and it comes back only with nothing pending, unless the handlers' effects under
        consideration run out first. */
    method Handle(effects: seq<Effect>) returns (ghost log: seq<Dispatch>, finished: bool)
      requires Inv(View()) && Pending(View()) != {}
      modifies this, table
      ensures Inv(View()) && Follows(old(View()), log, effects, View())
      ensures forall d | d in log :: Proper(d)
      ensures if finished then Pending(View()) == {} && log != [] else |log| == |effects|
    {
      log, finished := [], false;
      var k := 0;
      var pending := Pending(View());
      while k < |effects|
        invariant |log| == k <= |effects| && Inv(View()) && pending == Pending(View()) != {}
        invariant Follows(old(View()), log, effects, View())
        invariant forall d | d in log :: Proper(d)
      {
        var i := LowestBit(pending);
        ghost var d := Dispatch(i, table[i], View());
        assert Proper(d);
        FollowsFurther(old(View()), log, effects, View(), d);
        ServeKeeps(View(), effects[k]);
        log := log + [d];
        CallHandler(effects[k]);
        k := k + 1;
        pending := lines * ienable;
        if pending == {} {
          finished := true;
          return;
        }
      }
    }
  }
}
