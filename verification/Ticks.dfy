/** One alarm against a 32-bit tick counter that wraps, and the ideal timer it stands for. */
module Ticks {
  import opened Words

  /** The two fields of an alarm that decide when it is due. */
  datatype Setting = Setting(time: U32, rollover: bool)

  /** `alt_alarm_start`: the deadline, truncated, and whether it is past the next wrap. */
  function Start(nticks: U32, counter: U32): Setting {
    var time := (nticks + counter + 1) % W;
    Setting(time, time < counter)
  }

  /** The roll-over flag is dropped when the counter comes round to zero. */
  function Cleared(a: Setting, counter: U32): Setting {
    if a.rollover && counter == 0 then a.(rollover := false) else a
  }

  predicate Due(a: Setting, counter: U32) {
    Cleared(a, counter).time <= counter && !Cleared(a, counter).rollover
  }

  /** What `alt_tick` leaves of an alarm whose callback returned the period `p`. */
  function Rearmed(a: Setting, counter: U32, p: U32): Setting {
    var time := (a.time + p) % W;
    Setting(time, Cleared(a, counter).rollover || time < counter)
  }

  // ---------------------------------------------------------------- the ideal timer

  /** The setting `a`, at the unbounded tick `now`, stands for the deadline `deadline`. */
  predicate StandsFor(a: Setting, deadline: nat, now: nat) {
    && now < deadline < now + W
    && a.time == deadline % W
    && (a.rollover <==> deadline / W == now / W + 1)
  }

  lemma Epochs(now: nat, deadline: nat)
    requires now <= deadline < now + W
    ensures deadline / W == now / W || deadline / W == now / W + 1
    ensures deadline / W == now / W <==> deadline % W >= now % W
  {
  }

  /** A freshly started alarm stands for the deadline start + nticks + 1, for every
      request but the largest. */
  lemma StartIsExact(nticks: U32, now: nat)
    requires nticks <= W - 2
    ensures StandsFor(Start(nticks, now % W), now + nticks + 1, now)
  {
    var deadline := now + nticks + 1;
    Epochs(now, deadline);
    SumMod(nticks + 1, now);
  }

  lemma SumMod(n: nat, now: nat)
    ensures (n + now % W) % W == (now + n) % W
  {
    assert now == (now / W) * W + now % W;
    assert (n + now % W + (now / W) * W) % W == (n + now % W) % W by { ShiftMod(n + now % W, now / W); }
  }

  lemma {:induction false} ShiftMod(x: nat, k: nat)
    ensures (x + k * W) % W == x % W
  {
    if k > 0 {
      ShiftMod(x, k - 1);
      assert x + k * W == (x + (k - 1) * W) + W;
    }
  }

  /** A tick makes the alarm due exactly when the deadline is reached, and an alarm not
      due goes on standing for the same deadline. */
  lemma TickIsExact(a: Setting, deadline: nat, now: nat)
    requires StandsFor(a, deadline, now)
    ensures Due(a, (now + 1) % W) <==> now + 1 == deadline
    ensures now + 1 != deadline ==> StandsFor(Cleared(a, (now + 1) % W), deadline, now + 1)
  {
    Epochs(now, deadline);
    Epochs(now + 1, deadline);
    Epochs(now, now + 1);
  }

  /** An alarm re-armed for `p` ticks stands for the deadline `p` ticks after the firing. */
  lemma RearmIsExact(a: Setting, now: nat, p: U32)
    requires StandsFor(a, now + 1, now) && p != 0
    ensures StandsFor(Rearmed(a, (now + 1) % W, p), now + 1 + p, now + 1)
  {
    TickIsExact(a, now + 1, now);
    Epochs(now + 1, now + 1 + p);
    SumMod(p, now + 1);
  }

  // ---------------------------------------------------------------- whole runs

  /** The ticks at which an alarm fires in the `n` ticks after `now`, when its callback
      returns `ret(k)` at its `k`th firing. */
  function Firings(a: Setting, now: nat, ret: nat -> U32, k: nat, n: nat): seq<nat>
    decreases n
  {
    if n == 0 then [] else
    var counter := (now + 1) % W;
    if !Due(a, counter) then Firings(Cleared(a, counter), now + 1, ret, k, n - 1)
    else if ret(k) == 0 then [now + 1]
    else [now + 1] + Firings(Rearmed(a, counter, ret(k)), now + 1, ret, k + 1, n - 1)
  }

  /** What an unbounded timer would do: `fired` begins with `deadline` and each later
      entry comes exactly the period returned at the one before it; the list ends at
      `until`, or where a zero disarmed the alarm. */
  predicate OnTime(fired: seq<nat>, deadline: nat, ret: nat -> U32, k: nat, until: nat)
    decreases |fired|
  {
    if fired == [] then deadline > until
    else
      && fired[0] == deadline <= until
      && if ret(k) == 0 then |fired| == 1 else OnTime(fired[1..], deadline + ret(k), ret, k + 1, until)
  }

  /** The sum of the periods returned at firings `k` to `k + n - 1`. */
  function Periods(ret: nat -> U32, k: nat, n: nat): nat
    decreases n
  {
    if n == 0 then 0 else ret(k) + Periods(ret, k + 1, n - 1)
  }

  /** So the `i`th firing is at the first deadline plus the first `i` periods. */
  lemma {:induction false} OnTimeInFull(fired: seq<nat>, deadline: nat, ret: nat -> U32, k: nat, until: nat, i: nat)
    requires OnTime(fired, deadline, ret, k, until) && i < |fired|
    ensures fired[i] == deadline + Periods(ret, k, i)
    decreases i
  {
    if i > 0 {
      OnTimeInFull(fired[1..], deadline + ret(k), ret, k + 1, until, i - 1);
    }
  }

  /** The same while the alarm is still armed, at the tick `now`: no firing has returned zero,
      and the next is to come at `next`. */
  predicate Underway(fired: seq<nat>, deadline: nat, ret: nat -> U32, k: nat, now: nat, next: nat)
    decreases |fired|
  {
    if fired == [] then now < deadline == next
    else fired[0] == deadline <= now && ret(k) != 0 && Underway(fired[1..], deadline + ret(k), ret, k + 1, now, next)
  }

  lemma {:induction false} UnderwayIsOnTime(fired: seq<nat>, deadline: nat, ret: nat -> U32, k: nat,
                                            now: nat, next: nat)
    requires Underway(fired, deadline, ret, k, now, next)
    ensures OnTime(fired, deadline, ret, k, now) && now < next
    decreases |fired|
  {
    if fired != [] {
      UnderwayIsOnTime(fired[1..], deadline + ret(k), ret, k + 1, now, next);
    }
  }

  lemma {:induction false} UnderwayInFull(fired: seq<nat>, deadline: nat, ret: nat -> U32, k: nat,
                                          now: nat, next: nat)
    requires Underway(fired, deadline, ret, k, now, next)
    ensures next == deadline + Periods(ret, k, |fired|)
    decreases |fired|
  {
    if fired != [] {
      UnderwayInFull(fired[1..], deadline + ret(k), ret, k + 1, now, next);
    }
  }

  /** A tick at which it does not fire leaves it as it is; one at which it fires adds one
      firing, and the last one if that returns zero. */
  lemma {:induction false} UnderwayStep(fired: seq<nat>, deadline: nat, ret: nat -> U32, k: nat,
                                        now: nat, next: nat)
    requires Underway(fired, deadline, ret, k, now, next)
    ensures now + 1 != next ==> Underway(fired, deadline, ret, k, now + 1, next)
    ensures now + 1 == next ==> OnTime(fired + [now + 1], deadline, ret, k, now + 1)
    ensures now + 1 == next && ret(k + |fired|) != 0 ==>
              Underway(fired + [now + 1], deadline, ret, k, now + 1, next + ret(k + |fired|))
    decreases |fired|
  {
    var more := fired + [now + 1];
    if fired == [] {
      assert more == [now + 1] && more[1..] == [];
    } else {
      UnderwayStep(fired[1..], deadline + ret(k), ret, k + 1, now, next);
      assert more[1..] == fired[1..] + [now + 1];
    }
  }

  /** What the alarm is set to after a tick at which it stays silent, or fires and is
      given a new period. */
  function Next(a: Setting, now: nat, deadline: nat, p: U32): Setting {
    if now + 1 == deadline then Rearmed(a, (now + 1) % W, p) else Cleared(a, (now + 1) % W)
  }

  lemma FiringsStep(a: Setting, deadline: nat, now: nat, ret: nat -> U32, k: nat, n: nat)
    requires StandsFor(a, deadline, now) && n > 0
    ensures now + 1 != deadline ==>
              var a' := Next(a, now, deadline, 0);
              StandsFor(a', deadline, now + 1) && Firings(a, now, ret, k, n) == Firings(a', now + 1, ret, k, n - 1)
    ensures now + 1 == deadline && ret(k) == 0 ==> Firings(a, now, ret, k, n) == [now + 1]
    ensures now + 1 == deadline && ret(k) != 0 ==>
              var a' := Next(a, now, deadline, ret(k));
              && StandsFor(a', deadline + ret(k), now + 1)
              && Firings(a, now, ret, k, n) == [now + 1] + Firings(a', now + 1, ret, k + 1, n - 1)
  {
    TickIsExact(a, deadline, now);
    if now + 1 == deadline && ret(k) != 0 {
      RearmIsExact(a, now, ret(k));
    }
  }

  lemma {:induction false} FiringsAreOnTime(a: Setting, deadline: nat, now: nat, ret: nat -> U32, k: nat, n: nat)
    requires StandsFor(a, deadline, now)
    ensures OnTime(Firings(a, now, ret, k, n), deadline, ret, k, now + n)
    decreases n
  {
    if n > 0 {
      FiringsStep(a, deadline, now, ret, k, n);
      if now + 1 != deadline {
        FiringsAreOnTime(Next(a, now, deadline, 0), deadline, now + 1, ret, k, n - 1);
      } else if ret(k) != 0 {
        var a' := Next(a, now, deadline, ret(k));
        FiringsAreOnTime(a', deadline + ret(k), now + 1, ret, k + 1, n - 1);
        var rest := Firings(a', now + 1, ret, k + 1, n - 1);
        assert ([now + 1] + rest)[1..] == rest;
      }
    }
  }

  /** In the `n` ticks after a request made at `now`, the alarm fires first at
      now + nticks + 1 and then exactly `p` ticks after each firing that returned a
      period `p`, until one returns zero. */
  predicate Honoured(nticks: U32, now: nat, ret: nat -> U32, n: nat) {
    OnTime(Firings(Start(nticks, now % W), now, ret, 0, n), now + nticks + 1, ret, 0, now + n)
  }

  /** The wrapping counter and its flag implement an unbounded timer, across any number
      of wraps of the counter. */
  lemma AlarmIsIdealTimer(nticks: U32, now: nat, ret: nat -> U32, n: nat)
    requires nticks <= W - 2
    ensures Honoured(nticks, now, ret, n)
  {
    StartIsExact(nticks, now);
    FiringsAreOnTime(Start(nticks, now % W), now + nticks + 1, now, ret, 0, n);
  }

  /** The largest request makes the deadline equal to the counter itself. */
  lemma LargestRequest(now: nat)
    ensures Start(W - 1, now % W) == Setting(now % W, false)
  {
    assert (W - 1 + now % W + 1) % W == now % W;
  }

  /** Exactly which requests are honoured. The largest one fires on the very next tick,
      unless it was made with the counter at its own largest value; every other request
      is honoured whenever it is made. */
  lemma HonouredExactlyWhen(nticks: U32, now: nat, ret: nat -> U32)
    ensures (forall n: nat :: Honoured(nticks, now, ret, n)) <==> nticks <= W - 2 || now % W == W - 1
  {
    if nticks <= W - 2 {
      forall n: nat ensures Honoured(nticks, now, ret, n) {
        AlarmIsIdealTimer(nticks, now, ret, n);
      }
    } else if now % W == W - 1 {
      forall n: nat ensures Honoured(nticks, now, ret, n) {
        LargestAtTheWrap(now, ret, n);
      }
    } else {
      LargestIsEarly(now, ret);
    }
  }

  lemma LargestAtTheWrap(now: nat, ret: nat -> U32, n: nat)
    requires now % W == W - 1
    ensures Honoured(W - 1, now, ret, n)
  {
    var a := Start(W - 1, now % W);
    var first := now + W;
    LargestRequest(now);
    SumMod(1, now);
    Epochs(now + 1, first);
    assert first % W == now % W by { ShiftMod(now, 1); }
    if n > 0 {
      FiringsAreOnTime(a, first, now + 1, ret, 0, n - 1);
      assert Firings(a, now, ret, 0, n) == Firings(a, now + 1, ret, 0, n - 1);
    }
  }

  lemma LargestIsEarly(now: nat, ret: nat -> U32)
    requires now % W != W - 1
    ensures !Honoured(W - 1, now, ret, 1)
  {
    LargestRequest(now);
    SumMod(1, now);
    var early := Firings(Start(W - 1, now % W), now, ret, 0, 1);
    assert early[0] == now + 1;
  }
}
