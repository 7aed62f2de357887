/** Host presence, told from what happened: the activity at the connection and the checks. */
module UartPresence {
  import opened Ring
  import opened UartMachine
  import opened UartInvariant
  import opened UartTheorems

  lemma {:induction false} ExecAppends(m: Machine, acts: seq<Action>, a: Action)
    requires WellFormed(m)
    ensures Exec(m, acts + [a]) == Step(Exec(m, acts), a)
    decreases |acts|
  {
    if acts == [] {
      assert Exec(m, [a]) == Exec(Step(m, a), [][..]);
    } else {
      assert (acts + [a])[1..] == acts[1..] + [a];
      ExecAppends(Step(m, acts[0]), acts[1..], a);
    }
  }

  /** The `k`th action is a presence check that is really made: the alarm for it was started,
      and the interrupt routine is not in the way. */
  predicate IsCheck(alarmStarted: bool, acts: seq<Action>, k: nat) {
    k < |acts| && acts[k] == Main(Tick) && alarmStarted && After(alarmStarted, acts[..k]).isr == Idle
  }

  /** Before the `k`th action, and after the check that comes before it, if there is one, the
      host was active. */
  predicate ActiveBefore(alarmStarted: bool, acts: seq<Action>, k: nat) {
    exists h | 0 <= h < k && h < |acts| :: acts[h] == HostActivity && NoCheckFrom(alarmStarted, acts, h, k)
  }

  predicate NoCheckFrom(alarmStarted: bool, acts: seq<Action>, h: nat, k: nat) {
    forall i | h <= i < k :: !IsCheck(alarmStarted, acts, i)
  }

  /** The `k`th action is a check that finds the host active. */
  predicate FindsActive(alarmStarted: bool, acts: seq<Action>, k: nat) {
    IsCheck(alarmStarted, acts, k) && ActiveBefore(alarmStarted, acts, k)
  }

  /** The checks made since the last one that found the host active. */
  function QuietChecks(alarmStarted: bool, acts: seq<Action>): set<nat> {
    set k: nat | k < |acts| && IsCheck(alarmStarted, acts, k) && NoneActiveFrom(alarmStarted, acts, k)
  }

  predicate NoneActiveFrom(alarmStarted: bool, acts: seq<Action>, k: nat) {
    forall j: nat | k <= j < |acts| :: !FindsActive(alarmStarted, acts, j)
  }

  // ---------------------------------------------------------------- one action more

  lemma SameChecks(alarmStarted: bool, acts: seq<Action>, a: Action, k: nat)
    requires k < |acts|
    ensures IsCheck(alarmStarted, acts + [a], k) == IsCheck(alarmStarted, acts, k)
  {
    assert (acts + [a])[..k] == acts[..k];
  }

  lemma SameActivity(alarmStarted: bool, acts: seq<Action>, a: Action, k: nat)
    requires k <= |acts|
    ensures ActiveBefore(alarmStarted, acts + [a], k) == ActiveBefore(alarmStarted, acts, k)
  {
    hide IsCheck;
    forall i: nat | i < |acts| ensures IsCheck(alarmStarted, acts + [a], i) == IsCheck(alarmStarted, acts, i) {
      SameChecks(alarmStarted, acts, a, i);
    }
    assert forall h: nat | h < k :: (acts + [a])[h] == acts[h];
    forall h: nat | h < k
      ensures NoCheckFrom(alarmStarted, acts + [a], h, k) == NoCheckFrom(alarmStarted, acts, h, k)
    {}
  }

  lemma SameFinds(alarmStarted: bool, acts: seq<Action>, a: Action, k: nat)
    requires k < |acts|
    ensures FindsActive(alarmStarted, acts + [a], k) == FindsActive(alarmStarted, acts, k)
  {
    SameChecks(alarmStarted, acts, a, k);
    SameActivity(alarmStarted, acts, a, k);
  }

  /** What the last action does to the activity that the next check would find. */
  lemma ActivityNext(alarmStarted: bool, acts: seq<Action>, a: Action)
    ensures var longer, n := acts + [a], |acts|;
            ActiveBefore(alarmStarted, longer, n + 1)
            == (a == HostActivity || (ActiveBefore(alarmStarted, acts, n) && !IsCheck(alarmStarted, longer, n)))
  {
    hide IsCheck;
    var longer, n := acts + [a], |acts|;
    SameActivity(alarmStarted, acts, a, n);
    if a == HostActivity {
      NoCheckAtActivity(alarmStarted, longer, n);
      assert longer[n] == HostActivity && NoCheckFrom(alarmStarted, longer, n, n + 1);
    } else if ActiveBefore(alarmStarted, acts, n) && !IsCheck(alarmStarted, longer, n) {
      var h: nat :| h < n && longer[h] == HostActivity && NoCheckFrom(alarmStarted, longer, h, n);
      assert NoCheckFrom(alarmStarted, longer, h, n + 1);
    }
    if ActiveBefore(alarmStarted, longer, n + 1) {
      var h: nat :| h < n + 1 && longer[h] == HostActivity && NoCheckFrom(alarmStarted, longer, h, n + 1);
      if h < n {
        assert NoCheckFrom(alarmStarted, longer, h, n) && !IsCheck(alarmStarted, longer, n);
      }
    }
  }

  lemma NoCheckAtActivity(alarmStarted: bool, acts: seq<Action>, k: nat)
    requires k < |acts| && acts[k] == HostActivity
    ensures !IsCheck(alarmStarted, acts, k)
  {
  }

  /** What the last action does to the quiet checks. */
  lemma QuietNext(alarmStarted: bool, acts: seq<Action>, a: Action)
    ensures var longer, n := acts + [a], |acts|;
            QuietChecks(alarmStarted, longer)
            == if !IsCheck(alarmStarted, longer, n) then QuietChecks(alarmStarted, acts)
               else if ActiveBefore(alarmStarted, longer, n) then {}
               else QuietChecks(alarmStarted, acts) + {n}
  {
    hide IsCheck, ActiveBefore;
    var longer, n := acts + [a], |acts|;
    forall k: nat | k < n
      ensures IsCheck(alarmStarted, longer, k) == IsCheck(alarmStarted, acts, k)
      ensures FindsActive(alarmStarted, longer, k) == FindsActive(alarmStarted, acts, k)
    {
      SameChecks(alarmStarted, acts, a, k);
      SameFinds(alarmStarted, acts, a, k);
    }
    forall k: nat | k < n
      ensures NoneActiveFrom(alarmStarted, longer, k)
              == (NoneActiveFrom(alarmStarted, acts, k) && !FindsActive(alarmStarted, longer, n))
    {}
    assert NoneActiveFrom(alarmStarted, longer, n) == !FindsActive(alarmStarted, longer, n);
  }

  // ---------------------------------------------------------------- what the driver keeps

  /** Over every run the AC bit tells whether the next check finds activity, and the counter
      is the number of quiet checks, until it is full. */
  predicate Tells(alarmStarted: bool, acts: seq<Action>) {
    var s, quiet := After(alarmStarted, acts).s, |QuietChecks(alarmStarted, acts)|;
    && s.ctl.ac == ActiveBefore(alarmStarted, acts, |acts|)
    && s.host.alarm == alarmStarted
    && s.host.hostInactive == if quiet < INT_MAX - 2 then quiet else INT_MAX - 2
  }

  /** No step but a check touches the counter, and none but a check or activity the AC bit. */
  lemma OthersSpare(m: Machine, a: Action)
    requires WellFormed(m)
    ensures Step(m, a).s.host.alarm == m.s.host.alarm
    ensures a != HostActivity && a != Main(Tick) ==>
              Step(m, a).s.ctl.ac == m.s.ctl.ac && Step(m, a).s.host.hostInactive == m.s.host.hostInactive
  {
  }

  lemma TellsNext(alarmStarted: bool, acts: seq<Action>, a: Action)
    requires Tells(alarmStarted, acts)
    ensures Tells(alarmStarted, acts + [a])
  {
    hide ActiveBefore, QuietChecks, Boot, IsrMove, WriterMove, ReaderMove;
    var longer, n := acts + [a], |acts|;
    var m := After(alarmStarted, acts);
    ExecAppends(Boot(alarmStarted), acts, a);
    assert longer[..n] == acts;
    ActivityNext(alarmStarted, acts, a);
    QuietNext(alarmStarted, acts, a);
    SameActivity(alarmStarted, acts, a, n);
    OthersSpare(m, a);
    NotYetQuiet(alarmStarted, acts);
  }

  lemma NotYetQuiet(alarmStarted: bool, acts: seq<Action>)
    ensures |acts| !in QuietChecks(alarmStarted, acts)
  {
  }

  lemma {:induction false} AlwaysTells(alarmStarted: bool, acts: seq<Action>)
    ensures Tells(alarmStarted, acts)
    decreases |acts|
  {
    if acts == [] {
      assert QuietChecks(alarmStarted, []) == {};
    } else {
      var n := |acts| - 1;
      AlwaysTells(alarmStarted, acts[..n]);
      TellsNext(alarmStarted, acts[..n], acts[n]);
      assert acts[..n] + [acts[n]] == acts;
    }
  }

  /** The counter saturates, and "connected" is reported exactly while there are fewer than
      `timeout` quiet checks; INT_MAX - 1 and INT_MAX mean never disconnected. */
  lemma PresenceIsExact(alarmStarted: bool, acts: seq<Action>)
    ensures var h, quiet := After(alarmStarted, acts).s.host, |QuietChecks(alarmStarted, acts)|;
            && h.hostInactive == (if quiet < INT_MAX - 2 then quiet else INT_MAX - 2)
            && (h.timeout <= INT_MAX - 2 ==> (Connected(h) <==> quiet < h.timeout))
            && (h.timeout >= INT_MAX - 1 ==> Connected(h))
            && (h.alarm <==> h.timeout != INT_MAX) && (!h.alarm ==> h.hostInactive == 0)
  {
    hide QuietChecks;
    Reached(alarmStarted, acts);
    AlwaysTells(alarmStarted, acts);
  }
}
