/** The system clock: alarms on a circular doubly linked list that `alt_tick` walks
    while their callbacks take them off it and start others. */
module AlarmClock {
  import opened Words
  import opened Ticks

  const EINVAL := 22
  const ENOTSUP := 134

  /** An alarm and, in its first two fields, its place in a list. The list head is one of
      these too; only its links are ever used. */
  class Alarm {
    var next: Alarm?
    var previous: Alarm?
    var time: U32
    var rollover: bool
    var callback: nat -> Effect  // what the callback does at each of its calls
    var calls: nat
    // what an unbounded counter would tell of it since it was last started
    ghost var deadline: nat      // the tick that `time` stands for
    ghost var started: nat       // the tick of that start
    ghost var first: nat         // the tick asked for then
    ghost var fired: seq<nat>    // the ticks at which it has been called

    constructor ()
      ensures next == null && previous == null
    {
      next, previous := null, null;
      time, rollover, calls := 0, false, 0;
      deadline, started, first, fired := 0, 0, 0, [];
      callback := k => Effect(0, []);
    }

    /** All of the alarm but its links. */
    ghost function Self(): State
      reads `time, `rollover, `callback, `calls, `deadline, `started, `first, `fired
    {
      State(Setting(time, rollover), callback, calls, deadline, started, first, fired)
    }
  }

  /** What a call of a callback does: it starts alarms, one after another, and returns a
      period. */
  datatype Effect = Effect(period: U32, starts: seq<Request>)

  /** The arguments of a call of `alt_alarm_start`. */
  datatype Request = Request(alarm: Alarm, nticks: U32, callback: nat -> Effect)

  datatype State = State(setting: Setting, callback: nat -> Effect, calls: nat,
                         deadline: nat, started: nat, first: nat, fired: seq<nat>)

  /** A call of a callback, at a tick. */
  datatype CallAt = CallAt(alarm: Alarm, tick: nat)

  /** The periods that a callback returns. */
  function Returns(callback: nat -> Effect): nat -> U32 {
    k => callback(k).period
  }

  /** The ticks after `since` at which the log calls the alarm. */
  function Fired(log: seq<CallAt>, alarm: Alarm, since: nat): seq<nat> {
    if log == [] then []
    else
      var last := log[|log| - 1];
      Fired(log[..|log| - 1], alarm, since) + if last.alarm == alarm && last.tick > since then [last.tick] else []
  }

  /** What a call of `alt_alarm_start` makes of an alarm. */
  function Begun(r: Request, counter: U32, now: nat): State {
    State(Start(r.nticks, counter), r.callback, 0, now + r.nticks + 1, now, now + r.nticks + 1, [])
  }

  /** The setting stands for the deadline, and the deadline is where an unbounded timer would
      be, after having called the alarm whenever it was called. */
  predicate OnSchedule(a: State, now: nat) {
    && StandsFor(a.setting, a.deadline, now) && a.started <= now && a.calls == |a.fired|
    && Underway(a.fired, a.first, Returns(a.callback), 0, now, a.deadline)
  }

  /** The alarm is due when the counter reads `counter`, and its callback will return zero. */
  predicate Leaves(a: State, counter: U32) {
    Due(a.setting, counter) && a.callback(a.calls).period == 0
  }

  /** What its call makes of an alarm. */
  function Rested(a: State, counter: U32, now: nat): State {
    var p := a.callback(a.calls).period;
    var called := a.(calls := a.calls + 1, fired := a.fired + [now]);
    if p == 0 then called else called.(setting := Rearmed(a.setting, counter, p), deadline := now + p)
  }

  /** What one turn in `alt_tick` makes of an alarm. */
  function Served(a: State, counter: U32, now: nat): State {
    var cleared := a.(setting := Cleared(a.setting, counter));
    if Due(a.setting, counter) then Rested(cleared, counter, now) else cleared
  }

  /** A tick, for an alarm in the state `a`: the call at its deadline sets the next one, if the
      period returned is not zero, exactly that far off; before its deadline nothing changes. */
  ghost predicate TurnTaken(a: State, a': State, now: nat) {
    && a'.callback == a.callback && a'.started == a.started && a'.first == a.first
    && if now != a.deadline then a'.deadline == a.deadline && a'.calls == a.calls
       else
         var p := a.callback(a.calls).period;
         a'.calls == a.calls + 1 && (p != 0 ==> a'.deadline == now + p)
  }

  /** An alarm on schedule has its turn exactly on its deadline, has then been called when an
      unbounded timer would have called it, and unless it left it is on schedule for its next
      turn. */
  lemma ServedOnSchedule(a: State, now: nat)
    requires OnSchedule(a, now)
    ensures Due(a.setting, (now + 1) % W) <==> now + 1 == a.deadline
    ensures var a' := Served(a, (now + 1) % W, now + 1);
            && OnTime(a'.fired, a.first, Returns(a.callback), 0, now + 1)
            && a'.fired == a.fired + (if now + 1 == a.deadline then [now + 1] else [])
            && (!Leaves(a, (now + 1) % W) ==> OnSchedule(a', now + 1))
  {
    hide StandsFor, Due, Cleared, Rearmed, Underway, OnTime;
    var ret := Returns(a.callback);
    TickIsExact(a.setting, a.deadline, now);
    UnderwayStep(a.fired, a.first, ret, 0, now, a.deadline);
    if now + 1 != a.deadline {
      UnderwayIsOnTime(a.fired, a.first, ret, 0, now + 1, a.deadline);
    } else if a.callback(a.calls).period != 0 {
      ClearedFirst(a.setting, (now + 1) % W, a.callback(a.calls).period);
      RearmIsExact(a.setting, now, a.callback(a.calls).period);
    }
  }

  lemma ClearedFirst(a: Setting, counter: U32, p: U32)
    ensures Rearmed(Cleared(a, counter), counter, p) == Rearmed(a, counter, p)
  {
  }

  /** The alarms that are started in the alarm's turn. */
  function Asked(a: State, counter: U32): seq<Request> {
    if Due(a.setting, counter) then a.callback(a.calls).starts else []
  }

  /** The alarms that are started in the turns of a list, whose first is the head. */
  function AllAsked(was: seq<State>, counter: U32): seq<Request> {
    if |was| <= 1 then []
    else AllAsked(was[..|was| - 1], counter) + Asked(was[|was| - 1], counter)
  }

  ghost function Alarms(reqs: seq<Request>): set<Alarm> {
    set r | r in reqs :: r.alarm
  }

  /** What the requests put at the front of a list: the last comes first. */
  function Entries(reqs: seq<Request>): (e: seq<Alarm>)
    ensures |e| == |reqs|
  {
    if reqs == [] then [] else Entries(reqs[1..]) + [reqs[0].alarm]
  }

  lemma EntriesOfNone()
    ensures Entries([]) == []
  {
  }

  lemma {:induction false} EntriesAre(reqs: seq<Request>)
    ensures forall a | a in Entries(reqs) :: exists r :: r in reqs && r.alarm == a
    ensures forall r | r in reqs :: r.alarm in Entries(reqs)
  {
    if reqs != [] {
      EntriesAre(reqs[1..]);
      assert reqs == [reqs[0]] + reqs[1..];
      forall a | a in Entries(reqs) ensures exists r :: r in reqs && r.alarm == a {
        if a in Entries(reqs[1..]) {
          var r :| r in reqs[1..] && r.alarm == a;
          assert r in reqs;
        } else {
          assert reqs[0].alarm == a && reqs[0] in reqs;
        }
      }
    }
  }

  /** One more request puts one more alarm at the front. */
  lemma EntriesMore(reqs: seq<Request>, j: nat)
    requires j < |reqs|
    ensures Entries(reqs[..j + 1]) == [reqs[j].alarm] + Entries(reqs[..j])
  {
    EntriesJoin(reqs[..j], [reqs[j]]);
    assert reqs[..j] + [reqs[j]] == reqs[..j + 1] && [reqs[j]][1..] == [];
    assert Entries([reqs[j]]) == [] + [reqs[j].alarm];
  }

  lemma {:induction false} EntriesJoin(p: seq<Request>, q: seq<Request>)
    ensures Entries(p + q) == Entries(q) + Entries(p)
  {
    if p == [] {
      assert p + q == q;
    } else {
      assert (p + q)[1..] == p[1..] + q;
      EntriesJoin(p[1..], q);
    }
  }

  /** While alarms are being started there is nobody on the list who was not there or among
      them, and the next of them is not yet there. */
  lemma GrownMembers(ring: seq<Alarm>, reqs: seq<Request>, j: nat)
    requires ring != [] && Apart(ring, reqs) && j < |reqs|
    ensures var grown := [ring[0]] + Entries(reqs[..j]) + ring[1..];
            reqs[j].alarm !in grown && forall a | a in grown :: a in ring || a in Alarms(reqs)
  {
    EntriesAre(reqs[..j]);
    assert forall i | 0 <= i < j :: reqs[..j][i] == reqs[i];
  }

  lemma AllDifferent(ring: seq<Alarm>, reqs: seq<Request>, j: nat)
    requires Apart(ring, reqs) && j < |reqs|
    ensures forall i | 0 <= i < j :: reqs[i].alarm != reqs[j].alarm
  {
  }

  /** What has been started is not an alarm of the list, and nothing else is new there. */
  lemma StrangersOnly(ring: seq<Alarm>, reqs: seq<Request>, alarm: Alarm)
    requires ring != [] && Apart(ring, reqs) && alarm in ring
    ensures forall r | r in reqs :: r.alarm != alarm
    ensures forall a | a in [ring[0]] + Entries(reqs) + ring[1..] :: a in ring || a in Alarms(reqs)
  {
    EntriesAre(reqs);
  }

  /** Requests for different alarms, none of them on the list. */
  ghost predicate Apart(ring: seq<Alarm>, reqs: seq<Request>) {
    && (forall r | r in reqs :: r.alarm !in ring)
    && (forall i, j | 0 <= i < j < |reqs| :: reqs[i].alarm != reqs[j].alarm)
  }

  predicate Distinct(s: seq<Alarm>) {
    forall i, j | 0 <= i < j < |s| :: s[i] != s[j]
  }

  /** `ring` is a well-formed circular list, in this order. */
  ghost predicate Linked(ring: seq<Alarm>)
    reads ring`next, ring`previous
  {
    && Distinct(ring)
    && (forall i {:trigger ring[i].next} | 0 <= i < |ring| - 1 :: ring[i].next == ring[i + 1])
    && (forall i {:trigger ring[i].previous} | 0 < i < |ring| :: ring[i].previous == ring[i - 1])
    && (ring != [] ==> ring[|ring| - 1].next == ring[0] && ring[0].previous == ring[|ring| - 1])
  }

  ghost predicate Alone(a: Alarm)
    reads a
  {
    a.next == a && a.previous == a
  }

  /** `alt_llist_insert`: the entry becomes the first of the list. */
  method Insert(list: Alarm, entry: Alarm, ghost ring: seq<Alarm>)
    requires Linked(ring) && ring != [] && ring[0] == list && entry !in ring
    modifies entry`next, entry`previous, ring`next, ring`previous
    ensures Linked([list, entry] + ring[1..])
  {
    ghost var longer := [list, entry] + ring[1..];
    ghost var n := |ring|;
    assert list.next == ring[if n > 1 then 1 else 0] && list.next in ring;
    entry.previous := list;
    entry.next := list.next;
    list.next.previous := entry;
    list.next := entry;
    assert forall i | 2 <= i <= n :: longer[i] == ring[i - 1];
    assert forall i | 2 <= i < n :: longer[i].next == longer[i + 1];
    assert forall i | 3 <= i <= n :: longer[i].previous == longer[i - 1];
  }

  /** The list without its `k`th entry. */
  ghost function Without(ring: seq<Alarm>, k: nat): seq<Alarm>
    requires k < |ring|
  {
    ring[..k] + ring[k + 1..]
  }

  /** `alt_llist_remove`: takes the entry, the `k`th of `ring`, out of its list and leaves
      it linked to itself, so that it can be removed again: on an entry that is on no list
      (no `ring`) this changes nothing. */
  method Remove(entry: Alarm, ghost ring: seq<Alarm>, ghost k: nat)
    requires if ring == [] then Alone(entry) else Linked(ring) && 0 < k < |ring| && ring[k] == entry
    modifies entry`next, entry`previous, ring`next, ring`previous
    ensures Alone(entry) && (ring != [] ==> Linked(Without(ring, k)))
  {
    ghost var n := |ring|;
    assert n > 0 ==> entry.previous == ring[k - 1] && entry.next == ring[if k + 1 < n then k + 1 else 0];
    entry.next.previous := entry.previous;
    entry.previous.next := entry.next;
    entry.previous := entry;
    entry.next := entry;
    if ring != [] {
      ghost var shorter := Without(ring, k);
      assert forall i | 0 <= i < k :: shorter[i] == ring[i];
      assert forall i | k <= i < n - 1 :: shorter[i] == ring[i + 1];
    }
  }

  /** Those entries of `s` whose flag is set, in order. */
  function Pick<T>(s: seq<T>, flags: seq<bool>): (r: seq<T>)
    requires |s| == |flags|
    ensures |r| <= |s|
  {
    if s == [] then []
    else
      var n := |s| - 1;
      Pick(s[..n], flags[..n]) + if flags[n] then [s[n]] else []
  }

  lemma {:induction false} PickMembers<T>(s: seq<T>, flags: seq<bool>)
    requires |s| == |flags|
    ensures forall x | x in Pick(s, flags) :: exists j :: 0 <= j < |s| && s[j] == x && flags[j]
    ensures forall j | 0 <= j < |s| :: flags[j] ==> s[j] in Pick(s, flags)
  {
    if s != [] {
      var n := |s| - 1;
      PickMembers(s[..n], flags[..n]);
      forall x | x in Pick(s, flags) ensures exists j :: 0 <= j < |s| && s[j] == x && flags[j] {
        if x in Pick(s[..n], flags[..n]) {
          var j :| 0 <= j < n && s[..n][j] == x && flags[..n][j];
          assert s[j] == x && flags[j];
        } else {
          assert s[n] == x && flags[n];
        }
      }
      forall j | 0 <= j < |s| && flags[j] ensures s[j] in Pick(s, flags) {
        if j < n { assert s[..n][j] in Pick(s[..n], flags[..n]); }
      }
    }
  }

  lemma PickNext<T>(s: seq<T>, flags: seq<bool>, i: nat)
    requires |s| == |flags| && i < |s|
    ensures Pick(s[..i + 1], flags[..i + 1]) == Pick(s[..i], flags[..i]) + if flags[i] then [s[i]] else []
  {
    assert s[..i + 1][..i] == s[..i] && flags[..i + 1][..i] == flags[..i];
  }

  lemma NextOnRing(ring: seq<Alarm>, k: nat)
    requires Linked(ring) && k < |ring|
    ensures ring[k].next == ring[if k + 1 < |ring| then k + 1 else 0]
  {
  }

  /** The walk has come to the `i`th of `all`: those before it that stay, then it and the
      rest. */
  function Base(all: seq<Alarm>, i: nat, stay: seq<bool>): seq<Alarm>
    requires i <= |all| == |stay|
  {
    Pick(all[..i], stay[..i]) + all[i..]
  }

  /** A list with newcomers behind its head. */
  function WithNews(base: seq<Alarm>, news: seq<Alarm>): seq<Alarm>
    requires base != []
  {
    [base[0]] + news + base[1..]
  }

  /** On the ring are the head, whoever was started meanwhile, and then the others of Base. */
  predicate AtTurn(ring: seq<Alarm>, all: seq<Alarm>, i: nat, stay: seq<bool>, news: seq<Alarm>) {
    i <= |all| == |stay| && Base(all, i, stay) != [] && ring == WithNews(Base(all, i, stay), news)
  }

  lemma BaseNext(all: seq<Alarm>, i: nat, stay: seq<bool>)
    requires i < |all| == |stay|
    ensures var base, k := Base(all, i, stay), |Pick(all[..i], stay[..i])|;
            && k < |base| && base[k] == all[i]
            && (k + 1 < |base| <==> i + 1 < |all|) && (i + 1 < |all| ==> base[k + 1] == all[i + 1])
            && Base(all, i + 1, stay) == (if stay[i] then base else Without(base, k))
  {
    PickNext(all, stay, i);
    var before := Pick(all[..i], stay[..i]);
    assert all[i..] == [all[i]] + all[i + 1..];
    assert before + [all[i]] + all[i + 1..] == before + all[i..];
  }

  /** The `k`th of the list, behind `news`, and the list with it taken out. */
  lemma BehindNews(base: seq<Alarm>, news: seq<Alarm>, k: nat)
    requires 0 < k < |base|
    ensures var ring, n := WithNews(base, news), k + |news|;
            && |ring| == |base| + |news| && n < |ring| && ring[n] == base[k] && ring[0] == base[0]
            && (k + 1 < |base| ==> ring[n + 1] == base[k + 1])
            && Without(base, k) != [] && Without(ring, n) == WithNews(Without(base, k), news)
  {
    var ring, n := WithNews(base, news), k + |news|;
    assert Without(base, k)[1..] == base[1..k] + base[k + 1..];
    assert ring[..n] == [base[0]] + news + base[1..k];
    assert ring[n + 1..] == base[k + 1..];
  }

  lemma MoreNews(base: seq<Alarm>, news: seq<Alarm>, e: seq<Alarm>)
    requires base != []
    ensures WithNews(base, news) != [] && [base[0]] + e + WithNews(base, news)[1..] == WithNews(base, e + news)
  {
    assert WithNews(base, news)[1..] == news + base[1..];
  }

  /** An alarm that has left is not among the others, and nothing else came among them. */
  lemma GoneIsOff(all: seq<Alarm>, i: nat, stay: seq<bool>)
    requires i <= |all| == |stay| && Distinct(all)
    ensures forall j | 0 <= j < i :: !stay[j] ==> all[j] !in Base(all, i, stay)
    ensures forall a | a in Base(all, i, stay) :: a in all
    ensures forall j | 0 <= j < i :: stay[j] ==> all[j] in Pick(all[..i], stay[..i])
  {
    PickMembers(all[..i], stay[..i]);
    forall a | a in Base(all, i, stay) ensures a in all {
      if a in Pick(all[..i], stay[..i]) {
        var j :| 0 <= j < i && all[..i][j] == a && stay[..i][j];
        assert a == all[j];
      }
    }
    forall j | 0 <= j < i && !stay[j] ensures all[j] !in Base(all, i, stay) {
      assert forall h | 0 <= h < i && stay[..i][h] :: all[..i][h] != all[j];
    }
    forall j | 0 <= j < i && stay[j] ensures all[j] in Pick(all[..i], stay[..i]) {
      assert all[..i][j] == all[j] && stay[..i][j];
    }
  }

  lemma NewsMembers(base: seq<Alarm>, news: seq<Alarm>)
    requires base != []
    ensures forall a :: a in WithNews(base, news) <==> a in base || a in news
  {
    assert base == [base[0]] + base[1..];
  }

  /** Where the `i`th alarm is on the ring, and what comes behind it. */
  lemma TurnFacts(ring: seq<Alarm>, all: seq<Alarm>, i: nat, stay: seq<bool>, news: seq<Alarm>)
    requires Linked(ring) && AtTurn(ring, all, i, stay, news) && 0 < i < |all| && stay[0] && Distinct(all)
    requires ring != [] && ring[0] == all[0] && forall a :: a in news ==> a !in all
    ensures var k := |Pick(all[..i], stay[..i])| + |news|;
            && 0 < k < |ring| && ring[k] == all[i]
            && all[i].next == (if i + 1 < |all| then all[i + 1] else all[0])
    ensures forall a | a in ring :: a in all || a in news
    ensures forall j | 0 <= j < i :: !stay[j] ==> all[j] !in ring
  {
    var base, k := Base(all, i, stay), |Pick(all[..i], stay[..i])|;
    BaseNext(all, i, stay);
    GoneIsOff(all, i, stay);
    BehindNews(base, news, k);
    NewsMembers(base, news);
    NextOnRing(ring, k + |news|);
  }

  lemma HeadStays(all: seq<Alarm>, i: nat, stay: seq<bool>)
    requires 0 < i <= |all| == |stay| && stay[0] && Distinct(all)
    ensures |Pick(all[..i], stay[..i])| > 0
  {
    GoneIsOff(all, i, stay);
  }

  /** What the ring is when the `i`th alarm has had its turn and started `e`. */
  lemma TurnOver(ring: seq<Alarm>, all: seq<Alarm>, i: nat, stay: seq<bool>, news: seq<Alarm>, e: seq<Alarm>)
    requires AtTurn(ring, all, i, stay, news) && 0 < i < |all| && stay[0] && Distinct(all)
    ensures ring != []
    ensures var grown, k := [ring[0]] + e + ring[1..], |Pick(all[..i], stay[..i])| + |news| + |e|;
            && k < |grown|
            && AtTurn(if stay[i] then grown else Without(grown, k), all, i + 1, stay, e + news)
  {
    hide Distinct, Pick, Base, WithNews, Without;
    var base, k := Base(all, i, stay), |Pick(all[..i], stay[..i])|;
    BaseNext(all, i, stay);
    HeadStays(all, i, stay);
    BehindNews(base, news, k);
    MoreNews(base, news, e);
    BehindNews(base, e + news, k);
  }

  lemma ApartFromRing(ring: seq<Alarm>, all: seq<Alarm>, news: seq<Alarm>, reqs: seq<Request>)
    requires Apart(all, reqs) && (forall r | r in reqs :: r.alarm !in news)
    requires forall a | a in ring :: a in all || a in news
    ensures Apart(ring, reqs)
  {
  }

  lemma WalkStarts(all: seq<Alarm>, due: seq<bool>, stay: seq<bool>)
    requires 0 < |all| == |stay| == |due| && stay[0] && !due[0]
    ensures AtTurn(all, all, 1, stay, []) && Pick(all[..1], due[..1]) == []
  {
    PickNext(all, stay, 0);
    PickNext(all, due, 0);
    assert all == [all[0]] + all[1..];
  }

  lemma WalkEnds(ring: seq<Alarm>, all: seq<Alarm>, due: seq<bool>, stay: seq<bool>, news: seq<Alarm>)
    requires AtTurn(ring, all, |all|, stay, news) && |due| == |all|
    ensures Pick(all, stay) != [] && ring == WithNews(Pick(all, stay), news)
    ensures Pick(all[..|all|], due[..|all|]) == Pick(all, due)
  {
    assert all[..|all|] == all && stay[..|all|] == stay && due[..|all|] == due && all[|all|..] == [];
    assert Base(all, |all|, stay) == Pick(all, stay);
  }

  /** Which of the ring are called when the counter reads `counter`; the first is the head. */
  function DueFlags(was: seq<State>, counter: U32): seq<bool> {
    seq(|was|, j requires 0 <= j < |was| => j > 0 && Due(was[j].setting, counter))
  }

  /** Which of the ring stay: the head, and whoever is not called or does not return zero. */
  function StayFlags(was: seq<State>, counter: U32): seq<bool> {
    seq(|was|, j requires 0 <= j < |was| => j == 0 || !Leaves(was[j], counter))
  }

  /** Which of the ring have their deadline at the tick `now`. */
  function DeadlineFlags(was: seq<State>, now: nat): seq<bool> {
    seq(|was|, j requires 0 <= j < |was| => j > 0 && was[j].deadline == now)
  }

  /** Alarms on schedule are due exactly at their deadlines. */
  lemma DueAtDeadline(was: seq<State>, now: nat)
    requires forall j | 0 < j < |was| :: OnSchedule(was[j], now)
    ensures DueFlags(was, (now + 1) % W) == DeadlineFlags(was, now + 1)
  {
    forall j | 0 < j < |was| ensures Due(was[j].setting, (now + 1) % W) <==> was[j].deadline == now + 1 {
      ServedOnSchedule(was[j], now);
    }
  }

  /** The requests of the first `i` turns and those of the `i`th concern different alarms,
      which are not on the list. */
  lemma AskedApart(all: seq<Alarm>, was: seq<State>, i: nat, counter: U32)
    requires Apart(all, AllAsked(was, counter)) && 0 < i < |was|
    ensures AllAsked(was[..i + 1], counter) == AllAsked(was[..i], counter) + Asked(was[i], counter)
    ensures Apart(all, AllAsked(was[..i], counter)) && Apart(all, Asked(was[i], counter))
    ensures forall p, q | p in AllAsked(was[..i], counter) && q in Asked(was[i], counter) :: p.alarm != q.alarm
    ensures Alarms(AllAsked(was[..i], counter)) <= Alarms(AllAsked(was, counter))
    ensures Alarms(Asked(was[i], counter)) <= Alarms(AllAsked(was, counter))
  {
    assert was[..i + 1][..i] == was[..i];
    AskedPrefix(was, i + 1, counter);
    var p, q := AllAsked(was[..i], counter), Asked(was[i], counter);
    ApartParts(all, p, q, AllAsked(was, counter));
  }

  lemma {:induction false} AskedPrefix(was: seq<State>, i: nat, counter: U32)
    requires 0 < i <= |was|
    ensures AllAsked(was[..i], counter) <= AllAsked(was, counter)
  {
    if i < |was| {
      assert was[..|was| - 1][..i] == was[..i];
      AskedPrefix(was[..|was| - 1], i, counter);
    } else {
      assert was[..i] == was;
    }
  }

  lemma ApartParts(ring: seq<Alarm>, p: seq<Request>, q: seq<Request>, reqs: seq<Request>)
    requires Apart(ring, reqs) && p + q <= reqs
    ensures Apart(ring, p) && Apart(ring, q) && Alarms(q) <= Alarms(reqs) && Alarms(p) <= Alarms(reqs)
    ensures forall x, y | x in p && y in q :: x.alarm != y.alarm
  {
    assert forall i | 0 <= i < |p| :: p[i] == reqs[i];
    assert forall i | 0 <= i < |q| :: q[i] == reqs[|p| + i];
  }

  /** The calls of these alarms at one tick. */
  function CallsAt(s: seq<Alarm>, tick: nat): (r: seq<CallAt>)
    ensures |r| == |s|
  {
    seq(|s|, i requires 0 <= i < |s| => CallAt(s[i], tick))
  }

  /** No call is later than `now`. */
  ghost predicate Past(log: seq<CallAt>, now: nat) {
    forall i | 0 <= i < |log| :: log[i].tick <= now
  }

  lemma {:induction false} NotFiredYet(log: seq<CallAt>, alarm: Alarm, now: nat)
    requires Past(log, now)
    ensures Fired(log, alarm, now) == []
  {
    if log != [] {
      assert log[|log| - 1].tick <= now;
      NotFiredYet(log[..|log| - 1], alarm, now);
    }
  }

  lemma {:induction false} FiredJoin(p: seq<CallAt>, q: seq<CallAt>, alarm: Alarm, since: nat)
    ensures Fired(p + q, alarm, since) == Fired(p, alarm, since) + Fired(q, alarm, since)
  {
    if q == [] {
      assert p + q == p;
    } else {
      var n := |q| - 1;
      assert (p + q)[..|p + q| - 1] == p + q[..n];
      FiredJoin(p, q[..n], alarm, since);
    }
  }

  /** At one tick the `j`th of a list is called once if it is due, and else not. */
  lemma {:induction false} FiredAt(all: seq<Alarm>, due: seq<bool>, tick: nat, j: nat, since: nat)
    requires Distinct(all) && j < |all| == |due| && since < tick
    ensures Fired(CallsAt(Pick(all, due), tick), all[j], since) == if due[j] then [tick] else []
  {
    FiredUpTo(all, due, tick, j, since, |all|);
    assert all[..|all|] == all && due[..|all|] == due;
  }

  lemma {:induction false} FiredUpTo(all: seq<Alarm>, due: seq<bool>, tick: nat, j: nat, since: nat, i: nat)
    requires Distinct(all) && j < |all| == |due| && since < tick && i <= |all|
    ensures Fired(CallsAt(Pick(all[..i], due[..i]), tick), all[j], since) == if j < i && due[j] then [tick] else []
  {
    hide Fired, CallsAt, Pick;
    if i == 0 {
      NobodyFired(all[..0], due[..0], tick, all[j], since);
    } else {
      FiredUpTo(all, due, tick, j, since, i - 1);
      PickNext(all, due, i - 1);
      var before, more := Pick(all[..i - 1], due[..i - 1]), if due[i - 1] then [all[i - 1]] else [];
      CallsJoin(before, more, tick);
      FiredJoin(CallsAt(before, tick), CallsAt(more, tick), all[j], since);
      FiredOnce(all[i - 1], due[i - 1], tick, all[j], since);
    }
  }

  lemma NobodyFired(none: seq<Alarm>, flags: seq<bool>, tick: nat, alarm: Alarm, since: nat)
    requires none == [] && flags == []
    ensures Fired(CallsAt(Pick(none, flags), tick), alarm, since) == []
  {
  }

  lemma CallsJoin(p: seq<Alarm>, q: seq<Alarm>, tick: nat)
    ensures CallsAt(p + q, tick) == CallsAt(p, tick) + CallsAt(q, tick)
  {
  }

  lemma CallsOfOne(alarm: Alarm, tick: nat)
    ensures CallsAt([alarm], tick) == [CallAt(alarm, tick)] && CallsAt([], tick) == []
  {
  }

  lemma PastJoin(log: seq<CallAt>, s: seq<Alarm>, now: nat)
    requires Past(log, now)
    ensures Past(log + CallsAt(s, now + 1), now + 1)
  {
    var longer := log + CallsAt(s, now + 1);
    assert forall i | 0 <= i < |log| :: longer[i] == log[i];
    assert forall i | |log| <= i < |longer| :: longer[i] == CallsAt(s, now + 1)[i - |log|];
  }

  lemma FiredOnce(called: Alarm, due: bool, tick: nat, alarm: Alarm, since: nat)
    requires since < tick
    ensures Fired(CallsAt(if due then [called] else [], tick), alarm, since)
            == if due && called == alarm then [tick] else []
  {
    CallsOfOne(called, tick);
    var log := [CallAt(called, tick)];
    assert log[..0] == [];
    assert Fired(log, alarm, since) == Fired(log[..0], alarm, since) + if called == alarm then [tick] else [];
  }

  class Clock {
    var tickRate: U32
    var nticks: U32
    const head: Alarm
    ghost var now: nat          // the ticks since reset, without wrapping
    ghost var ring: seq<Alarm>  // the list head and the registered alarms, in list order
    ghost var log: seq<CallAt>  // every call of a callback, in the order they were made

    ghost predicate Valid()
      reads this, ring`next, ring`previous
    {
      ring != [] && ring[0] == head && Linked(ring) && nticks == now % W && (|ring| > 1 ==> tickRate != 0)
    }

    /** Since it was last started the alarm has been called when an unbounded timer would have
        called it: first after the ticks asked for, and then after each period that its
        callback returned. */
    ghost predicate KeptTime(a: Alarm)
      reads this, a
    {
      OnTime(Fired(log, a, a.started), a.first, Returns(a.callback), 0, now)
    }

    /** What the log tells of the alarm is what the alarm says. */
    ghost predicate Recorded(a: Alarm)
      reads this, a`fired, a`started
    {
      a.fired == Fired(log, a, a.started)
    }

    /** Every registered alarm is on schedule. */
    ghost predicate Punctual()
      reads this, ring
    {
      && Past(log, now)
      && (forall a | a in ring && a != head :: OnSchedule(a.Self(), now) && Recorded(a))
    }

    /** So every registered alarm has been called on time so far, and is to be called next at
        its deadline, which its truncated time and flag stand for. */
    lemma CallsAreOnTime(a: Alarm)
      requires Punctual() && a in ring && a != head
      ensures KeptTime(a) && now < a.deadline && StandsFor(Setting(a.time, a.rollover), a.deadline, now)
      ensures a.deadline == a.first + Periods(Returns(a.callback), 0, |Fired(log, a, a.started)|)
    {
      hide StandsFor;
      UnderwayIsOnTime(a.fired, a.first, Returns(a.callback), 0, now, a.deadline);
      UnderwayInFull(a.fired, a.first, Returns(a.callback), 0, now, a.deadline);
    }

    constructor (rate: U32)
      ensures Valid() && Punctual() && ring == [head] && now == 0 && tickRate == rate
    {
      head := new Alarm();
      tickRate, nticks, now, ring, log := rate, 0, 0, [head], [];
      new;
      head.next, head.previous := head, head;
    }

    /** Set the alarm, but for its place in a list. */
    method Begin(alarm: Alarm, n: U32, callback: nat -> Effect)
      requires nticks == now % W
      modifies alarm`callback, alarm`calls, alarm`time, alarm`rollover
      modifies alarm`deadline, alarm`first, alarm`started, alarm`fired
      ensures alarm.Self() == Begun(Request(alarm, n, callback), nticks, now)
      ensures n <= W - 2 ==> OnSchedule(alarm.Self(), now)
    {
      hide StandsFor;
      alarm.callback := callback;
      alarm.calls := 0;
      var current := nticks;
      alarm.time := (n + current + 1) % W;
      alarm.rollover := alarm.time < current;
      alarm.deadline, alarm.first, alarm.started, alarm.fired := now + n + 1, now + n + 1, now, [];
      if n <= W - 2 { StartIsExact(n, now); }
    }

    /** `alt_alarm_start` */
    method Start(alarm: Alarm?, n: U32, callback: nat -> Effect) returns (rc: int)
      requires Valid() && (alarm != null ==> alarm !in ring)
      modifies `ring, alarm, ring`next, ring`previous
      ensures Valid()
      ensures rc == if tickRate == 0 then -ENOTSUP else if alarm == null then -EINVAL else 0
      ensures rc != 0 ==> ring == old(ring)
      ensures rc == 0 ==>
                && ring == [head, alarm] + old(ring[1..])
                && alarm.Self() == Begun(Request(alarm, n, callback), nticks, now)
                && alarm.deadline == alarm.first == now + n + 1 && alarm.started == now && alarm.callback == callback
                && (n <= W - 2 ==> OnSchedule(alarm.Self(), now))
      ensures old(Punctual()) && n <= W - 2 ==> Punctual()
    {
      hide Linked, OnSchedule, Fired, Past;
      if tickRate != 0 {
        if alarm != null {
          Begin(alarm, n, callback);
          Insert(head, alarm, ring);
          ghost var entry: Alarm := alarm;
          ring := [head, entry] + ring[1..];
          if old(Punctual()) { NotFiredYet(log, entry, now); }
          forall a | a in ring && a != head && a != alarm ensures a in old(ring) && a.Self() == old(a.Self()) {}
          return 0;
        } else {
          return -EINVAL;
        }
      } else {
        return -ENOTSUP;
      }
    }

    /** `alt_alarm_stop`, on the `k`th of the ring or on an alarm already stopped. */
    method Stop(alarm: Alarm, ghost k: nat)
      requires Valid() && if alarm in ring then 0 < k < |ring| && ring[k] == alarm else Alone(alarm)
      modifies `ring, alarm`next, alarm`previous, ring`next, ring`previous
      ensures Valid() && Alone(alarm)
      ensures ring == if old(alarm in ring) then old(Without(ring, k)) else old(ring)
      ensures old(Punctual()) ==> Punctual()
    {
      hide Linked, StandsFor;
      ghost var on := alarm in ring;
      Remove(alarm, if on then ring else [], k);
      if on {
        ring := Without(ring, k);
      }
      forall a | a in ring ensures a in old(ring) && a.Self() == old(a.Self()) {}
    }

    /** The list after these requests, one after another. */
    ghost function Grown(reqs: seq<Request>): seq<Alarm>
      reads this
      requires ring != []
    {
      [head] + Entries(reqs) + ring[1..]
    }

    /** A callback starts alarms. */
    method StartAll(reqs: seq<Request>)
      requires Valid() && tickRate != 0 && Apart(ring, reqs)
      modifies `ring, Alarms(reqs), ring`next, ring`previous
      ensures Valid() && ring == old(Grown(reqs))
      ensures forall r | r in reqs :: r.alarm.Self() == Begun(r, nticks, now)
    {
      hide Linked, Entries, OnSchedule, Fired, Past, Apart;
      var j := 0;
      EntriesOfNone();
      while j < |reqs|
        invariant j <= |reqs| && Valid() && ring == old(Grown(reqs[..j]))
        invariant forall i | 0 <= i < j :: reqs[i].alarm.Self() == Begun(reqs[i], nticks, now)
      {
        EntriesMore(reqs, j);
        GrownMembers(old(ring), reqs, j);
        AllDifferent(old(ring), reqs, j);
        var rc := Start(reqs[j].alarm, reqs[j].nticks, reqs[j].callback);
        j := j + 1;
      }
      assert reqs[..j] == reqs;
    }

    /** The call of a callback. */
    method Call(alarm: Alarm) returns (p: U32)
      requires Valid() && alarm in ring && tickRate != 0 && Apart(ring, alarm.callback(alarm.calls).starts)
      modifies `log, `ring, alarm`calls, alarm`fired
      modifies Alarms(alarm.callback(alarm.calls).starts), ring`next, ring`previous
      ensures Valid() && p == old(alarm.callback(alarm.calls)).period && log == old(log) + [CallAt(alarm, now)]
      ensures ring == old(Grown(alarm.callback(alarm.calls).starts))
      ensures alarm.Self() == old(alarm.Self().(calls := alarm.calls + 1, fired := alarm.fired + [now]))
      ensures forall r | r in old(alarm.callback(alarm.calls)).starts :: r.alarm.Self() == Begun(r, nticks, now)
    {
      hide Linked;
      var e := alarm.callback(alarm.calls);
      alarm.calls := alarm.calls + 1;
      alarm.fired := alarm.fired + [now];
      log := log + [CallAt(alarm, now)];
      StartAll(e.starts);
      p := e.period;
    }

    /** A stop leaves alone what has just been started. */
    method TakeOut(alarm: Alarm, ghost k: nat, ghost reqs: seq<Request>)
      requires Valid() && 0 < k < |ring| && ring[k] == alarm
      modifies `ring, ring`next, ring`previous
      ensures Valid() && Alone(alarm) && ring == old(Without(ring, k))
      ensures forall r | r in reqs :: r.alarm.Self() == old(r.alarm.Self())
    {
      hide Linked, Without;
      Stop(alarm, k);
    }

    /** The alarm has expired: it is called, and taken out or re-armed. */
    method Fire(alarm: Alarm, ghost k: nat) returns (ghost stopped: bool)
      requires Valid() && 0 < k < |ring| && ring[k] == alarm && Apart(ring, alarm.callback(alarm.calls).starts)
      requires !alarm.rollover
      modifies `ring, `log, alarm, Alarms(alarm.callback(alarm.calls).starts), ring`next, ring`previous
      ensures Valid() && log == old(log) + [CallAt(alarm, now)]
      ensures stopped == (old(alarm.callback(alarm.calls)).period == 0)
      ensures var starts := old(alarm.callback(alarm.calls)).starts;
              var grown, at := old(Grown(starts)), k + |starts|;
              at < |grown| && ring == if stopped then Without(grown, at) else grown
      ensures forall r | r in old(alarm.callback(alarm.calls)).starts :: r.alarm.Self() == Begun(r, nticks, now)
      ensures alarm.Self() == Rested(old(alarm.Self()), nticks, now)
      ensures stopped ==> Alone(alarm)
    {
      hide Linked, Entries, Begun, Apart, Without;
      ghost var asked := alarm.callback(alarm.calls).starts;
      ghost var at := k + |asked|;
      StrangersOnly(ring, asked, alarm);
      var nextCallback := Call(alarm);
      assert ring[at] == alarm;
      stopped := nextCallback == 0;
      if nextCallback == 0 {
        TakeOut(alarm, at, asked);
      } else {
        alarm.time := (alarm.time + nextCallback) % W;
        if alarm.time < nticks {
          alarm.rollover := true;
        }
        alarm.deadline := now + nextCallback;
      }
    }

    /** The body of the loop of `alt_tick`, but for stepping on: `alarm` is the `k`th. */
    method Serve(alarm: Alarm, ghost k: nat) returns (ghost stopped: bool)
      requires Valid() && 0 < k < |ring| && ring[k] == alarm && Apart(ring, Asked(alarm.Self(), nticks))
      modifies `ring, `log, alarm, Alarms(Asked(alarm.Self(), nticks)), ring`next, ring`previous
      ensures Valid()
      ensures log == old(log) + if old(Due(alarm.Self().setting, nticks)) then [CallAt(alarm, now)] else []
      ensures stopped == old(Leaves(alarm.Self(), nticks))
      ensures var grown, at := old(Grown(Asked(alarm.Self(), nticks))), k + old(|Asked(alarm.Self(), nticks)|);
              at < |grown| && ring == if stopped then Without(grown, at) else grown
      ensures stopped ==> Alone(alarm)
      ensures alarm.Self() == Served(old(alarm.Self()), nticks, now)
      ensures old(Due(alarm.Self().setting, nticks)) && !stopped ==>
                alarm.deadline == now + old(alarm.callback(alarm.calls)).period
      ensures forall r | r in old(Asked(alarm.Self(), nticks)) :: r.alarm.Self() == Begun(r, nticks, now)
    {
      hide Linked, Entries, Begun, Apart;
      if alarm.rollover && nticks == 0 {
        alarm.rollover := false;
      }
      stopped := false;
      if alarm.time <= nticks && !alarm.rollover {
        stopped := Fire(alarm, k);
      } else {
        EntriesOfNone();
        assert ring == [head] + [] + ring[1..];
      }
    }

    /** One alarm's turn. `next` is read before the callback can take the alarm away. */
    method Turn(alarm: Alarm, ghost all: seq<Alarm>, ghost i: nat, ghost stay: seq<bool>, ghost news: seq<Alarm>,
                ghost frame: set<Alarm>)
        returns (next: Alarm)
      requires Valid() && AtTurn(ring, all, i, stay, news) && 0 < i < |all| == |stay| && alarm == all[i]
      requires all[0] == head && stay[0] && Distinct(all) && (forall a | a in news :: a !in all)
      requires Apart(all, Asked(alarm.Self(), nticks))
      requires forall r | r in Asked(alarm.Self(), nticks) :: r.alarm !in news
      requires forall a | a in all || a in news :: a in frame
      requires stay[i] <==> !Leaves(alarm.Self(), nticks)
      modifies `ring, `log, alarm, Alarms(Asked(alarm.Self(), nticks)), frame`next, frame`previous
      ensures Valid() && AtTurn(ring, all, i + 1, stay, Entries(old(Asked(alarm.Self(), nticks))) + news)
      ensures next == if i + 1 < |all| then all[i + 1] else head
      ensures log == old(log) + if old(Due(alarm.Self().setting, nticks)) then [CallAt(alarm, now)] else []
      ensures alarm.Self() == Served(old(alarm.Self()), nticks, now)
      ensures !stay[i] ==> Alone(alarm)
      ensures forall j | 0 <= j < i :: !stay[j] && old(Alone(all[j])) ==> Alone(all[j])
      ensures forall r | r in old(Asked(alarm.Self(), nticks)) :: r.alarm.Self() == Begun(r, nticks, now)
    {
      hide Linked, Distinct, AtTurn, Pick, Entries, Asked, Begun, Served, Leaves, Due;
      ghost var k := |Pick(all[..i], stay[..i])| + |news|;
      TurnFacts(ring, all, i, stay, news);
      ApartFromRing(ring, all, news, Asked(alarm.Self(), nticks));
      TurnOver(ring, all, i, stay, news, Entries(Asked(alarm.Self(), nticks)));
      next := alarm.next;
      ghost var stopped := Serve(alarm, k);
    }

    /** The alarms of `all` as they are. */
    ghost function Selves(all: seq<Alarm>): (w: seq<State>)
      reads all
      ensures |w| == |all| && forall j {:trigger w[j]} | 0 <= j < |all| :: w[j] == all[j].Self()
    {
      seq(|all|, j requires 0 <= j < |all| reads all => all[j].Self())
    }

    /** `all` were registered, in the states `was`, and those before the `i`th have had
        their turn and started what they asked for. */
    ghost predicate Midway(all: seq<Alarm>, was: seq<State>, i: nat)
      reads this, ring, all, Alarms(AllAsked(was, nticks))
    {
      && Valid() && 0 < i <= |all| == |was| && all[0] == head && Distinct(all)
      && Apart(all, AllAsked(was, nticks))
      && AtTurn(ring, all, i, StayFlags(was, nticks), Entries(AllAsked(was[..i], nticks)))
      && (forall j {:trigger was[j]} | 0 < j < i :: all[j].Self() == Served(was[j], nticks, now))
      && (forall j {:trigger was[j]} | 0 < j < i :: Leaves(was[j], nticks) ==> Alone(all[j]))
      && (forall j {:trigger was[j]} | i <= j < |all| :: all[j].Self() == was[j])
      && HaveBegun(AllAsked(was, nticks), AllAsked(was[..i], nticks))
    }

    /** These of the requests have been granted. */
    ghost predicate HaveBegun(total: seq<Request>, reqs: seq<Request>)
      reads this, Alarms(total)
    {
      forall r | r in reqs && r in total :: r.alarm.Self() == Begun(r, nticks, now)
    }

    /** The loop body: one alarm's turn, and on to the next. */
    method Advance(alarm: Alarm, ghost all: seq<Alarm>, ghost was: seq<State>, ghost i: nat, ghost frame: set<Alarm>)
        returns (next: Alarm)
      requires Midway(all, was, i) && i < |all| && alarm == all[i]
      requires (forall a | a in all :: a in frame) && Alarms(AllAsked(was, nticks)) <= frame
      modifies `ring, `log, frame
      ensures Midway(all, was, i + 1)
      ensures log == old(log) + if Due(was[i].setting, nticks) then [CallAt(alarm, now)] else []
      ensures next == if i + 1 < |all| then all[i + 1] else head
    {
      hide Linked, AtTurn, Pick, Entries, AllAsked, Asked, Served, Begun, Due, Leaves;
      ghost var before, now' := AllAsked(was[..i], nticks), Asked(was[i], nticks);
      AskedApart(all, was, i, nticks);
      EntriesAre(before);
      EntriesJoin(before, now');
      assert alarm.Self() == was[i];
      next := Turn(alarm, all, i, StayFlags(was, nticks), Entries(before), frame);
    }

    /** The loop of `alt_tick`. */
    method Walk(first: Alarm, ghost all: seq<Alarm>, ghost was: seq<State>, ghost due: seq<bool>,
                ghost frame: set<Alarm>)
      requires Midway(all, was, 1) && first == (if 1 < |all| then all[1] else head)
      requires 0 < |all| == |due| && (forall j | 0 < j < |all| :: all[j] != head)
      requires forall j | 0 < j < |all| :: due[j] == Due(was[j].setting, nticks)
      requires Pick(all[..1], due[..1]) == []
      requires (forall a | a in all :: a in frame) && Alarms(AllAsked(was, nticks)) <= frame
      modifies `ring, `log, frame
      ensures Midway(all, was, |all|)
      ensures log == old(log) + CallsAt(Pick(all[..|all|], due[..|all|]), now)
    {
      hide *;
      var alarm := first;
      ghost var i := 1;
      while alarm != head
        invariant Midway(all, was, i) && 0 < i <= |all|
        invariant alarm == if i < |all| then all[i] else head
        invariant log == old(log) + CallsAt(Pick(all[..i], due[..i]), now)
        decreases |all| - i
      {
        PickNext(all, due, i);
        CallsJoin(Pick(all[..i], due[..i]), if due[i] then [all[i]] else [], now);
        CallsOfOne(all[i], now);
        alarm := Advance(alarm, all, was, i, frame);
        i := i + 1;
      }
    }

    method WalkAll()
      requires Valid() && Apart(ring, AllAsked(Selves(ring), nticks))
      modifies `ring, `log, ring, Alarms(AllAsked(Selves(ring), nticks))
      ensures Midway(old(ring), old(Selves(ring)), |old(ring)|)
      ensures var n := |old(ring)|;
              log == old(log) + CallsAt(Pick(old(ring)[..n], DueFlags(old(Selves(ring)), nticks)[..n]), now)
    {
      hide Linked, Distinct, AtTurn, Pick, Midway, AllAsked, Apart;
      ghost var all, was := ring, Selves(ring);
      WalkBegins();
      Walk(head.next, all, was, DueFlags(was, nticks), (set a | a in all) + Alarms(AllAsked(was, nticks)));
    }

    /** `alt_tick`: every alarm that is registered when it begins has exactly one turn, in list
        order. Those that are due are called, in that order, and those whose callback returns
        zero leave the list and are left alone; the others stay, in the same order. Alarms that
        the callbacks start come before them on the list, the last one first, and have no turn
        in this tick. If every alarm was on schedule, those called are exactly those whose
        deadline this is, each has then been called when an unbounded timer would have called
        it, and every alarm is on schedule again, unless the largest period was asked for. */
    method Tick()
      requires Valid() && Apart(ring, AllAsked(Selves(ring), (nticks + 1) % W))
      modifies `nticks, `now, `ring, `log, ring, Alarms(AllAsked(Selves(ring), (nticks + 1) % W))
      ensures Valid() && now == old(now) + 1 && nticks == (old(nticks) + 1) % W
      ensures log == old(log) + CallsAt(Pick(old(ring), DueFlags(old(Selves(ring)), nticks)), now)
      ensures var left := Pick(old(ring), StayFlags(old(Selves(ring)), nticks));
              left != [] && ring == WithNews(left, Entries(AllAsked(old(Selves(ring)), nticks)))
      ensures forall j | 0 < j < |old(ring)| :: old(ring)[j].Self() == Served(old(Selves(ring))[j], nticks, now)
      ensures forall j | 0 < j < |old(ring)| :: Leaves(old(Selves(ring))[j], nticks) ==> Alone(old(ring)[j])
      ensures forall r | r in AllAsked(old(Selves(ring)), nticks) :: r.alarm.Self() == Begun(r, nticks, now)
      ensures old(Punctual()) ==> log == old(log) + CallsAt(Pick(old(ring), DeadlineFlags(old(Selves(ring)), now)), now)
      ensures old(Punctual()) ==> forall j | 0 < j < |old(ring)| :: KeptTime(old(ring)[j])
      ensures old(Punctual()) ==> forall j | 0 < j < |old(ring)| ::
                TurnTaken(old(Selves(ring))[j], old(ring)[j].Self(), now)
      ensures old(Punctual()) && (forall r | r in AllAsked(old(Selves(ring)), nticks) :: r.nticks <= W - 2) ==>
                Punctual()
    {
      hide *;
      ghost var all, was, punctual, before := ring, Selves(ring), Punctual(), log;
      CountTick();
      WalkAll();
      WalkIsOver(all, was);
      if punctual {
        TurnsKeepTime(all, was, before);
        if forall r | r in AllAsked(was, nticks) :: r.nticks <= W - 2 {
          StaysPunctual(all, was, before);
        }
      }
    }

    /** The tick counter is advanced (alt_tick.c, line 96). */
    method CountTick()
      requires Valid()
      modifies `nticks, `now
      ensures Valid() && now == old(now) + 1 && nticks == (old(nticks) + 1) % W
      ensures Selves(ring) == old(Selves(ring))
      ensures old(Punctual()) ==> WerePunctual(ring, Selves(ring), log)
    {
      hide OnSchedule, Fired, Past;
      assert Punctual() ==> forall j | 0 < j < |ring| :: OnSchedule(Selves(ring)[j], now) && Recorded(ring[j]);
      nticks := (nticks + 1) % W;
      now := now + 1;
    }

    /** The alarms of `all`, in the states `was`, were on schedule a tick ago. */
    ghost predicate WerePunctual(all: seq<Alarm>, was: seq<State>, before: seq<CallAt>)
      reads `now
      requires |all| == |was|
    {
      && now > 0 && Past(before, now - 1)
      && (forall j {:trigger was[j]} | 0 < j < |was| :: OnSchedule(was[j], now - 1))
      && (forall j {:trigger was[j]} | 0 < j < |was| :: was[j].fired == Fired(before, all[j], was[j].started))
    }

    /** Before anyone has had a turn. */
    lemma WalkBegins()
      requires Valid() && Apart(ring, AllAsked(Selves(ring), nticks))
      ensures Midway(ring, Selves(ring), 1) && head.next == (if 1 < |ring| then ring[1] else head)
      ensures forall j | 0 < j < |ring| :: ring[j] != head
      ensures Pick(ring[..1], DueFlags(Selves(ring), nticks)[..1]) == []
    {
      WalkStarts(ring, DueFlags(Selves(ring), nticks), StayFlags(Selves(ring), nticks));
      EntriesOfNone();
      assert AllAsked(Selves(ring)[..1], nticks) == [];
    }

    lemma TurnKeepsTime(all: seq<Alarm>, was: seq<State>, before: seq<CallAt>, j: nat)
      requires Midway(all, was, |all|) && WerePunctual(all, was, before) && 0 < j < |all|
      requires log == before + CallsAt(Pick(all, DueFlags(was, nticks)), now)
      ensures KeptTime(all[j]) && Recorded(all[j]) && TurnTaken(was[j], all[j].Self(), now)
      ensures !Leaves(was[j], nticks) ==> OnSchedule(all[j].Self(), now)
    {
      hide Linked, Distinct, AtTurn, Pick, StandsFor, Entries, AllAsked, Apart, Fired, Underway, OnTime, CallsAt;
      var due := DueFlags(was, nticks);
      ServedOnSchedule(was[j], now - 1);
      FiredJoin(before, CallsAt(Pick(all, due), now), all[j], was[j].started);
      FiredAt(all, due, now, j, was[j].started);
    }

    lemma DueAtDeadlines(all: seq<Alarm>, was: seq<State>, before: seq<CallAt>)
      requires Midway(all, was, |all|) && WerePunctual(all, was, before)
      ensures DueFlags(was, nticks) == DeadlineFlags(was, now)
    {
      hide Linked, Distinct, AtTurn, Pick, Entries, AllAsked, Apart, OnSchedule, DueFlags, DeadlineFlags, Fired;
      DueAtDeadline(was, now - 1);
    }

    lemma TurnsKeepTime(all: seq<Alarm>, was: seq<State>, before: seq<CallAt>)
      requires |all| == |was| && Midway(all, was, |all|) && WerePunctual(all, was, before)
      requires log == before + CallsAt(Pick(all, DueFlags(was, nticks)), now)
      ensures DueFlags(was, nticks) == DeadlineFlags(was, now)
      ensures forall j | 0 < j < |all| :: KeptTime(all[j]) && TurnTaken(was[j], all[j].Self(), now)
    {
      hide *;
      DueAtDeadlines(all, was, before);
      forall j: nat | 0 < j < |all| ensures KeptTime(all[j]) && TurnTaken(was[j], all[j].Self(), now) {
        TurnKeepsTime(all, was, before, j);
      }
    }

    lemma StayedPunctual(all: seq<Alarm>, was: seq<State>, before: seq<CallAt>, a: Alarm)
      requires Midway(all, was, |all|) && WerePunctual(all, was, before) && a != head
      requires log == before + CallsAt(Pick(all, DueFlags(was, nticks)), now)
      requires a in Pick(all, StayFlags(was, nticks))
      ensures OnSchedule(a.Self(), now) && Recorded(a)
    {
      hide Linked, Distinct, AtTurn, Pick, OnSchedule, Entries, AllAsked, Apart, Recorded, KeptTime, Leaves;
      PickMembers(all, StayFlags(was, nticks));
      var j :| 0 <= j < |all| && all[j] == a && StayFlags(was, nticks)[j];
      TurnKeepsTime(all, was, before, j);
    }

    lemma CamePunctual(all: seq<Alarm>, was: seq<State>, a: Alarm)
      requires Midway(all, was, |all|) && a in Entries(AllAsked(was, nticks)) && Past(log, now)
      requires forall r | r in AllAsked(was, nticks) :: r.nticks <= W - 2
      ensures OnSchedule(a.Self(), now) && Recorded(a)
    {
      hide Linked, Distinct, AtTurn, Pick, StandsFor, Entries, AllAsked, Apart, Fired, Past;
      WalkIsOver(all, was);
      EntriesAre(AllAsked(was, nticks));
      var r :| r in AllAsked(was, nticks) && r.alarm == a;
      StartIsExact(r.nticks, now);
      NotFiredYet(log, a, now);
    }

    /** If everyone was on schedule, those who stay still are, and so are those who came. */
    lemma StaysPunctual(all: seq<Alarm>, was: seq<State>, before: seq<CallAt>)
      requires |all| == |was| && Midway(all, was, |all|) && WerePunctual(all, was, before)
      requires log == before + CallsAt(Pick(all, DueFlags(was, nticks)), now)
      requires forall r | r in AllAsked(was, nticks) :: r.nticks <= W - 2
      ensures Punctual()
    {
      hide Linked, Distinct, AtTurn, Pick, StandsFor, Entries, AllAsked, WithNews, Apart, Midway, OnSchedule;
      hide Fired, Past, CallsAt, Recorded;
      WalkIsOver(all, was);
      PastJoin(before, Pick(all, DueFlags(was, nticks)), now - 1);
      NewsMembers(Pick(all, StayFlags(was, nticks)), Entries(AllAsked(was, nticks)));
      forall a | a in ring && a != head ensures OnSchedule(a.Self(), now) && Recorded(a) {
        if a in Pick(all, StayFlags(was, nticks)) {
          StayedPunctual(all, was, before, a);
        } else {
          CamePunctual(all, was, a);
        }
      }
    }

    /** After everyone has had a turn. */
    lemma WalkIsOver(all: seq<Alarm>, was: seq<State>)
      requires Midway(all, was, |all|)
      ensures Valid()
      ensures var left := Pick(all, StayFlags(was, nticks));
              left != [] && ring == WithNews(left, Entries(AllAsked(was, nticks)))
      ensures Pick(all[..|all|], DueFlags(was, nticks)[..|all|]) == Pick(all, DueFlags(was, nticks))
      ensures forall j | 0 < j < |all| :: all[j].Self() == Served(was[j], nticks, now)
      ensures forall j | 0 < j < |all| :: Leaves(was[j], nticks) ==> Alone(all[j])
      ensures forall r | r in AllAsked(was, nticks) :: r.alarm.Self() == Begun(r, nticks, now)
    {
      hide Linked, Distinct, AtTurn, Pick, Entries, AllAsked, Apart;
      assert was[..|all|] == was;
      WalkEnds(ring, all, DueFlags(was, nticks), StayFlags(was, nticks), Entries(AllAsked(was, nticks)));
    }
  }
}
