/** Wall-clock time kept as a reset time plus the tick counter, in 32-bit arithmetic. */
module TimeOfDay {
  import opened Words

  const US: nat := 1_000_000

  const ENOSYS := 88
  const ENOTSUP := 134

  datatype TimeVal = TimeVal(sec: I32, usec: I32)
  datatype Zone = Zone(minutesWest: int, dstTime: int)

  function Micros(t: TimeVal): int {
    t.sec * US + t.usec
  }

  /** The length of a tick in whole microseconds. */
  function TickLength(rate: U32): nat
    requires rate > 0
  {
    US / rate
  }

  /** The fraction as gettimeofday computes it (line 93), with a product 64 bits wide. */
  function WideFraction(nticks: U32, rate: U32): (f: nat)
    requires rate > 0
    ensures f < US
  {
    nticks * TickLength(rate) % US
  }

  /** The fraction as settimeofday computes it (line 84), with a product 32 bits wide. */
  function NarrowFraction(nticks: U32, rate: U32): (f: nat)
    requires rate > 0
    ensures f < US
  {
    nticks * TickLength(rate) % W % US
  }

  class TimeKeeper {
    var reset: TimeVal
    var zone: Zone
    var errno: int

    constructor ()
      ensures reset == TimeVal(0, 0) && zone == Zone(0, 0)
    {
      reset, zone, errno := TimeVal(0, 0), Zone(0, 0), 0;
    }

    /** `ALT_SETTIMEOFDAY` */
    method Set(t: TimeVal, tz: Zone, nticks: U32, rate: U32) returns (rc: int)
      modifies this
      ensures rate == 0 ==> rc == -1 && errno == ENOSYS && reset == old(reset) && zone == old(zone)
      ensures rate > 0 ==> rc == 0 && errno == old(errno) && zone == tz && reset == AfterSet(t, nticks, rate)
    {
      if rate != 0 {
        var sec := Stored(t.sec - nticks / rate);
        var usec := Stored(t.usec - NarrowFraction(nticks, rate));
        reset := TimeVal(sec, usec);
        zone := tz;
        return 0;
      }
      errno := ENOSYS;
      rc := -1;
    }

    /** `ALT_GETTIMEOFDAY` */
    method Get(nticks: U32, rate: U32) returns (rc: int, t: TimeVal, tz: Zone)
      ensures rate == 0 ==> rc == -ENOTSUP
      ensures rate > 0 ==> rc == 0 && tz == zone && t == Reading(reset, nticks, rate)
    {
      hide WideFraction, Stored;
      rc, t, tz := -ENOTSUP, TimeVal(0, 0), zone;
      if rate != 0 {
        var sec: I32 := Stored(reset.sec + nticks / rate);
        var usec: I32 := Stored(reset.usec + WideFraction(nticks, rate));
        ghost var start := TimeVal(sec, usec);
        while usec < 0
          invariant Normalised(TimeVal(sec, usec)) == Normalised(start)
          decreases 0 - (usec as int)
        {
          if sec <= 0 {
            sec, usec := 0, 0;
            break;
          } else {
            sec := sec - 1;
            usec := usec + US;
          }
        }
        while usec >= US
          invariant Normalised(TimeVal(sec, usec)) == Normalised(start) && usec >= 0
        {
          sec := Stored(sec + 1);
          usec := usec - US;
        }
        rc, t := 0, TimeVal(sec, usec);
      }
    }
  }

  /** The reset time that Set leaves. */
  function AfterSet(t: TimeVal, nticks: U32, rate: U32): TimeVal
    requires rate > 0
  {
    TimeVal(Stored(t.sec - nticks / rate), Stored(t.usec - NarrowFraction(nticks, rate)))
  }

  /** The two normalisation loops of Get: borrow seconds while there are any, carry the rest. */
  function Normalised(t: TimeVal): TimeVal
    decreases if t.usec < 0 then W - t.usec else t.usec
  {
    if t.usec < 0 then
      if t.sec <= 0 then TimeVal(0, 0) else Normalised(TimeVal(t.sec - 1, t.usec + US))
    else if t.usec >= US then Normalised(TimeVal(Stored(t.sec + 1), t.usec - US))
    else t
  }

  function Reading(reset: TimeVal, nticks: U32, rate: U32): TimeVal
    requires rate > 0
  {
    Normalised(TimeVal(Stored(reset.sec + nticks / rate), Stored(reset.usec + WideFraction(nticks, rate))))
  }

  // ---------------------------------------------------------------- exactness

  /** A reset time as Set leaves it for a proper time of day. */
  predicate Proper(reset: TimeVal) {
    -1_000_000 < reset.usec < 1_000_000
  }

  /** Borrowing and carrying keep the total, as long as there is a second to borrow. */
  lemma {:induction false} NormalisedKeepsTotal(t: TimeVal)
    requires Micros(t) < 0x8000_0000 * US && (Micros(t) >= 0 || t.usec >= 0)
    ensures Micros(Normalised(t)) == Micros(t) && 0 <= Normalised(t).usec < US
    decreases if t.usec < 0 then W - t.usec else t.usec
  {
    if t.usec < 0 {
      assert t.sec > 0;
      NormalisedKeepsTotal(TimeVal(t.sec - 1, t.usec + US));
    } else if t.usec >= US {
      assert t.sec + 1 < 0x8000_0000;
      NormalisedKeepsTotal(TimeVal(Stored(t.sec + 1), t.usec - US));
    }
  }

  /** Where there is not, the time told is zero. */
  lemma {:induction false} NormalisedBelowZero(t: TimeVal)
    requires Micros(t) < 0 && t.usec < 0
    ensures Normalised(t) == TimeVal(0, 0)
    decreases W - t.usec
  {
    if t.sec > 0 {
      NormalisedBelowZero(TimeVal(t.sec - 1, t.usec + US));
    }
  }

  /** With a tick rate that divides a million the whole seconds and the fraction add up to
      the ticks times the length of one. */
  lemma TicksInFull(nticks: U32, rate: U32)
    requires rate > 0 && US % rate == 0
    ensures nticks / rate * US + WideFraction(nticks, rate) == nticks * TickLength(rate)
  {
    var u := US / rate;
    var q, r := nticks / rate, nticks % rate;
    assert nticks == q * rate + r;
    assert u * rate == US;
    SplitTicks(q, r, rate, u);
    Fraction(q, r * u);
  }

  lemma SplitTicks(q: nat, r: nat, rate: nat, u: nat)
    requires r < rate && u * rate == US
    ensures (q * rate + r) * u == q * US + r * u && r * u < US
  {
    assert (q * rate + r) * u == q * (u * rate) + r * u;
    assert u > 0;
    assert r * u + u == (r + 1) * u <= rate * u;
  }

  lemma Fraction(q: nat, f: nat)
    requires f < US
    ensures (q * US + f) % US == f
  {
  }

  /** The time of day, in microseconds, that the counter stands for. */
  function TrueTime(reset: TimeVal, nticks: U32, rate: U32): int
    requires rate > 0
  {
    Micros(reset) + nticks * TickLength(rate)
  }

  /** gettimeofday is exact and linear in the ticks: when the rate divides a million and the
      true time is one that can be told, it is what is returned, properly normalised. */
  lemma ReadingIsExact(reset: TimeVal, nticks: U32, rate: U32)
    requires rate > 0 && US % rate == 0 && Proper(reset)
    requires 0 <= TrueTime(reset, nticks, rate) < 0x7FFF_FFFF * US
    ensures var t := Reading(reset, nticks, rate);
            Micros(t) == TrueTime(reset, nticks, rate) && 0 <= t.usec < US
  {
    TicksInFull(nticks, rate);
    var start := TimeVal(Stored(reset.sec + nticks / rate), Stored(reset.usec + WideFraction(nticks, rate)));
    var sec, usec := reset.sec + nticks / rate, reset.usec + WideFraction(nticks, rate);
    assert sec * US + usec == TrueTime(reset, nticks, rate);
    assert -1 <= sec < 0x8000_0000 && -0x8000_0000 <= usec < 0x8000_0000;
    NormalisedKeepsTotal(start);
  }

  /** So the time told never goes back while the counter does not wrap. */
  lemma ReadingIsMonotone(reset: TimeVal, earlier: U32, later: U32, rate: U32)
    requires rate > 0 && US % rate == 0 && Proper(reset) && earlier <= later
    requires 0 <= TrueTime(reset, earlier, rate) && TrueTime(reset, later, rate) < 0x7FFF_FFFF * US
    ensures var a, b := Reading(reset, earlier, rate), Reading(reset, later, rate);
            a.sec < b.sec || (a.sec == b.sec && a.usec <= b.usec)
  {
    MoreTicks(earlier, later, TickLength(rate));
    ReadingIsExact(reset, earlier, rate);
    ReadingIsExact(reset, later, rate);
  }

  lemma MoreTicks(earlier: nat, later: nat, u: nat)
    requires earlier <= later
    ensures earlier * u <= later * u
  {
  }

  // ---------------------------------------------------------------- other tick rates

  /** What Get adds to the reset time, in microseconds. */
  function Elapsed(nticks: U32, rate: U32): nat
    requires rate > 0
  {
    nticks / rate * US + WideFraction(nticks, rate)
  }

  /** Get adds just that, whatever the rate, while the sum is a time that can be told. */
  lemma ReadingAddsElapsed(reset: TimeVal, nticks: U32, rate: U32)
    requires rate > 0 && Proper(reset)
    requires 0 <= Micros(reset) + Elapsed(nticks, rate) < 0x7FFF_FFFF * US
    ensures Micros(Reading(reset, nticks, rate)) == Micros(reset) + Elapsed(nticks, rate)
  {
    hide WideFraction, Normalised;
    var sec, usec := reset.sec + nticks / rate, reset.usec + WideFraction(nticks, rate);
    assert sec * US + usec == Micros(reset) + Elapsed(nticks, rate);
    assert -1 <= sec < 0x8000_0000 && -0x8000_0000 <= usec < 0x8000_0000;
    NormalisedKeepsTotal(TimeVal(sec, usec));
  }

  /** What the code adds is the ticks times their length, for every number of ticks, if and
      only if the tick rate divides a million. */
  lemma ExactForAllTicksExactlyWhen(rate: U32)
    requires rate > 0
    ensures (forall nticks: U32 :: Elapsed(nticks, rate) == nticks * TickLength(rate)) <==> US % rate == 0
  {
    if US % rate == 0 {
      forall nticks: U32 ensures Elapsed(nticks, rate) == nticks * TickLength(rate) {
        TicksInFull(nticks, rate);
      }
    } else {
      FirstSecond(rate);
      assert Elapsed(rate, rate) != rate * TickLength(rate);
    }
  }

  /** The first tick of the second second, at a rate that does not divide a million. */
  lemma FirstSecond(rate: U32)
    requires 0 < rate && US % rate != 0
    ensures rate / rate == 1 && rate * TickLength(rate) == US - US % rate < US
    ensures WideFraction(rate, rate) == rate * TickLength(rate)
  {
    assert rate * (US / rate) + US % rate == US;
  }

  /** The time told goes back from tick `a` to tick `b`. */
  predicate GoesBack(reset: TimeVal, a: U32, b: U32, rate: U32)
    requires rate > 0
  {
    a <= b && Micros(Reading(reset, b, rate)) < Micros(Reading(reset, a, rate))
  }

  /** A 32-bit number of seconds can tell the time at this tick. */
  predicate Told(reset: TimeVal, nticks: U32, rate: U32)
    requires rate > 0
  {
    0 <= Micros(reset) + Elapsed(nticks, rate) < 0x7FFF_FFFF * US
  }

  /** A tick rate below a million that does not divide it. */
  predicate Uneven(rate: U32) {
    0 < rate < US && US % rate != 0
  }

  /** The fraction with which the `q`th second begins. */
  function Opening(q: nat, rate: U32): (f: nat)
    requires rate > 0
    ensures f < US
  {
    q * (rate * (US / rate)) % US
  }

  lemma TickIsShort(rate: U32)
    requires Uneven(rate)
    ensures TickLength(rate) == US / rate && 0 < US / rate < US && 0 < US % rate < rate
    ensures rate * (US / rate) + US % rate == US
    ensures (rate - 1) * (US / rate) >= US % rate
    ensures rate * (US / rate) == (rate - 1) * (US / rate) + US / rate
  {
    var u := US / rate;
    assert rate > 1;
    assert rate * u == (rate - 1) * u + u;
    MoreTicks(1, u, rate - 1);
  }

  /** Each second begins with a fraction smaller by what the rate leaves of a million. */
  lemma NextOpening(q: nat, rate: U32)
    requires Uneven(rate)
    ensures var s := US % rate;
            Opening(q + 1, rate) == if Opening(q, rate) < s then Opening(q, rate) + US - s else Opening(q, rate) - s
  {
    var x := rate * (US / rate);
    TickIsShort(rate);
    assert (q + 1) * x == q * x + x;
    AddFraction(q * x, x);
  }

  lemma AddFraction(y: nat, x: nat)
    requires x < US
    ensures (y + x) % US == if y % US + x < US then y % US + x else y % US + x - US
  {
  }

  /** From any second on there is soon one in which the fraction overflows. */
  lemma {:induction false} FindOverflow(q: nat, rate: U32) returns (q': nat)
    requires Uneven(rate)
    ensures q <= q' <= q + US / rate + 1
    ensures Opening(q', rate) >= US % rate + US / rate
    ensures var f, s := Opening(q, rate), US % rate;
            q' <= q + if f >= s + US / rate then 0 else if f < s then 1 else f - s + 2
    decreases Opening(q, rate)
  {
    hide Opening;
    var f, s := Opening(q, rate), US % rate;
    TickIsShort(rate);
    if f >= s + US / rate {
      q' := q;
    } else {
      NextOpening(q, rate);
      if f < s {
        q' := q + 1;
      } else {
        q' := FindOverflow(q + 1, rate);
      }
    }
  }

  /** The `j`th tick of the `q`th second. */
  lemma WithinSecond(q: nat, j: nat, rate: U32)
    requires 0 < rate && j < rate && q * rate + j < W
    ensures Elapsed(q * rate + j, rate) == q * US + (Opening(q, rate) + j * (US / rate)) % US
  {
    var u := US / rate;
    assert (q * rate + j) * u == q * (rate * u) + j * u;
    QuotientIs(q, j, rate);
    SumOfRest(q * (rate * u), j * u);
  }

  lemma QuotientIs(q: nat, j: nat, n: nat)
    requires j < n
    ensures (q * n + j) / n == q
  {
    Divided(q * n + j, n);
    Beyond((q * n + j) / n, q, n);
    Beyond(q, (q * n + j) / n, n);
  }

  lemma SumOfRest(x: nat, y: nat)
    ensures (x + y) % US == (x % US + y) % US
  {
  }

  /** `k` times `u` is the least multiple of `u` that reaches `s`. */
  lemma RoundedUp(s: nat, u: nat, k: nat, r: nat)
    requires s > 0 && u > 0 && r < u && s + u - 1 == k * u + r
    ensures 1 <= k && (k - 1) * u < s <= k * u && k * u == (k - 1) * u + u
  {
    assert k * u == (k - 1) * u + u;
  }

  lemma Overflow(x: nat, y: nat)
    requires x < US <= y < 2 * US
    ensures x % US == x && y % US == y - US
  {
  }

  /** The tick of the `q`th second at which the fraction overflows. */
  lemma OverflowTick(q: nat, rate: U32) returns (k: nat)
    requires Uneven(rate) && Opening(q, rate) >= US % rate + US / rate
    ensures var f, u := Opening(q, rate), US / rate;
            1 <= k < rate && f + (k - 1) * u < US <= f + k * u == f + (k - 1) * u + u
  {
    hide Opening;
    var f, u := Opening(q, rate), US / rate;
    TickIsShort(rate);
    var x := US - f + u - 1;
    k := x / u;
    assert x == k * u + x % u;
    RoundedUp(US - f, u, k, x % u);
    Beyond(k - 1, rate - 2, u);
    assert (rate - 1) * u == (rate - 2) * u + u;
  }

  lemma GoesBackInSecond(reset: TimeVal, rate: U32, q: nat) returns (a: U32, b: U32)
    requires Uneven(rate) && Opening(q, rate) >= US % rate + US / rate && (q + 1) * rate < W
    requires Proper(reset) && 0 <= Micros(reset) + q * US && Micros(reset) + (q + 1) * US < 0x7FFF_FFFF * US
    ensures b == a + 1 && GoesBack(reset, a, b, rate) && Told(reset, a, rate) && Told(reset, b, rate)
  {
    hide WideFraction, Normalised, TickLength, Opening, Elapsed;
    var f, u := Opening(q, rate), US / rate;
    var k := OverflowTick(q, rate);
    assert (q + 1) * rate == q * rate + rate;
    TickIsShort(rate);
    WithinSecond(q, k - 1, rate);
    WithinSecond(q, k, rate);
    Overflow(f + (k - 1) * u, f + k * u);
    a, b := q * rate + (k - 1), q * rate + k;
    ReadingAddsElapsed(reset, a, rate);
    ReadingAddsElapsed(reset, b, rate);
  }

  /** The whole seconds by which a reset time lies before zero, rounded up. */
  function SecondsBeforeZero(reset: TimeVal): nat {
    if Micros(reset) >= 0 then 0 else (-Micros(reset) + US - 1) / US
  }

  /** Before it wraps, the tick counter comes to times that can be told, and goes on for a
      second or two and a million ticks. */
  predicate CounterHasTime(reset: TimeVal, rate: U32) {
    SecondsBeforeZero(reset) * rate + 2 * rate + US < W
  }

  lemma EnoughTicks(q: nat, q': nat, rate: U32)
    requires Uneven(rate) && q' <= q + US / rate + 1 && q * rate + 2 * rate + US < W
    ensures (q' + 1) * rate < W
  {
    TickIsShort(rate);
    MoreTicks(q' + 1, q + US / rate + 2, rate);
    assert (q + US / rate + 2) * rate == q * rate + US / rate * rate + 2 * rate;
  }

  /** At any rate below a million that does not divide it, the clock goes back from some tick
      to the next. */
  lemma UnevenRateGoesBack(reset: TimeVal, rate: U32) returns (a: U32, b: U32)
    requires Uneven(rate) && Proper(reset) && Micros(reset) < 0x7FFF_FFF0 * US && CounterHasTime(reset, rate)
    ensures b == a + 1 && GoesBack(reset, a, b, rate) && Told(reset, a, rate) && Told(reset, b, rate)
  {
    hide GoesBack, Told;
    if Micros(reset) >= 0 {
      TickIsShort(rate);
      assert Opening(1, rate) == US - US % rate;
      a, b := GoesBackInSecond(reset, rate, 1);
    } else {
      var q := SecondsBeforeZero(reset);
      Divided(-Micros(reset) + US - 1, US);
      var q' := FindOverflow(q, rate);
      TickIsShort(rate);
      EnoughTicks(q, q', rate);
      a, b := GoesBackInSecond(reset, rate, q');
    }
  }

  /** At a rate above a million a tick has length zero and the clock steps by whole seconds. */
  lemma FastRateSteps(nticks: U32, rate: U32)
    requires rate > US
    ensures Elapsed(nticks, rate) == nticks / rate * US
  {
    TooFast(rate);
    assert nticks * 0 % US == 0;
  }

  lemma TooFast(rate: nat)
    requires rate > US
    ensures US / rate == 0
  {
  }

  lemma MoreSeconds(a: nat, b: nat, rate: nat)
    requires a <= b && rate > 0
    ensures a / rate * US <= b / rate * US
  {
    Divided(a, rate);
    Divided(b, rate);
    Beyond(a / rate, b / rate, rate);
  }

  lemma Divided(x: nat, n: nat)
    requires n > 0
    ensures x / n * n <= x < x / n * n + n
  {
  }

  lemma Beyond(q: nat, r: nat, n: nat)
    ensures q > r ==> q * n >= r * n + n
  {
    if q > r {
      MoreTicks(r + 1, q, n);
      assert (r + 1) * n == r * n + n;
    }
  }

  /** The clock never goes back, as long as the time can be told, if and only if the tick
      rate divides a million or is above it. */
  lemma NeverGoesBackExactlyWhen(reset: TimeVal, rate: U32)
    requires rate > 0 && Proper(reset)
    requires Uneven(rate) ==> Micros(reset) < 0x7FFF_FFF0 * US && CounterHasTime(reset, rate)
    ensures (forall a: U32, b: U32 :: Told(reset, a, rate) && Told(reset, b, rate) ==> !GoesBack(reset, a, b, rate))
            <==> US % rate == 0 || rate > US
  {
    hide Elapsed, GoesBack, Told, CounterHasTime;
    if US % rate == 0 || rate > US {
      forall a: U32, b: U32 | Told(reset, a, rate) && Told(reset, b, rate)
        ensures !GoesBack(reset, a, b, rate)
      {
        EvenRateGoesOn(reset, a, b, rate);
      }
    } else {
      var a, b := UnevenRateGoesBack(reset, rate);
      assert GoesBack(reset, a, b, rate);
    }
  }

  lemma EvenRateGoesOn(reset: TimeVal, a: U32, b: U32, rate: U32)
    requires rate > 0 && Proper(reset) && (US % rate == 0 || rate > US)
    requires Told(reset, a, rate) && Told(reset, b, rate)
    ensures !GoesBack(reset, a, b, rate)
  {
    hide WideFraction, Normalised, TickLength, Reading;
    ReadingAddsElapsed(reset, a, rate);
    ReadingAddsElapsed(reset, b, rate);
    if US % rate == 0 {
      TicksInFull(a, rate);
      TicksInFull(b, rate);
      if a <= b { MoreTicks(a, b, TickLength(rate)); }
    } else {
      FastRateSteps(a, rate);
      FastRateSteps(b, rate);
      if a <= b { MoreSeconds(a, b, rate); }
    }
  }

  // ---------------------------------------------------------------- set, then get

  lemma RestOfSum(m: nat, x: nat)
    ensures (US * m + x) % US == x % US
  {
  }

  /** 15114 has an inverse modulo 15625. */
  lemma Coprime(k: nat, m: nat)
    requires 15114 * k == 15625 * m
    ensures k % 15625 == 0
  {
    assert k == 15625 * (12659 * m - 12245 * k);
  }

  lemma OnlyMillionsOf(k: nat, m: nat)
    requires 967296 * k == US * m
    ensures k % 15625 == 0
  {
    Coprime(k, m);
  }

  lemma AllMillionsOf(j: nat)
    ensures 967296 * (15625 * j) % US == 0
  {
    assert 967296 * (15625 * j) == US * (15114 * j);
  }

  lemma MillionsOf(k: nat)
    ensures 967296 * k % US == 0 <==> k % 15625 == 0
  {
    if 967296 * k % US == 0 {
      OnlyMillionsOf(k, 967296 * k / US);
    }
    if k % 15625 == 0 {
      AllMillionsOf(k / 15625);
    }
  }

  /** 2^32 leaves 967296 = 64 * 15114 after whole millions, and a million is 64 * 15625. */
  lemma WholeMillions(k: nat)
    ensures W * k % US == 0 <==> k % 15625 == 0
  {
    assert W * k == US * (4294 * k) + 967296 * k;
    RestOfSum(4294 * k, 967296 * k);
    MillionsOf(k);
  }

  /** The 32-bit product loses nothing modulo a million exactly when the part cut off is a
      multiple of 15625 times 2^32; so whenever the product fits. */
  lemma FractionsAgreeExactlyWhen(nticks: U32, rate: U32)
    requires rate > 0
    ensures NarrowFraction(nticks, rate) == WideFraction(nticks, rate)
            <==> nticks * TickLength(rate) / W % 15625 == 0
  {
    var x: nat := nticks * TickLength(rate);
    var k, y := x / W, x % W;
    assert x == W * k + y;
    WholeMillions(k);
    SameRest(W * k, y);
  }

  lemma SameRest(a: nat, y: nat)
    ensures y % US == (a + y) % US <==> a % US == 0
  {
  }

  /** settimeofday promises that an immediate gettimeofday returns the value set. For a
      proper time it does so exactly when the 32-bit product above loses nothing; or for
      the zero time, to which a reading before it is clamped. */
  lemma SetThenGetExactlyWhen(t: TimeVal, nticks: U32, rate: U32)
    requires rate > 0 && 0 <= t.usec < US
    ensures Reading(AfterSet(t, nticks, rate), nticks, rate) == t
            <==> || nticks * TickLength(rate) / W % 15625 == 0
                 || (t == TimeVal(0, 0) && WideFraction(nticks, rate) < NarrowFraction(nticks, rate))
  {
    hide NarrowFraction, WideFraction, TickLength, Normalised, Stored;
    FractionsAgreeExactlyWhen(nticks, rate);
    var narrow: int, wide: int := NarrowFraction(nticks, rate), WideFraction(nticks, rate);
    SetThenGetIs(t, nticks, rate);
    ReadBack(t, wide - narrow);
  }

  /** It happens: at 1000 ticks a second, an hour and twelve minutes after reset, setting five
      seconds and reading at once gives almost six. */
  lemma SetThenGetCanDiffer()
    ensures Reading(AfterSet(TimeVal(5, 0), 4294968, 1000), 4294968, 1000) == TimeVal(5, 967296)
  {
    assert NarrowFraction(4294968, 1000) == 704 && WideFraction(4294968, 1000) == 968000;
    SetThenGetIs(TimeVal(5, 0), 4294968, 1000);
  }

  /** Setting and reading at the same tick leaves only the difference of the fractions. */
  lemma SetThenGetIs(t: TimeVal, nticks: U32, rate: U32)
    requires rate > 0 && 0 <= t.usec < US
    ensures Reading(AfterSet(t, nticks, rate), nticks, rate)
            == Normalised(TimeVal(t.sec, t.usec + (WideFraction(nticks, rate) - NarrowFraction(nticks, rate))))
  {
    hide NarrowFraction, WideFraction, TickLength, Normalised, Stored;
    StoredBack(t.sec, nticks / rate);
    StoredFraction(t.usec, NarrowFraction(nticks, rate), WideFraction(nticks, rate));
  }

  lemma StoredBack(sec: I32, q: int)
    ensures Stored(Stored(sec - q) + q) == sec
  {
  }

  lemma StoredFraction(usec: I32, f: nat, g: nat)
    requires 0 <= usec < US && f < US && g < US
    ensures Stored(Stored(usec - f) + g) == usec + (g - f)
  {
  }

  /** A reading off by `d` microseconds is right only if `d` is zero, or if it is clamped. */
  lemma ReadBack(t: TimeVal, d: int)
    requires 0 <= t.usec < US && -1_000_000 < d < 1_000_000
    ensures Normalised(TimeVal(t.sec, t.usec + d)) == t <==> d == 0 || (t == TimeVal(0, 0) && d < 0)
  {
    if t.usec + d < 0 && t.sec > 0 {
      assert Normalised(TimeVal(t.sec, t.usec + d)) == TimeVal(t.sec - 1, t.usec + d + US);
    } else if t.usec + d >= US {
      assert Normalised(TimeVal(t.sec, t.usec + d)) == TimeVal(Stored(t.sec + 1), t.usec + d - US);
    }
  }

  /** After a faithful set the clock goes on from there at the tick rate. */
  lemma SetThenLater(t: TimeVal, at: U32, later: U32, rate: U32)
    requires rate > 0 && US % rate == 0 && 0 <= t.usec < US && 0 <= t.sec && at <= later
    requires at * TickLength(rate) / W % 15625 == 0
    requires Micros(t) + (later - at) * TickLength(rate) < 0x7FFF_FFFF * US
    ensures Micros(Reading(AfterSet(t, at, rate), later, rate)) == Micros(t) + (later - at) * TickLength(rate)
  {
    hide NarrowFraction, WideFraction, TickLength, Normalised, Stored;
    FractionsAgreeExactlyWhen(at, rate);
    TicksInFull(at, rate);
    TicksInFull(later, rate);
    Distribute(later, at, TickLength(rate));
    MoreTicks(at, later, TickLength(rate));
    LaterReading(t, at / rate, WideFraction(at, rate), later / rate, WideFraction(later, rate));
  }

  /** Seconds and fractions set at one tick and read at another, whether or not the seconds
      wrapped in between. */
  lemma LaterReading(t: TimeVal, q0: nat, f0: nat, q1: nat, f1: nat)
    requires 0 <= t.usec < US && f0 < US && f1 < US
    requires 0 <= Micros(t) + (q1 * US + f1) - (q0 * US + f0) < 0x7FFF_FFFF * US
    ensures Micros(Normalised(TimeVal(Stored(Stored(t.sec - q0) + q1), Stored(Stored(t.usec - f0) + f1))))
            == Micros(t) + (q1 * US + f1) - (q0 * US + f0)
  {
    StoredTwice(t.sec - q0, q1);
    StoredFraction(t.usec, f0, f1);
    var sec, usec := t.sec - q0 + q1, t.usec + (f1 - f0);
    assert -1 <= sec < 0x8000_0000;
    NormalisedKeepsTotal(TimeVal(sec, usec));
  }

  lemma StoredTwice(a: int, b: int)
    ensures Stored(Stored(a) + b) == Stored(a + b)
  {
  }

  lemma Distribute(a: nat, b: nat, u: nat)
    requires b <= a
    ensures (a - b) * u == a * u - b * u
  {
  }
}
