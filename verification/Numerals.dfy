/** Numbers written in a base from 2 to 16, and the two ways of producing the digits. */
module Numerals {

  predicate Base(b: nat) {
    2 <= b <= 16
  }

  /** The digit counted from '0', moved on to the letters when it is past '9'. */
  function DigitChar(d: nat, upper: bool): char
    requires d < 16
  {
    if d <= 9 then "0123456789"[d] else if upper then "ABCDEF"[d - 10] else "abcdef"[d - 10]
  }

  function DigitValue(c: char): (d: nat)
    ensures d < 16
  {
    match c
    case '1' => 1
    case '2' => 2
    case '3' => 3
    case '4' => 4
    case '5' => 5
    case '6' => 6
    case '7' => 7
    case '8' => 8
    case '9' => 9
    case 'a' => 10
    case 'b' => 11
    case 'c' => 12
    case 'd' => 13
    case 'e' => 14
    case 'f' => 15
    case 'A' => 10
    case 'B' => 11
    case 'C' => 12
    case 'D' => 13
    case 'E' => 14
    case 'F' => 15
    case _ => 0
  }

  lemma DigitReadsBack(d: nat, upper: bool)
    requires d < 16
    ensures DigitValue(DigitChar(d, upper)) == d
    ensures DigitChar(d, upper) == '0' <==> d == 0
  {
  }

  /** The usual way to write `v`. */
  function Numeral(v: nat, b: nat, upper: bool): (s: string)
    requires Base(b)
    ensures s != []
  {
    if v < b then [DigitChar(v, upper)]
    else
      QuotientAndRemainder(v, b);
      QuotientSmaller(v, b);
      Numeral(v / b, b, upper) + [DigitChar(v % b, upper)]
  }

  /** What a string of digits stands for. */
  function Value(s: string, b: nat): nat {
    if s == [] then 0 else Value(s[..|s| - 1], b) * b + DigitValue(s[|s| - 1])
  }

  lemma ValueOfLonger(front: string, d: nat, b: nat, upper: bool)
    requires d < 16
    ensures Value(front + [DigitChar(d, upper)], b) == Value(front, b) * b + d
  {
    DigitReadsBack(d, upper);
    var s := front + [DigitChar(d, upper)];
    assert s[..|s| - 1] == front;
  }

  lemma ValueOfOne(d: nat, b: nat, upper: bool)
    requires d < 16
    ensures Value([DigitChar(d, upper)], b) == d
  {
    ValueOfLonger([], d, b, upper);
    assert [] + [DigitChar(d, upper)] == [DigitChar(d, upper)];
  }

  lemma QuotientAndRemainder(v: nat, b: nat)
    requires b > 0
    ensures v % b < b && v / b * b + v % b == v
  {
  }

  lemma QuotientSmaller(v: nat, b: nat)
    requires 2 <= b <= v
    ensures 0 < v / b < v
  {
    QuotientAndRemainder(v, b);
    Grows(v / b, 2, b);
  }

  /** Taking the last digit off a number with more than one. */
  lemma LastDigitOff(v: nat, b: nat, upper: bool) returns (q: nat, r: nat)
    requires Base(b) && b <= v
    ensures 0 < q < v && r < b && q * b + r == v
    ensures Numeral(v, b, upper) == Numeral(q, b, upper) + [DigitChar(r, upper)]
  {
    q, r := v / b, v % b;
    QuotientAndRemainder(v, b);
    QuotientSmaller(v, b);
  }

  lemma OnlyDigit(v: nat, b: nat, upper: bool)
    requires Base(b) && v < b
    ensures Numeral(v, b, upper) == [DigitChar(v, upper)]
  {
  }

  /** Reading back what was written gives the number. */
  lemma {:induction false} NumeralReadsBack(v: nat, b: nat, upper: bool)
    requires Base(b)
    ensures Value(Numeral(v, b, upper), b) == v
  {
    hide Numeral, Value, DigitChar;
    if v < b {
      OnlyDigit(v, b, upper);
      ValueOfOne(v, b, upper);
    } else {
      var q, r := LastDigitOff(v, b, upper);
      NumeralReadsBack(q, b, upper);
      ValueOfLonger(Numeral(q, b, upper), r, b, upper);
    }
  }

  /** A digit of base `b` with letters of the wanted case. */
  predicate IsDigitOf(c: char, b: nat, upper: bool) {
    ('0' <= c <= '9' || (if upper then 'A' <= c <= 'F' else 'a' <= c <= 'f')) && DigitValue(c) < b
  }

  /** The digits stand in the order of their character codes, from '0' and from 'A' or 'a'. */
  lemma DigitCharIs(d: nat, b: nat, upper: bool)
    requires d < b <= 16
    ensures IsDigitOf(DigitChar(d, upper), b, upper)
    ensures var c := DigitChar(d, upper) as int;
            c == if d <= 9 then '0' as int + d else if upper then 'A' as int + d - 10 else 'a' as int + d - 10
  {
  }

  /** `s` is how `v` is written: digits of the base, as few as will do, that read as `v`. */
  predicate Writes(s: string, v: nat, b: nat, upper: bool) {
    && s != [] && (forall c | c in s :: IsDigitOf(c, b, upper))
    && (s[0] == '0' ==> |s| == 1) && Value(s, b) == v
  }

  lemma {:induction false} NumeralIsOfDigits(v: nat, b: nat, upper: bool)
    requires Base(b)
    ensures forall c | c in Numeral(v, b, upper) :: IsDigitOf(c, b, upper)
  {
    hide Numeral, DigitChar, IsDigitOf;
    if v < b {
      OnlyDigit(v, b, upper);
      DigitCharIs(v, b, upper);
    } else {
      var q, r := LastDigitOff(v, b, upper);
      NumeralIsOfDigits(q, b, upper);
      DigitCharIs(r, b, upper);
    }
  }

  lemma NumeralWrites(v: nat, b: nat, upper: bool)
    requires Base(b)
    ensures Writes(Numeral(v, b, upper), v, b, upper)
  {
    hide Numeral, DigitChar, IsDigitOf, Value;
    NumeralIsOfDigits(v, b, upper);
    NumeralReadsBack(v, b, upper);
    NoLeadingZero(v, b, upper);
    if v == 0 { OnlyDigit(v, b, upper); }
  }

  /** There is no superfluous leading zero. */
  lemma {:induction false} NoLeadingZero(v: nat, b: nat, upper: bool)
    requires Base(b)
    ensures Numeral(v, b, upper)[0] == '0' <==> v == 0
  {
    hide Numeral, DigitChar;
    if v < b {
      OnlyDigit(v, b, upper);
      DigitReadsBack(v, upper);
    } else {
      var q, r := LastDigitOff(v, b, upper);
      NoLeadingZero(q, b, upper);
    }
  }

  // ---------------------------------------------------------------- from the front

  function Pow(b: nat, k: nat): (p: nat)
    ensures b > 0 ==> p > 0
  {
    if k == 0 then 1 else b * Pow(b, k - 1)
  }

  function Quotient(v: nat, p: nat): nat
    requires p > 0
  {
    v / p
  }

  function Rest(v: nat, p: nat): nat
    requires p > 0
  {
    v % p
  }

  /** The `k` lowest digits of `v`, highest first, found by dividing by powers of the base. */
  function Digits(v: nat, b: nat, k: nat, upper: bool): string
    requires Base(b)
  {
    if k == 0 then []
    else
      var p := Pow(b, k - 1);
      [DigitChar(Low(Quotient(v, p), b), upper)] + Digits(Rest(v, p), b, k - 1, upper)
  }

  /** The lowest digit. */
  function Low(v: nat, b: nat): (d: nat)
    requires Base(b)
    ensures d < 16
  {
    v % b
  }

  lemma Grows(d: nat, m: nat, n: nat)
    requires m <= n
    ensures d * m <= d * n
  {
  }

  lemma DivMod(x: nat, d: nat, q: nat, r: nat)
    requires d > 0 && r < d && x == d * q + r
    ensures x / d == q && x % d == r
  {
    if x / d > q {
      Grows(d, q + 1, x / d);
    } else if x / d < q {
      Grows(d, x / d + 1, q);
    }
  }

  /** Dividing by `b` and then by `p` is dividing by `b * p`. */
  lemma TwoSteps(x: nat, b: nat, p: nat)
    requires b > 0 && p > 0
    ensures b * p > 0
    ensures x / (b * p) == x / b / p
    ensures x % (b * p) / b == x / b % p && x % (b * p) % b == x % b
  {
    var q, r := x / b, x % b;
    var s, t := q / p, q % p;
    Nested(x, b, p, q, r, s, t);
    DivMod(x, b * p, s, b * t + r);
    DivMod(b * t + r, b, t, r);
  }

  lemma Nested(x: nat, b: nat, p: nat, q: nat, r: nat, s: nat, t: nat)
    requires x == b * q + r && q == p * s + t && r < b && t < p
    ensures b * p > 0 && x == b * p * s + (b * t + r) && b * t + r < b * p
  {
    Grows(b, t + 1, p);
    assert b * (p * s + t) == b * (p * s) + b * t;
    assert b * (p * s) == b * p * s;
  }

  /** The lowest of the `k` digits is the remainder by the base. */
  lemma {:induction false} LastDigit(v: nat, b: nat, k: nat, upper: bool)
    requires Base(b) && k > 0
    ensures Digits(v, b, k, upper) == Digits(v / b, b, k - 1, upper) + [DigitChar(v % b, upper)]
    decreases k
  {
    if k == 1 {
      assert Pow(b, 0) == 1 && v / 1 == v && Digits(v % 1, b, 0, upper) == [];
    } else {
      var p := Pow(b, k - 2);
      TwoSteps(v, b, p);
      LastDigit(v % (b * p), b, k - 1, upper);
      assert Pow(b, k - 1) == b * p;
    }
  }

  /** `v` has exactly `k` digits. */
  predicate HasDigits(v: nat, b: nat, k: nat)
    requires Base(b)
  {
    k > 0 && v < Pow(b, k) && (k > 1 ==> Pow(b, k - 1) <= v)
  }

  lemma {:induction false} NumeralIsDigits(v: nat, b: nat, k: nat, upper: bool)
    requires Base(b) && HasDigits(v, b, k)
    ensures Numeral(v, b, upper) == Digits(v, b, k, upper)
    decreases k
  {
    LastDigit(v, b, k, upper);
    if k == 1 {
      OneDigit(v, b);
    } else {
      OneDigitFewer(v, b, k);
      NumeralIsDigits(v / b, b, k - 1, upper);
    }
  }

  lemma OneDigit(v: nat, b: nat)
    requires Base(b) && HasDigits(v, b, 1)
    ensures v < b && v % b == v
  {
    assert Pow(b, 1) == b * Pow(b, 0);
  }

  lemma BoundsOfQuotient(v: nat, b: nat, p: nat, q: nat)
    requires b > 0 && p > 0 && b * p <= v < b * q
    ensures p <= v / b < q && b <= v
  {
    QuotientAndRemainder(v, b);
    Grows(b, 1, p);
    if v / b >= q { Grows(b, q, v / b); }
    if v / b < p { Grows(b, v / b + 1, p); }
  }

  lemma OneDigitFewer(v: nat, b: nat, k: nat)
    requires Base(b) && HasDigits(v, b, k) && k > 1
    ensures b <= v && HasDigits(v / b, b, k - 1)
  {
    BoundsOfQuotient(v, b, Pow(b, k - 2), Pow(b, k - 1));
  }
}
