/** The two integer printers: the logger's, which divides by the largest power of the base,
    and alt_printf's, which shifts and masks. */
module Printers {
  import opened Words
  import opened Numerals

  /** What a conversion specification says about an integer. */
  datatype Format = Format(leadingZero: bool, base: nat, isSigned: bool, upper: bool, width: int)

  predicate FormatOk(f: Format) {
    Base(f.base)
  }

  predicate Negative(raw: U32, f: Format) {
    f.isSigned && raw >= 0x8000_0000
  }

  /** The two's complement of a negative argument in 32 bits. */
  function Magnitude(raw: U32, f: Format): U32 {
    if Negative(raw, f) then W - raw else raw
  }

  /** The number the 32 bits stand for under this format. */
  function Meaning(raw: U32, f: Format): int {
    if Negative(raw, f) then raw - W else raw
  }

  /** `alt_log_repchar` */
  function Repeat(c: char, n: int): (s: string)
    ensures |s| == if n > 0 then n else 0
    ensures forall i | 0 <= i < |s| :: s[i] == c
  {
    if n <= 0 then [] else [c] + Repeat(c, n - 1)
  }

  function Sign(raw: U32, f: Format): string {
    if Negative(raw, f) then "-" else ""
  }

  /** The field an integer is printed in. */
  function Field(raw: U32, f: Format): string
    requires FormatOk(f)
  {
    var body := Numeral(Magnitude(raw, f), f.base, f.upper);
    var pad := f.width - |body| - |Sign(raw, f)|;
    if f.leadingZero then Sign(raw, f) + Repeat('0', pad) + body
    else Repeat(' ', pad) + Sign(raw, f) + body
  }

  // ---------------------------------------------------------------- what a field means

  function SkipSpaces(s: string): string {
    if s != [] && s[0] == ' ' then SkipSpaces(s[1..]) else s
  }

  /** Read a field: spaces, perhaps a minus sign, digits. */
  function ReadField(s: string, b: nat): int {
    var t := SkipSpaces(s);
    if t != [] && t[0] == '-' then -(Value(t[1..], b) as int) else Value(t, b)
  }

  lemma {:induction false} LeadingZeros(n: int, s: string, b: nat)
    ensures Value(Repeat('0', n) + s, b) == Value(s, b)
    decreases n, |s|
  {
    if s != [] {
      var front, last := s[..|s| - 1], s[|s| - 1];
      LeadingZeros(n, front, b);
      assert (Repeat('0', n) + s)[..|Repeat('0', n) + s| - 1] == Repeat('0', n) + front;
    } else if n > 0 {
      LeadingZeros(n - 1, [], b);
      ZerosFromTheBack(n);
      assert Repeat('0', n) + [] == Repeat('0', n) && Repeat('0', n - 1) + [] == Repeat('0', n - 1);
    } else {
      assert Repeat('0', n) + [] == [];
    }
  }

  lemma ZerosFromTheBack(n: int)
    requires n > 0
    ensures Repeat('0', n)[..n - 1] == Repeat('0', n - 1) && Repeat('0', n)[n - 1] == '0'
  {
  }

  lemma {:induction false} SpacesSkipped(n: int, s: string)
    requires s != [] && s[0] != ' '
    ensures SkipSpaces(Repeat(' ', n) + s) == s
  {
    if n > 0 {
      SpacesSkipped(n - 1, s);
      assert (Repeat(' ', n) + s)[1..] == Repeat(' ', n - 1) + s;
    } else {
      assert Repeat(' ', n) + s == s;
    }
  }

  predicate IsDigit(c: char) {
    '0' <= c <= '9' || 'A' <= c <= 'F' || 'a' <= c <= 'f'
  }

  lemma DigitCharIsDigit(d: nat, upper: bool)
    requires d < 16
    ensures IsDigit(DigitChar(d, upper))
  {
  }

  lemma {:induction false} NumeralIsAllDigits(v: nat, b: nat, upper: bool)
    requires Base(b)
    ensures forall c | c in Numeral(v, b, upper) :: IsDigit(c)
  {
    hide Numeral, DigitChar;
    if v < b {
      OnlyDigit(v, b, upper);
      DigitCharIsDigit(v, upper);
    } else {
      var q, r := LastDigitOff(v, b, upper);
      NumeralIsAllDigits(q, b, upper);
      DigitCharIsDigit(r, upper);
    }
  }

  /** Spaces, a sign and digits are told apart again. */
  lemma FieldParts(pad: int, sign: string, digits: string, b: nat)
    requires sign == "" || sign == "-"
    requires digits != [] && IsDigit(digits[0])
    ensures ReadField(Repeat(' ', pad) + sign + digits, b)
            == if sign == "-" then -(Value(digits, b) as int) else Value(digits, b)
  {
    SpacesSkipped(pad, sign + digits);
    assert Repeat(' ', pad) + sign + digits == Repeat(' ', pad) + (sign + digits);
    if sign == "-" {
      assert (sign + digits)[1..] == digits;
    } else {
      assert sign + digits == digits;
    }
  }

  /** The printed field reads back as the (signed) argument, in every base, with any width
      and with either kind of padding. */
  lemma FieldReadsBack(raw: U32, f: Format)
    requires FormatOk(f)
    ensures ReadField(Field(raw, f), f.base) == Meaning(raw, f)
  {
    hide Numeral, Value, ReadField, Repeat;
    var body := Numeral(Magnitude(raw, f), f.base, f.upper);
    var pad := f.width - |body| - |Sign(raw, f)|;
    NumeralReadsBack(Magnitude(raw, f), f.base, f.upper);
    NumeralIsAllDigits(Magnitude(raw, f), f.base, f.upper);
    assert body[0] in body;
    if f.leadingZero {
      LeadingZeros(pad, body, f.base);
      var digits := Repeat('0', pad) + body;
      assert digits[0] == '0' || digits[0] == body[0];
      FieldParts(0, Sign(raw, f), digits, f.base);
      assert Repeat(' ', 0) + Sign(raw, f) + digits == Field(raw, f);
    } else {
      FieldParts(pad, Sign(raw, f), body, f.base);
    }
  }

  /** The field is as wide as asked, or as wide as the number needs. */
  lemma FieldWidth(raw: U32, f: Format)
    requires FormatOk(f)
    ensures var need := |Numeral(Magnitude(raw, f), f.base, f.upper)| + |Sign(raw, f)|;
            |Field(raw, f)| == if f.width > need then f.width else need
  {
  }

  /** What stands before the digits: zeros after the sign, or spaces before it, up to the
      width; a minus sign exactly for a negative number. */
  predicate Padded(front: string, zero: bool, negative: bool, width: int) {
    var sign := if negative then 1 else 0;
    && |front| == (if width > sign then width else sign)
    && (negative ==> front[if zero then 0 else |front| - 1] == '-')
    && (if zero then forall i | sign <= i < |front| :: front[i] == '0'
        else forall i | 0 <= i < |front| - sign :: front[i] == ' ')
  }

  /** `s` is how an integer is to be printed, told from the characters of `s`. */
  ghost predicate Printed(s: string, raw: U32, f: Format) {
    var negative := f.isSigned && raw >= 0x8000_0000;
    var magnitude := if negative then 0x1_0000_0000 - raw else raw;
    exists front: string, digits: string ::
      && s == front + digits && Writes(digits, magnitude, f.base, f.upper)
      && Padded(front, f.leadingZero, negative, f.width - |digits|)
  }

  lemma FieldIsPrinted(raw: U32, f: Format)
    requires FormatOk(f)
    ensures Printed(Field(raw, f), raw, f)
  {
    hide Numeral, Writes;
    var digits := Numeral(Magnitude(raw, f), f.base, f.upper);
    var pad := f.width - |digits| - |Sign(raw, f)|;
    var front := if f.leadingZero then Sign(raw, f) + Repeat('0', pad) else Repeat(' ', pad) + Sign(raw, f);
    NumeralWrites(Magnitude(raw, f), f.base, f.upper);
    assert Field(raw, f) == front + digits;
    assert Padded(front, f.leadingZero, Negative(raw, f), f.width - |digits|);
  }

  // ---------------------------------------------------------------- the logger's printer

  /** `shrink` is `v` divided `k` times by the base. */
  predicate Shrunk(v: nat, b: nat, k: nat, shrink: nat)
    requires Base(b)
  {
    shrink == Quotient(v, Pow(b, k))
  }

  lemma ShrunkOnce(v: nat, b: nat)
    requires Base(b)
    ensures Shrunk(v, b, 1, v / b) && Pow(b, 0) == 1
  {
    assert Pow(b, 1) == b * Pow(b, 0);
  }

  lemma ShrunkAgain(v: nat, b: nat, k: nat, shrink: nat)
    requires Base(b) && k > 0 && Shrunk(v, b, k, shrink) && shrink > 0
    ensures Shrunk(v, b, k + 1, shrink / b)
    ensures Pow(b, k - 1) * b == Pow(b, k) <= v && shrink / b < shrink
  {
    ShrinkStep(v, b, Pow(b, k));
    assert Pow(b, k) == b * Pow(b, k - 1) && Pow(b, k + 1) == b * Pow(b, k);
  }

  lemma ShrinkStep(v: nat, b: nat, p: nat)
    requires Base(b) && p > 0 && v / p > 0
    ensures p <= v && v / (b * p) == v / p / b && v / p / b < v / p
  {
    FitsOnce(v, p);
    TwoSteps(v, p, b);
    Smaller(v / p, b);
  }

  lemma Smaller(x: nat, b: nat)
    requires Base(b) && x > 0
    ensures x / b < x
  {
    if x >= b { QuotientSmaller(x, b); }
  }

  lemma ShrunkAway(v: nat, b: nat, k: nat)
    requires Base(b) && Shrunk(v, b, k, 0)
    ensures v < Pow(b, k)
  {
    FitsNot(v, Pow(b, k));
  }

  lemma FitsOnce(v: nat, p: nat)
    requires p > 0 && v / p > 0
    ensures p <= v
  {
  }

  lemma FitsNot(v: nat, p: nat)
    requires p > 0 && v / p == 0
    ensures v < p
  {
  }

  /** Find the largest power of the base that is in `v`, and the number of digits. */
  method LargestPower(v: U32, b: nat) returns (p: U32, digitCount: nat)
    requires Base(b)
    ensures HasDigits(v, b, digitCount) && p == Pow(b, digitCount - 1)
  {
    hide Shrunk, Pow;
    p, digitCount := 1, 1;
    ShrunkOnce(v, b);
    var shrink: nat := v / b;
    while shrink > 0
      invariant digitCount > 0 && p == Pow(b, digitCount - 1)
      invariant Shrunk(v, b, digitCount, shrink)
      invariant digitCount > 1 ==> p <= v
      decreases shrink
    {
      ShrunkAgain(v, b, digitCount, shrink);
      digitCount := digitCount + 1;
      p := p * b;
      shrink := shrink / b;
    }
    ShrunkAway(v, b, digitCount);
  }

  /** The power of the base that goes with the highest of `k` digits. */
  predicate PowerFor(p: nat, b: nat, k: nat) {
    p == if k > 0 then Pow(b, k - 1) else 0
  }

  /** The digit loop: one digit for each power of the base, from the highest down. */
  method PrintDigits(mag: U32, b: nat, upper: bool, power: U32, ghost count: nat) returns (out: string)
    requires Base(b) && HasDigits(mag, b, count) && power == Pow(b, count - 1)
    ensures out == Numeral(mag, b, upper)
  {
    hide Pow, Digits, Numeral, DigitChar, Quotient, Rest;
    var v: nat, p: nat := mag, power;
    ghost var k := count;
    out := "";
    while p > 0
      invariant PowerFor(p, b, k) && v < Pow(b, k)
      invariant out + Digits(v, b, k, upper) == Digits(mag, b, count, upper)
      decreases k
    {
      NotTheEnd(b, k, p);
      FirstDigitOff(v, b, k, p, upper);
      var d := Quotient(v, p);
      out := out + [DigitChar(d, upper)];
      v := Rest(v, p);
      p := Quotient(p, b);
      k := k - 1;
    }
    TheEnd(b, k, v, upper);
    NumeralIsDigits(mag, b, count, upper);
  }

  lemma NotTheEnd(b: nat, k: nat, p: nat)
    requires PowerFor(p, b, k) && p > 0
    ensures k > 0
  {
  }

  lemma TheEnd(b: nat, k: nat, v: nat, upper: bool)
    requires Base(b) && PowerFor(0, b, k)
    ensures Digits(v, b, k, upper) == []
  {
  }

  lemma BelowMultiple(v: nat, p: nat, b: nat, q: nat, r: nat)
    requires v == q * p + r && r < p && v < b * p
    ensures q < b && (q == 0 <==> v < p)
  {
    if q >= b { Grows(p, b, q); }
    if q > 0 { Grows(p, 1, q); }
  }

  lemma SmallRest(q: nat, b: nat)
    requires q < b
    ensures q % b == q
  {
  }

  /** Dividing a number below `b * p` by `p` gives its highest digit. */
  lemma BelowPower(v: nat, p: nat, b: nat)
    requires Base(b) && p > 0 && v < b * p
    ensures Low(Quotient(v, p), b) == Quotient(v, p) < b && Rest(v, p) < p
    ensures Quotient(v, p) == 0 <==> v < p
  {
    QuotientAndRemainder(v, p);
    BelowMultiple(v, p, b, v / p, v % p);
    SmallRest(v / p, b);
  }

  /** Dividing by the power gives the highest digit and leaves the others. */
  lemma FirstDigitOff(v: nat, b: nat, k: nat, p: nat, upper: bool)
    requires Base(b) && k > 0 && v < Pow(b, k) && PowerFor(p, b, k)
    ensures p > 0 && Quotient(v, p) < 16 && Rest(v, p) < Pow(b, k - 1)
    ensures Digits(v, b, k, upper) == [DigitChar(Quotient(v, p), upper)] + Digits(Rest(v, p), b, k - 1, upper)
    ensures PowerFor(Quotient(p, b), b, k - 1)
  {
    hide Digits, DigitChar, Pow, Low, Quotient, Rest;
    PowStep(b, k);
    BelowPower(v, p, b);
    DigitsFirst(v, b, k, upper);
    LowerPower(b, k, p);
  }

  lemma LowerPower(b: nat, k: nat, p: nat)
    requires Base(b) && k > 0 && PowerFor(p, b, k)
    ensures PowerFor(Quotient(p, b), b, k - 1)
  {
    if k > 1 {
      DivMod(p, b, Pow(b, k - 2), 0);
    } else {
      assert Pow(b, 0) == 1;
    }
  }

  lemma PowStep(b: nat, k: nat)
    requires k > 0
    ensures Pow(b, k) == b * Pow(b, k - 1)
  {
  }

  lemma DigitsFirst(v: nat, b: nat, k: nat, upper: bool)
    requires Base(b) && k > 0
    ensures Digits(v, b, k, upper)
            == [DigitChar(Low(Quotient(v, Pow(b, k - 1)), b), upper)] + Digits(Rest(v, Pow(b, k - 1)), b, k - 1, upper)
  {
  }

  /** `doIntegerPrint` */
  method PrintInteger(raw: U32, f: Format) returns (out: string)
    requires FormatOk(f)
    ensures out == Field(raw, f) && Printed(out, raw, f)
  {
    hide Printed, Numeral, Pow, HasDigits, Repeat;
    FieldIsPrinted(raw, f);
    var v, sign := raw, false;
    if f.isSigned && v >= 0x8000_0000 {
      v, sign := W - v, true;
    }
    var p, digitCount := LargestPower(v, f.base);
    var digits := PrintDigits(v, f.base, f.upper, p, digitCount);
    NumeralLength(v, f.base, f.upper, digitCount);
    var beforeDecimal := f.width - digitCount;
    out := "";
    if f.leadingZero {
      if sign {
        out := out + "-";
        beforeDecimal := beforeDecimal - 1;
      }
      out := out + Repeat('0', beforeDecimal);
    } else {
      if sign {
        beforeDecimal := beforeDecimal - 1;
      }
      out := out + Repeat(' ', beforeDecimal);
      if sign {
        out := out + "-";
      }
    }
    out := out + digits;
  }

  lemma NumeralLength(v: nat, b: nat, upper: bool, k: nat)
    requires Base(b) && HasDigits(v, b, k)
    ensures |Numeral(v, b, upper)| == k
  {
    NumeralIsDigits(v, b, k, upper);
    DigitsLength(v, b, k, upper);
  }

  lemma DigitsLength(v: nat, b: nat, k: nat, upper: bool)
    requires Base(b)
    ensures |Digits(v, b, k, upper)| == k
  {
  }

  // ---------------------------------------------------------------- alt_printf's printer

  /** The digit that the mask shifted by 4 * `k` cuts out (alt_printf.c, line 106). */
  function HexDigit(v: U32, k: nat): (d: nat)
    ensures d < 16
  {
    Low(Quotient(v, Pow(16, k)), 16)
  }

  /** The %x branch of `alt_printf`. */
  method PrintHex(v: U32) returns (out: string)
    ensures out == Numeral(v, 16, false) && Writes(out, v, 16, false)
  {
    hide Pow, Digits, Numeral, DigitChar, HexDigit, Rest, HasDigits, Writes;
    NumeralWrites(v, 16, false);
    if v == 0 {
      OnlyDigit(0, 16, false);
      DigitReadsBack(0, false);
      return "0";
    }
    EightHexDigits();
    var k: int := 7;
    while HexDigit(v, k) == 0
      invariant 0 <= k <= 7 && v < Pow(16, k + 1)
      decreases k
    {
      TopHexDigit(v, k);
      k := k - 1;
    }
    TopHexDigit(v, k);
    ghost var top: nat := k + 1;
    out := "";
    while k >= 0
      invariant -1 <= k < top
      invariant out + Digits(Rest(v, Pow(16, k + 1)), 16, k + 1, false) == Digits(v, 16, top, false)
    {
      NextHexDigit(v, k);
      out := out + [DigitChar(HexDigit(v, k), false)];
      k := k - 1;
    }
    NoDigits(Rest(v, Pow(16, 0)));
    NumeralIsDigits(v, 16, top, false);
  }

  lemma NoDigits(v: nat)
    ensures Digits(v, 16, 0, false) == []
  {
  }

  lemma EightHexDigits()
    ensures Pow(16, 8) == W
  {
    assert Pow(16, 2) == 256 && Pow(16, 4) == 0x1_0000 && Pow(16, 6) == 0x100_0000;
  }

  /** Above the digit at `k` there is nothing, so that digit is zero or the first one. */
  lemma TopHexDigit(v: U32, k: nat)
    requires v < Pow(16, k + 1)
    ensures HexDigit(v, k) == 0 ==> v < Pow(16, k) && (v > 0 ==> k > 0)
    ensures HexDigit(v, k) != 0 ==> HasDigits(v, 16, k + 1)
    ensures Rest(v, Pow(16, k + 1)) == v
  {
    hide Pow;
    PowStep(16, k + 1);
    BelowPower(v, Pow(16, k), 16);
    WholeRest(v, Pow(16, k + 1));
    PowZero(k);
  }

  lemma PowZero(k: nat)
    ensures k == 0 ==> Pow(16, k) == 1
  {
  }

  lemma WholeRest(v: nat, p: nat)
    requires v < p
    ensures Rest(v, p) == v
  {
  }

  lemma NextHexDigit(v: U32, k: nat)
    ensures Digits(Rest(v, Pow(16, k + 1)), 16, k + 1, false)
            == [DigitChar(HexDigit(v, k), false)] + Digits(Rest(v, Pow(16, k)), 16, k, false)
  {
    hide Digits, DigitChar, Pow, Low, Quotient, Rest;
    PowStep(16, k + 1);
    DigitsFirst(Rest(v, Pow(16, k + 1)), 16, k + 1, false);
    HexDigitOfRest(v, Pow(16, k));
  }

  lemma HexDigitOfRest(v: nat, p: nat)
    requires p > 0
    ensures Low(Quotient(Rest(v, 16 * p), p), 16) == Low(Quotient(v, p), 16)
    ensures Rest(Rest(v, 16 * p), p) == Rest(v, p)
  {
    TwoSteps(v, p, 16);
  }
}
