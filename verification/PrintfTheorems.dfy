/** What the two format-string interpreters promise together and apart. */
module PrintfTheorems {
  import opened Words
  import opened Numerals
  import opened Printers
  import opened PrintfFormats

  // ---------------------------------------------------------------- they agree

  /** A format both interpreters know: after each '%' comes one of c, x, s and %. */
  predicate Common(fmt: string)
    decreases |fmt|
  {
    if fmt == [] then true
    else if fmt[0] != '%' then Common(fmt[1..])
    else |fmt| == 1 || (fmt[1] in {'c', 'x', 's', '%'} && Common(fmt[2..]))
  }

  /** Strings that fit in half of the address space. */
  predicate Short(args: seq<Arg>) {
    forall a | a in args :: a.Str? ==> |a.s| < 0x8000_0000
  }

  lemma PlainHexField(v: U32)
    ensures Field(v, Format(false, 16, false, false, -1)) == Numeral(v, 16, false)
  {
    var body := Numeral(v, 16, false);
    assert Repeat(' ', -1 - |body| - 0) == "" && "" + "" + body == body;
  }

  lemma NoStringPad(s: string)
    requires |s| < 0x8000_0000
    ensures Repeat(' ', StringPad(-1, s)) == ""
  {
  }

  /** After '%', a common letter without flags does the same in both. */
  lemma DirectivesAgree(c: char, args: seq<Arg>)
    requires c in {'c', 'x', 's', '%'} && Short(args)
    ensures var st := FRESH.(mode := FirstFmtChar);
            var r := LogOnce(st, c, args);
            r.st.mode == Chars && Directive(c, args) == (r.out, r.used)
  {
    PlainHexField(Number(args));
    NoStringPad(Text(args));
    assert Repeat(' ', -2) == "" && "" + CharOf(Number(args)) == CharOf(Number(args));
    assert "" + Text(args) == Text(args);
  }

  lemma LogTwo(st: LogState, fmt: string, args: seq<Arg>)
    requires StateOk(st) && st.mode == Chars && |fmt| >= 2 && fmt[0] == '%'
    ensures var r := LogOnce(FRESH.(mode := FirstFmtChar), fmt[1], args);
            Log(st, fmt, args) == r.out + Log(r.st, fmt[2..], After(args, r.used))
  {
    hide LogOnce;
    PercentIsRead(st, fmt[1..], args);
    assert "%" + fmt[1..] == fmt && fmt[1..][1..] == fmt[2..];
  }

  /** On every such format, and any arguments, alt_printf and the logger print the same. */
  lemma {:induction false} PrintfsAgree(fmt: string, args: seq<Arg>, st: LogState)
    requires Common(fmt) && Short(args) && StateOk(st) && st.mode == Chars
    ensures Alt(fmt, args) == Log(st, fmt, args)
    decreases |fmt|
  {
    if fmt == [] {
    } else if fmt[0] != '%' {
      PrintfsAgree(fmt[1..], args, st);
    } else if |fmt| == 1 {
      assert Log(st, fmt, args) == "" + Log(FRESH.(mode := FirstFmtChar), [], args);
    } else {
      DirectivesAgree(fmt[1], args);
      LogTwo(st, fmt, args);
      var r := LogOnce(FRESH.(mode := FirstFmtChar), fmt[1], args);
      PrintfsAgree(fmt[2..], After(args, r.used), r.st);
    }
  }

  // ---------------------------------------------------------------- reading a specification

  predicate DecimalDigits(s: string) {
    forall i | 0 <= i < |s| :: '0' <= s[i] <= '9'
  }

  /** What the digits `s` make of a width that was `was`. */
  function WidthAfter(was: int, s: string): int
    requires DecimalDigits(s)
  {
    if s == [] then was
    else
      var w := WidthAfter(was, s[..|s| - 1]);
      (if w < 0 then 0 else w * 10) + DigitIn(s[|s| - 1])
  }

  /** The interpreter reads a run of digits into the width. */
  lemma {:induction false} DigitsAreRead(st: LogState, s: string, rest: string, args: seq<Arg>)
    requires StateOk(st) && st.mode == OtherFmtChar && st.after < 0 && DecimalDigits(s)
    ensures Log(st, s + rest, args) == Log(st.(f := st.f.(width := WidthAfter(st.f.width, s))), rest, args)
    decreases |s|
  {
    hide Log, LogOnce;
    if s == [] {
      assert s + rest == rest;
    } else {
      var front, c := s[..|s| - 1], s[|s| - 1];
      assert s + rest == front + ([c] + rest);
      DigitsAreRead(st, front, [c] + rest, args);
      var st1 := st.(f := st.f.(width := WidthAfter(st.f.width, front)));
      assert ([c] + rest)[1..] == rest;
      DigitIsRead(st1, c, [c] + rest, args);
    }
  }

  lemma DigitIsRead(st: LogState, c: char, fmt: string, args: seq<Arg>)
    requires StateOk(st) && st.mode == OtherFmtChar && st.after < 0 && '0' <= c <= '9'
    requires fmt != [] && fmt[0] == c
    ensures var w := (if st.f.width < 0 then 0 else st.f.width * 10) + DigitIn(c);
            Log(st, fmt, args) == Log(st.(f := st.f.(width := w)), fmt[1..], args)
  {
    hide LogOnce;
    DigitStep(st, c, args);
    var r := LogOnce(st, c, args);
    assert Log(st, fmt, args) == "" + Log(r.st, fmt[1..], args);
  }

  lemma DigitStep(st: LogState, c: char, args: seq<Arg>)
    requires StateOk(st) && st.mode == OtherFmtChar && st.after < 0 && '0' <= c <= '9'
    ensures var w := (if st.f.width < 0 then 0 else st.f.width * 10) + DigitIn(c);
            LogOnce(st, c, args) == LogStep(st.(f := st.f.(width := w)), "", false)
  {
    hide DigitValue, Field, Numeral, StringPad, Repeat, CharOf, Text;
  }

  lemma {:induction false} WidthIsValue(s: string)
    requires DecimalDigits(s) && s != []
    ensures WidthAfter(-1, s) == Value(s, 10)
  {
    var front := s[..|s| - 1];
    if front != [] {
      WidthIsValue(front);
    }
  }

  lemma {:induction false} TenIsDecimal(v: nat)
    ensures DecimalDigits(Numeral(v, 10, false))
  {
    hide Numeral, DigitChar;
    if v < 10 {
      OnlyDigit(v, 10, false);
      LowDigitChar(v);
    } else {
      var q, r := LastDigitOff(v, 10, false);
      TenIsDecimal(q);
      LowDigitChar(r);
    }
  }

  lemma LowDigitChar(d: nat)
    requires d < 10
    ensures '0' <= DigitChar(d, false) <= '9'
  {
  }

  /** Reading a width as it is usually written gives that width. */
  lemma WidthReadsBack(w: nat)
    ensures DecimalDigits(Numeral(w, 10, false)) && WidthAfter(-1, Numeral(w, 10, false)) == w
  {
    TenIsDecimal(w);
    WidthIsValue(Numeral(w, 10, false));
    NumeralReadsBack(w, 10, false);
  }

  // ---------------------------------------------------------------- what a specification prints

  /** The integer letters and what they ask for; width 0 stands for none given. */
  function Asked(letter: char, zero: bool, width: nat): (f: Format)
    requires letter in {'d', 'i', 'u', 'o', 'x', 'X'}
    ensures FormatOk(f)
  {
    Format(zero,
           if letter == 'o' then 8 else if letter in {'x', 'X'} then 16 else 10,
           letter in {'d', 'i'},
           letter == 'X',
           WidthGiven(width))
  }

  function WidthGiven(width: nat): int {
    if width > 0 then width else -1
  }

  /** A width as it is written, which is not at all for 0. */
  function WidthText(width: nat): string {
    if width > 0 then Numeral(width, 10, false) else ""
  }

  /** What may follow the width and has no effect: 'l's, and after a point a precision. */
  predicate Ignored(extra: string, pointed: bool)
    decreases |extra|
  {
    || extra == ""
    || (extra[0] == 'l' && Ignored(extra[1..], pointed))
    || (extra[0] == '.' && Ignored(extra[1..], true))
    || (pointed && '0' <= extra[0] <= '9' && Ignored(extra[1..], true))
  }

  /** A conversion as a programmer writes it: '%', perhaps a zero, perhaps a width, perhaps a
      precision or an 'l', a letter. */
  function Spec(letter: char, zero: bool, width: nat, extra: string): string {
    "%" + (if zero then "0" else "") + WidthText(width) + extra + [letter]
  }

  lemma WidthTextIsRead(width: nat)
    ensures DecimalDigits(WidthText(width)) && WidthAfter(-1, WidthText(width)) == WidthGiven(width)
  {
    if width > 0 { WidthReadsBack(width); }
  }

  /** What comes first after '%' and no zero is neither '0' nor '%'. */
  lemma FirstIsPlain(width: nat, extra: string, tail: string)
    requires Ignored(extra, false) && tail != [] && tail[0] != '0' && tail[0] != '%'
    ensures var all := WidthText(width) + (extra + tail);
            all != [] && all[0] != '0' && all[0] != '%'
  {
    if width > 0 {
      NoLeadingZero(width, 10, false);
      TenIsDecimal(width);
    }
  }

  lemma PercentIsRead(st: LogState, tail: string, args: seq<Arg>)
    requires StateOk(st) && st.mode == Chars
    ensures Log(st, "%" + tail, args) == Log(FRESH.(mode := FirstFmtChar), tail, args)
  {
    assert ("%" + tail)[1..] == tail;
    assert LogOnce(st, '%', args) == LogStep(FRESH.(mode := FirstFmtChar), "", false);
    assert Log(st, "%" + tail, args) == "" + Log(FRESH.(mode := FirstFmtChar), tail, args);
  }

  lemma ZeroIsRead(tail: string, args: seq<Arg>)
    ensures Log(FRESH.(mode := FirstFmtChar), "0" + tail, args)
            == Log(FRESH.(mode := OtherFmtChar, f := FRESH.f.(leadingZero := true)), tail, args)
  {
    var st := FRESH.(mode := FirstFmtChar);
    assert ("0" + tail)[1..] == tail;
    assert Log(st, "0" + tail, args) == "" + Log(LogOnce(st, '0', args).st, tail, args);
  }

  /** A first character that is neither '0' nor '%' is read as any later one. */
  lemma FirstIsRead(tail: string, args: seq<Arg>)
    requires tail != [] && tail[0] != '0' && tail[0] != '%'
    ensures Log(FRESH.(mode := FirstFmtChar), tail, args) == Log(FRESH.(mode := OtherFmtChar), tail, args)
  {
  }

  /** An 'l', a point and the digits after a point leave the format alone. */
  lemma {:induction false} ExtraIsRead(st: LogState, extra: string, tail: string, args: seq<Arg>)
      returns (st': LogState)
    requires StateOk(st) && st.mode == OtherFmtChar && Ignored(extra, st.after >= 0)
    ensures st'.mode == OtherFmtChar && st'.f == st.f
    ensures Log(st, extra + tail, args) == Log(st', tail, args)
    decreases |extra|
  {
    hide Log, LogOnce;
    if extra == "" {
      st' := st;
      assert extra + tail == tail;
    } else {
      var all := extra + tail;
      assert all[1..] == extra[1..] + tail && all[0] == extra[0];
      var st1 := OneExtra(st, extra, all, args);
      st' := ExtraIsRead(st1, extra[1..], tail, args);
    }
  }

  lemma OneExtra(st: LogState, extra: string, fmt: string, args: seq<Arg>) returns (st': LogState)
    requires StateOk(st) && st.mode == OtherFmtChar && Ignored(extra, st.after >= 0)
    requires extra != "" && fmt != "" && fmt[0] == extra[0]
    ensures st'.mode == OtherFmtChar && st'.f == st.f && Ignored(extra[1..], st'.after >= 0)
    ensures Log(st, fmt, args) == Log(st', fmt[1..], args)
  {
    hide DigitValue, Field, Numeral, StringPad, Repeat;
    var r := LogOnce(st, fmt[0], args);
    st' := r.st;
    assert r.out == "" && !r.used;
    assert Log(st, fmt, args) == "" + Log(st', fmt[1..], args);
  }

  /** A written conversion up to its letter leaves the format it asks for. */
  lemma SpecIsRead(letter: char, zero: bool, width: nat, extra: string, rest: string, args: seq<Arg>)
      returns (st: LogState)
    requires Ignored(extra, false) && letter != '0' && letter != '%'
    ensures st.mode == OtherFmtChar && st.f == Format(zero, 10, true, false, WidthGiven(width))
    ensures Log(FRESH, Spec(letter, zero, width, extra) + rest, args) == Log(st, [letter] + rest, args)
  {
    hide Log, LogOnce, WidthText, Ignored;
    var digits, tail := WidthText(width), [letter] + rest;
    var all := digits + (extra + tail);
    WidthTextIsRead(width);
    PercentIsRead(FRESH, (if zero then "0" else "") + all, args);
    assert Spec(letter, zero, width, extra) + rest == "%" + ((if zero then "0" else "") + all);
    if zero {
      ZeroIsRead(all, args);
    } else {
      FirstIsPlain(width, extra, tail);
      assert "" + all == all;
      FirstIsRead(all, args);
    }
    var st2 := FRESH.(mode := OtherFmtChar, f := FRESH.f.(leadingZero := zero));
    DigitsAreRead(st2, digits, extra + tail, args);
    st := ExtraIsRead(st2.(f := st2.f.(width := WidthGiven(width))), extra, tail, args);
  }

  /** Between conversions the state holds nothing that matters. */
  lemma {:induction false} CharsForget(st: LogState, fmt: string, args: seq<Arg>)
    requires StateOk(st) && st.mode == Chars
    ensures Log(st, fmt, args) == Log(FRESH, fmt, args)
    decreases |fmt|
  {
    if fmt != [] && fmt[0] != '%' {
      CharsForget(st, fmt[1..], args);
    }
  }

  lemma LetterIsRead(st: LogState, letter: char, rest: string, args: seq<Arg>)
    requires StateOk(st) && LogOnce(st, letter, args).st.mode == Chars
    ensures var r := LogOnce(st, letter, args);
            Log(st, [letter] + rest, args) == r.out + Log(FRESH, rest, After(args, r.used))
  {
    hide LogOnce;
    var r := LogOnce(st, letter, args);
    assert ([letter] + rest)[1..] == rest && ([letter] + rest)[0] == letter;
    CharsForget(r.st, rest, After(args, r.used));
  }

  lemma FirstArg(a: Arg, more: seq<Arg>)
    ensures var args := [a] + more;
            && After(args, true) == more && (a.Num? ==> Number(args) == a.v) && (a.Str? ==> Text(args) == a.s)
  {
  }

  lemma IntegerLetter(st: LogState, letter: char, args: seq<Arg>, zero: bool, width: nat)
    requires letter in {'d', 'i', 'u', 'o', 'x', 'X'} && st.mode == OtherFmtChar
    requires st.f == Format(zero, 10, true, false, WidthGiven(width))
    ensures var r := LogOnce(st, letter, args);
            r.out == Field(Number(args), Asked(letter, zero, width)) && r.used && r.st.mode == Chars
  {
    hide Field, WidthGiven;
  }

  /** Every written integer conversion prints the next argument as it asks for, character by
      character, and the interpreter goes on with what follows and the arguments after it. */
  lemma SpecIsObeyed(letter: char, zero: bool, width: nat, extra: string, v: U32, rest: string, more: seq<Arg>)
      returns (out: string)
    requires letter in {'d', 'i', 'u', 'o', 'x', 'X'} && Ignored(extra, false)
    ensures Printed(out, v, Asked(letter, zero, width))
    ensures Log(FRESH, Spec(letter, zero, width, extra) + rest, [Num(v)] + more) == out + Log(FRESH, rest, more)
  {
    hide Log, LogOnce, Spec, Field, Printed, Asked, Ignored;
    var args := [Num(v)] + more;
    var st := SpecIsRead(letter, zero, width, extra, rest, args);
    IntegerLetter(st, letter, args, zero, width);
    LetterIsRead(st, letter, rest, args);
    FirstArg(Num(v), more);
    out := Field(v, Asked(letter, zero, width));
    FieldIsPrinted(v, Asked(letter, zero, width));
  }

  /** `s` stands at the end of `out`, with nothing but spaces before it. */
  predicate AtTheEnd(out: string, s: string, width: nat) {
    && |out| == (if width > |s| then width else |s|)
    && out[|out| - |s|..] == s && (forall i | 0 <= i < |out| - |s| :: out[i] == ' ')
  }

  lemma PaddedWithSpaces(n: int, s: string, width: nat)
    requires |Repeat(' ', n)| == if width > |s| then width - |s| else 0
    ensures AtTheEnd(Repeat(' ', n) + s, s, width)
  {
  }

  lemma CharLetter(st: LogState, args: seq<Arg>, width: nat)
    requires st.mode == OtherFmtChar && st.f.width == WidthGiven(width) && StateOk(st)
    ensures var r := LogOnce(st, 'c', args);
            r.used && r.st.mode == Chars && AtTheEnd(r.out, [(Number(args) % 256) as char], width)
  {
    hide AtTheEnd;
    PaddedWithSpaces(st.f.width - 1, CharOf(Number(args)), width);
  }

  /** %c prints the low byte of its argument at the end of its field. */
  lemma CharIsObeyed(zero: bool, width: nat, extra: string, v: U32, rest: string, more: seq<Arg>)
      returns (out: string)
    requires Ignored(extra, false)
    ensures AtTheEnd(out, [(v % 256) as char], width)
    ensures Log(FRESH, Spec('c', zero, width, extra) + rest, [Num(v)] + more) == out + Log(FRESH, rest, more)
  {
    hide Log, LogOnce, Spec, AtTheEnd, Ignored;
    var args := [Num(v)] + more;
    var st := SpecIsRead('c', zero, width, extra, rest, args);
    CharLetter(st, args, width);
    LetterIsRead(st, 'c', rest, args);
    FirstArg(Num(v), more);
    out := LogOnce(st, 'c', args).out;
  }

  lemma StringLetter(st: LogState, args: seq<Arg>, width: nat)
    requires st.mode == OtherFmtChar && st.f.width == WidthGiven(width) && StateOk(st)
    requires width < 0x8000_0000 && |Text(args)| < 0x8000_0000
    ensures var r := LogOnce(st, 's', args);
            r.used && r.st.mode == Chars && AtTheEnd(r.out, Text(args), width)
  {
    hide AtTheEnd;
    PaddedWithSpaces(StringPad(st.f.width, Text(args)), Text(args), width);
  }

  /** %s prints the whole string at the end of its field. Width and length are within an int. */
  lemma StringIsObeyed(zero: bool, width: nat, extra: string, s: string, rest: string, more: seq<Arg>)
      returns (out: string)
    requires Ignored(extra, false) && width < 0x8000_0000 && |s| < 0x8000_0000
    ensures AtTheEnd(out, s, width)
    ensures Log(FRESH, Spec('s', zero, width, extra) + rest, [Str(s)] + more) == out + Log(FRESH, rest, more)
  {
    hide Log, LogOnce, Spec, AtTheEnd, Ignored;
    var args := [Str(s)] + more;
    var st := SpecIsRead('s', zero, width, extra, rest, args);
    FirstArg(Str(s), more);
    StringLetter(st, args, width);
    LetterIsRead(st, 's', rest, args);
    out := LogOnce(st, 's', args).out;
  }

  /** Any other letter ends the conversion, prints nothing and takes no argument. */
  lemma OtherLetterIsSkipped(letter: char, zero: bool, width: nat, extra: string, rest: string, args: seq<Arg>)
    requires letter !in {'d', 'i', 'u', 'o', 'x', 'X', 'c', 's', '.', 'l', '%'} && !('0' <= letter <= '9')
    requires Ignored(extra, false)
    ensures Log(FRESH, Spec(letter, zero, width, extra) + rest, args) == Log(FRESH, rest, args)
  {
    hide Log, Spec, Ignored, Field, StringPad, Repeat;
    var st := SpecIsRead(letter, zero, width, extra, rest, args);
    assert LogOnce(st, letter, args) == LogStep(st.(mode := Chars), "", false);
    LetterIsRead(st, letter, rest, args);
    assert "" + Log(FRESH, rest, args) == Log(FRESH, rest, args);
  }

  // ---------------------------------------------------------------- the rest of a format

  /** Text without a '%' prints itself, in both. */
  lemma {:induction false} TextPrintsItself(text: string, rest: string, args: seq<Arg>)
    requires '%' !in text
    ensures Alt(text + rest, args) == text + Alt(rest, args)
    ensures Log(FRESH, text + rest, args) == text + Log(FRESH, rest, args)
    decreases |text|
  {
    hide Alt, Log;
    if text == "" {
      assert text + rest == rest;
    } else {
      OneCharPrintsItself(text[0], text[1..] + rest, args);
      assert text + rest == [text[0]] + (text[1..] + rest);
      TextPrintsItself(text[1..], rest, args);
      assert forall s: string :: [text[0]] + (text[1..] + s) == text + s;
    }
  }

  lemma OneCharPrintsItself(c: char, rest: string, args: seq<Arg>)
    requires c != '%'
    ensures Alt([c] + rest, args) == [c] + Alt(rest, args)
    ensures Log(FRESH, [c] + rest, args) == [c] + Log(FRESH, rest, args)
  {
    assert ([c] + rest)[1..] == rest;
  }

  /** "%%" prints one '%', and a '%' at the end prints nothing, in both. */
  lemma PercentSigns(rest: string, args: seq<Arg>)
    ensures Alt("%%" + rest, args) == "%" + Alt(rest, args) && Alt("%", args) == ""
    ensures Log(FRESH, "%%" + rest, args) == "%" + Log(FRESH, rest, args) && Log(FRESH, "%", args) == ""
  {
    var fmt := "%%" + rest;
    assert fmt[1..] == "%" + rest && fmt[2..] == rest && fmt[1..][1..] == rest;
    LogTwo(FRESH, fmt, args);
    PercentIsRead(FRESH, "", args);
    assert "%" + "" == "%";
  }

  /** What alt_printf prints for a letter: a character, a string, or a number in hexadecimal
      without padding; any other letter prints nothing and takes no argument. */
  lemma AltIsObeyed(v: U32, s: string, rest: string, more: seq<Arg>) returns (hex: string)
    ensures Alt("%c" + rest, [Num(v)] + more) == [(v % 256) as char] + Alt(rest, more)
    ensures Alt("%s" + rest, [Str(s)] + more) == s + Alt(rest, more)
    ensures Writes(hex, v, 16, false) && Alt("%x" + rest, [Num(v)] + more) == hex + Alt(rest, more)
  {
    hide Alt, Writes, Numeral;
    FirstArg(Num(v), more);
    FirstArg(Str(s), more);
    AltTwo('c', rest, [Num(v)] + more);
    AltTwo('s', rest, [Str(s)] + more);
    AltTwo('x', rest, [Num(v)] + more);
    NumeralWrites(v, 16, false);
    hex := Numeral(v, 16, false);
    assert "%c" == "%" + ['c'] && "%s" == "%" + ['s'] && "%x" == "%" + ['x'];
  }

  lemma AltTwo(c: char, rest: string, args: seq<Arg>)
    ensures var (out, used) := Directive(c, args);
            Alt("%" + [c] + rest, args) == out + Alt(rest, After(args, used))
  {
    var fmt := "%" + [c] + rest;
    assert fmt[0] == '%' && fmt[1] == c && fmt[2..] == rest;
  }

  lemma AltSkips(c: char, rest: string, args: seq<Arg>)
    requires c !in {'c', 's', 'x', '%'}
    ensures Alt("%" + [c] + rest, args) == Alt(rest, args)
  {
    hide Alt;
    AltTwo(c, rest, args);
    assert "" + Alt(rest, args) == Alt(rest, args);
  }
}
