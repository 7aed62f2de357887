/** The two format-string interpreters, character by character: `alt_printf` and the
    logger's `alt_log_private_printf`. */
module PrintfFormats {
  import opened Words
  import opened Numerals
  import opened Printers

  /** An argument. One that is missing, or of the wrong kind, is undefined in C; here it
      reads as zero or as the empty string. */
  datatype Arg = Num(v: U32) | Str(s: string)

  function Number(args: seq<Arg>): U32 {
    if args != [] && args[0].Num? then args[0].v else 0
  }

  function Text(args: seq<Arg>): string {
    if args != [] && args[0].Str? then args[0].s else ""
  }

  function Later(args: seq<Arg>): seq<Arg> {
    if args != [] then args[1..] else []
  }

  /** What a character device makes of an int. */
  function CharOf(v: U32): string {
    [(v % 256) as char]
  }

  /** The padding of a string as an int (alt_log_printf.c, line 329): the length is taken off
      the width in unsigned arithmetic. */
  function StringPad(width: int, s: string): int {
    var u := (width - |s|) % W;
    if u >= 0x8000_0000 then u - W else u
  }

  // ---------------------------------------------------------------- alt_printf

  /** What alt_printf prints for the character after a '%', and whether it uses an argument. */
  function Directive(c: char, args: seq<Arg>): (string, bool) {
    match c
    case '%' => ("%", false)
    case 'c' => (CharOf(Number(args)), true)
    case 'x' => (Numeral(Number(args), 16, false), true)
    case 's' => (Text(args), true)
    case _ => ("", false)
  }

  function After(args: seq<Arg>, used: bool): seq<Arg> {
    if used then Later(args) else args
  }

  /** What `alt_printf` prints. */
  function Alt(fmt: string, args: seq<Arg>): string
    decreases |fmt|
  {
    if fmt == [] then ""
    else if fmt[0] != '%' then [fmt[0]] + Alt(fmt[1..], args)
    else if |fmt| == 1 then ""
    else
      var (out, used) := Directive(fmt[1], args);
      out + Alt(fmt[2..], After(args, used))
  }

  lemma AltNext(fmt: string, w: nat, args: seq<Arg>)
    requires w < |fmt|
    ensures fmt[w] != '%' ==> Alt(fmt[w..], args) == [fmt[w]] + Alt(fmt[w + 1..], args)
    ensures fmt[w] == '%' && w + 1 == |fmt| ==> Alt(fmt[w..], args) == "" == Alt(fmt[w + 1..], args)
    ensures fmt[w] == '%' && w + 1 < |fmt| ==>
              var (out, used) := Directive(fmt[w + 1], args);
              Alt(fmt[w..], args) == out + Alt(fmt[w + 2..], After(args, used))
  {
    assert fmt[w..][1..] == fmt[w + 1..];
    if w + 1 < |fmt| { assert fmt[w..][2..] == fmt[w + 2..]; }
  }

  method AltDirective(c: char, args: seq<Arg>) returns (out: string, used: bool)
    ensures (out, used) == Directive(c, args)
  {
    out, used := "", false;
    if c == '%' {
      out := "%";
    } else if c == 'c' {
      out, used := CharOf(Number(args)), true;
    } else if c == 'x' {
      out := PrintHex(Number(args));
      used := true;
    } else if c == 's' {
      out, used := Text(args), true;
    }
  }

  /** `alt_printf` */
  method AltPrintf(fmt: string, args: seq<Arg>) returns (out: string)
    ensures out == Alt(fmt, args)
  {
    hide Alt;
    var w, rest := 0, args;
    out := "";
    while w < |fmt|
      invariant w <= |fmt| && out + Alt(fmt[w..], rest) == Alt(fmt, args)
    {
      var more;
      w, more, rest := AltOnce(fmt, w, rest);
      out := out + more;
    }
    AltOfNothing(fmt[w..], rest);
  }

  /** The body of the loop. */
  method AltOnce(fmt: string, start: nat, args: seq<Arg>) returns (w: nat, out: string, rest: seq<Arg>)
    requires start < |fmt|
    ensures start < w <= |fmt| && Alt(fmt[start..], args) == out + Alt(fmt[w..], rest)
  {
    hide Alt, Directive;
    AltNext(fmt, start, args);
    w, out, rest := start + 1, "", args;
    var c := fmt[start];
    if c != '%' {
      out := [c];
    } else if w < |fmt| {
      var used;
      out, used := AltDirective(fmt[w], args);
      w := w + 1;
      rest := After(args, used);
    }
  }

  lemma AltOfNothing(fmt: string, args: seq<Arg>)
    requires fmt == []
    ensures Alt(fmt, args) == ""
  {
  }

  // ---------------------------------------------------------------- the logger

  datatype Mode = Chars | FirstFmtChar | OtherFmtChar

  /** The local variables of `alt_log_private_printf`, but for its pointer and arguments.
      `fmtLong` chooses between types of the same size and so changes nothing. */
  datatype LogState = LogState(mode: Mode, f: Format, isLong: bool, after: int)

  const FRESH := LogState(Chars, Format(false, 10, true, false, -1), false, -1)

  /** What one character does: the next state, what is printed, and how many arguments
      are used. */
  datatype LogStep = LogStep(st: LogState, out: string, used: bool)

  predicate StateOk(st: LogState) {
    FormatOk(st.f)
  }

  function DigitIn(c: char): int
    requires '0' <= c <= '9'
  {
    DigitValue(c)
  }

  /** The state otherFmtChar. */
  function OtherFmtStep(st: LogState, c: char, args: seq<Arg>): (r: LogStep)
    requires StateOk(st)
    ensures StateOk(r.st)
  {
    var f, done := st.f, st.(mode := Chars);
    if c == '.' then LogStep(st.(after := 0), "", false)
    else if '0' <= c <= '9' then
      if st.after < 0
      then LogStep(st.(f := f.(width := (if f.width < 0 then 0 else f.width * 10) + DigitIn(c))), "", false)
      else LogStep(st.(after := st.after * 10 + DigitIn(c)), "", false)
    else if c == 'l' then LogStep(st.(isLong := true), "", false)
    else
      match c
      case 'd' => LogStep(done, Field(Number(args), f), true)
      case 'i' => LogStep(done, Field(Number(args), f), true)
      case 'u' => LogStep(done, Field(Number(args), f.(isSigned := false)), true)
      case 'o' => LogStep(done, Field(Number(args), f.(isSigned := false, base := 8)), true)
      case 'x' => LogStep(done, Field(Number(args), f.(isSigned := false, base := 16)), true)
      case 'X' => LogStep(done, Field(Number(args), f.(isSigned := false, base := 16, upper := true)), true)
      case 'c' => LogStep(done, Repeat(' ', f.width - 1) + CharOf(Number(args)), true)
      case 's' => LogStep(done, Repeat(' ', StringPad(f.width, Text(args))) + Text(args), true)
      case _ => LogStep(done, "", false)
  }

  function LogOnce(st: LogState, c: char, args: seq<Arg>): (r: LogStep)
    requires StateOk(st)
    ensures StateOk(r.st)
  {
    match st.mode
    case Chars => if c == '%' then LogStep(FRESH.(mode := FirstFmtChar), "", false) else LogStep(st, [c], false)
    case FirstFmtChar =>
      if c == '0' then LogStep(st.(mode := OtherFmtChar, f := st.f.(leadingZero := true)), "", false)
      else if c == '%' then LogStep(st.(mode := Chars), "%", false)
      else OtherFmtStep(st.(mode := OtherFmtChar), c, args)
    case OtherFmtChar => OtherFmtStep(st, c, args)
  }

  /** What the logger prints from the state `st`. */
  function Log(st: LogState, fmt: string, args: seq<Arg>): string
    requires StateOk(st)
    decreases |fmt|
  {
    if fmt == [] then ""
    else
      var r := LogOnce(st, fmt[0], args);
      r.out + Log(r.st, fmt[1..], After(args, r.used))
  }

  /** Print an integer conversion. */
  method LogInteger(f: Format, c: char, args: seq<Arg>) returns (out: string)
    requires FormatOk(f) && c in {'d', 'i', 'u', 'o', 'x', 'X'}
    ensures out == OtherFmtStep(LogState(OtherFmtChar, f, false, -1), c, args).out
  {
    var g := f;
    if c == 'u' {
      g := g.(isSigned := false);
    } else if c == 'o' {
      g := g.(isSigned := false, base := 8);
    } else if c == 'x' {
      g := g.(isSigned := false, base := 16);
    } else if c == 'X' {
      g := g.(isSigned := false, base := 16, upper := true);
    }
    out := PrintInteger(Number(args), g);
  }

  lemma LogNext(st: LogState, fmt: string, w: nat, args: seq<Arg>)
    requires StateOk(st) && w <= |fmt|
    ensures w == |fmt| ==> Log(st, fmt[w..], args) == ""
    ensures w < |fmt| ==>
              var r := LogOnce(st, fmt[w], args);
              Log(st, fmt[w..], args) == r.out + Log(r.st, fmt[w + 1..], After(args, r.used))
  {
    if w < |fmt| { assert fmt[w..][1..] == fmt[w + 1..]; }
  }

  /** `alt_log_private_printf` */
  method LogPrintf(fmt: string, args: seq<Arg>) returns (out: string)
    ensures out == Log(FRESH, fmt, args)
  {
    hide Log, LogOnce;
    var w, rest, st := 0, args, FRESH;
    out := "";
    while w < |fmt|
      invariant w <= |fmt| && StateOk(st)
      invariant out + Log(st, fmt[w..], rest) == Log(FRESH, fmt, args)
    {
      LogNext(st, fmt, w, rest);
      var more, used;
      st, more, used := LogChar(st, fmt[w], rest);
      out := out + more;
      rest := After(rest, used);
      w := w + 1;
    }
    LogNext(st, fmt, w, rest);
  }

  /** The body of the logger's loop. */
  method LogChar(was: LogState, c: char, args: seq<Arg>) returns (st: LogState, out: string, used: bool)
    requires StateOk(was)
    ensures LogStep(st, out, used) == LogOnce(was, c, args)
  {
    st, out, used := was, "", false;
    if st.mode == Chars {
      if c == '%' {
        st := LogState(FirstFmtChar, Format(false, 10, true, false, -1), false, -1);
      } else {
        out := [c];
      }
      return;
    }
    if st.mode == FirstFmtChar {
      if c == '0' {
        st := st.(mode := OtherFmtChar, f := st.f.(leadingZero := true));
        return;
      } else if c == '%' {
        st, out := st.(mode := Chars), "%";
        return;
      }
      st := st.(mode := OtherFmtChar);
    }
    if c == '.' {
      st := st.(after := 0);
    } else if '0' <= c <= '9' {
      if st.after < 0 {
        var width := if st.f.width < 0 then 0 else st.f.width * 10;
        st := st.(f := st.f.(width := width + DigitIn(c)));
      } else {
        st := st.(after := st.after * 10 + DigitIn(c));
      }
    } else if c == 'l' {
      st := st.(isLong := true);
    } else {
      if c in {'d', 'i', 'u', 'o', 'x', 'X'} {
        out := LogInteger(st.f, c, args);
        used := true;
      } else if c == 'c' {
        out := Repeat(' ', st.f.width - 1) + CharOf(Number(args));
        used := true;
      } else if c == 's' {
        out := Repeat(' ', StringPad(st.f.width, Text(args))) + Text(args);
        used := true;
      }
      st := st.(mode := Chars);
    }
  }
}
