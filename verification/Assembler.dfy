/** The ReCOP assembler: lines, operands, encoding, and the two passes. */
module Assembler {
  import opened Words

  datatype Error = UnknownOpcode | BadNumber | UnboundKey | NoThreeRegisterForm

  datatype Result<T> = Ok(value: T) | Err(error: Error) {
    predicate IsFailure() {
      Err?
    }

    function PropagateFailure<U>(): Result<U>
      requires Err?
    {
      Err(error)
    }

    function Extract(): T
      requires Ok?
    {
      value
    }
  }

  /** The parts of Python's library that the assembler calls: `int` with base 10 and
      with base 0 (None where they raise), `isdigit`, `isidentifier`, `upper`, `strip`,
      `split` at white space, and the split at white space and commas of line 172. Nothing is
      taken for granted about them. */
  datatype Python = Python(int10: string -> Option<int>, int0: string -> Option<int>,
                           isDigit: string -> bool, isIdentifier: string -> bool,
                           upper: string -> string, strip: string -> string,
                           words: string -> seq<string>, fields: string -> seq<string>)

  datatype Mode = Inherent | Immediate | Direct | Register

  function ModeBits(m: Mode): nat {
    match m
    case Inherent => 0
    case Immediate => 1
    case Direct => 2
    case Register => 3
  }

  function Opcode(mnemonic: string): Option<nat> {
    match mnemonic
    case "LDR" => Some(0x00)
    case "STR" => Some(0x02)
    case "JMP" => Some(0x18)
    case "PRESENT" => Some(0x1C)
    case "AND" => Some(0x08)
    case "OR" => Some(0x0C)
    case "ADD" => Some(0x38)
    case "SUB" => Some(0x04)
    case "SUBV" => Some(0x03)
    case "CLFZ" => Some(0x10)
    case "CER" => Some(0x3C)
    case "CEOT" => Some(0x3E)
    case "SEOT" => Some(0x3F)
    case "NOOP" => Some(0x34)
    case "SZ" => Some(0x14)
    case "LER" => Some(0x36)
    case "SSVOP" => Some(0x3B)
    case "SSOP" => Some(0x3A)
    case "LSIP" => Some(0x37)
    case "DATACALL" => Some(0x28)
    case "DATACALL2" => Some(0x29)
    case "MAX" => Some(0x1E)
    case "STRPC" => Some(0x1D)
    case "SRES" => Some(0x2A)
    case _ => None
  }

  /** The mnemonic an opcode was written as. */
  function Mnemonic(opcode: nat): string {
    match opcode
    case 0x00 => "LDR"
    case 0x02 => "STR"
    case 0x18 => "JMP"
    case 0x1C => "PRESENT"
    case 0x08 => "AND"
    case 0x0C => "OR"
    case 0x38 => "ADD"
    case 0x04 => "SUB"
    case 0x03 => "SUBV"
    case 0x10 => "CLFZ"
    case 0x3C => "CER"
    case 0x3E => "CEOT"
    case 0x3F => "SEOT"
    case 0x34 => "NOOP"
    case 0x14 => "SZ"
    case 0x36 => "LER"
    case 0x3B => "SSVOP"
    case 0x3A => "SSOP"
    case 0x37 => "LSIP"
    case 0x28 => "DATACALL"
    case 0x29 => "DATACALL2"
    case 0x1E => "MAX"
    case 0x1D => "STRPC"
    case 0x2A => "SRES"
    case _ => ""
  }

  /** Opcodes have six bits and no two mnemonics share one. */
  lemma OpcodesAreDistinct(m: string)
    requires Opcode(m).Some?
    ensures Opcode(m).value < 64 && Mnemonic(Opcode(m).value) == m
  {
  }

  // ---------------------------------------------------------------- operands

  function ParseRegister(py: Python, reg: string): Result<int> {
    if reg != [] && reg[0] == 'R' then
      match py.int10(reg[1..])
      case Some(n) => Ok(n)
      case None => Err(BadNumber)
    else Ok(0)
  }

  function ParseImmediate(py: Python, val: string): Result<int> {
    match py.int0(if val != [] && val[0] == '#' then val[1..] else val)
    case Some(n) => Ok(n)
    case None => Err(BadNumber)
  }

  function DetectMode(operand: string): Mode {
    if operand == [] then Inherent
    else if operand[0] == '#' then Immediate
    else if operand[0] == '$' then Direct
    else if operand[0] == 'R' then Register
    else Direct
  }

  /** A direct operand (lines 105 and 106): without its first character, whatever that is, it
      is a decimal number or else a label, and an unknown label is 0. */
  function Resolve(py: Python, labels: map<string, int>, operand: string): Result<int>
    requires operand != []
  {
    var key := operand[1..];
    if py.isDigit(key) then
      match py.int10(key)
      case Some(n) => Ok(n)
      case None => Err(BadNumber)
    else Ok(if key in labels then labels[key] else 0)
  }

  // ---------------------------------------------------------------- one instruction

  /** What an instruction line is reduced to before it is packed. */
  datatype Coded = Coded(mode: Mode, opcode: nat, rz: int, rx: int, operand: int)

  function NonEmpty(ops: seq<string>): (r: seq<string>)
    ensures forall i | 0 <= i < |r| :: r[i] != []
  {
    if ops == [] then [] else (if ops[0] != [] then [ops[0]] else []) + NonEmpty(ops[1..])
  }

  const THREE_REGISTER_FORM := {"ADD", "SUB", "SUBV", "AND", "OR"}

  /** The branches on the number of operands in `assemble_instruction`. */
  function CodeOne(py: Python, labels: map<string, int>, m: string, code: nat, op: string): Result<Coded>
    requires op != []
  {
    if m == "JMP" then
      if op[0] == 'R' then
        var rx :- ParseRegister(py, op);
        Ok(Coded(Register, code, 0, rx, 0))
      else Err(UnboundKey)
    else
      match DetectMode(op)
      case Register =>
        var rz :- ParseRegister(py, op);
        Ok(Coded(Register, code, rz, 0, 0))
      case Immediate =>
        var n :- ParseImmediate(py, op);
        Ok(Coded(Immediate, code, 0, 0, n))
      case Direct =>
        var n :- Resolve(py, labels, op);
        Ok(Coded(Direct, code, 0, 0, n))
      case Inherent => Ok(Coded(Inherent, code, 0, 0, 0))
  }

  function CodeTwo(py: Python, labels: map<string, int>, m: string, code: nat, op0: string, op1: string): Result<Coded>
    requires op1 != []
  {
    var rz :- ParseRegister(py, op0);
    match DetectMode(op1)
    case Register =>
      var rx :- ParseRegister(py, op1);
      Ok(Coded(Register, code, rz, rx, 0))
    case Immediate =>
      var n :- ParseImmediate(py, op1);
      Ok(Coded(Immediate, code, rz, 0, n))
    case Direct =>
      var n :- Resolve(py, labels, op1);
      if m == "STR" then Ok(Coded(Direct, code, 0, rz, n)) else Ok(Coded(Direct, code, rz, 0, n))
    case Inherent => Ok(Coded(Inherent, code, rz, 0, 0))
  }

  function CodeThree(py: Python, labels: map<string, int>, m: string, code: nat, op0: string, op2: string)
    : Result<Coded>
    requires op2 != []
  {
    if m !in THREE_REGISTER_FORM then Err(NoThreeRegisterForm)
    else
      var rz :- ParseRegister(py, op0);
      var rx :- ParseRegister(py, op2);
      match DetectMode(op2)
      case Immediate =>
        var n :- ParseImmediate(py, op2);
        Ok(Coded(Immediate, code, rz, rx, n))
      case Direct =>
        var n :- Resolve(py, labels, op2);
        Ok(Coded(Direct, code, rz, rx, n))
      case other => Ok(Coded(other, code, rz, rx, 0))
  }

  function CodeInstruction(py: Python, labels: map<string, int>, parts: seq<string>): (r: Result<Coded>)
    requires parts != []
    ensures r.Ok? ==> r.value.opcode < 64 && Opcode(py.upper(parts[0])) == Some(r.value.opcode)
  {
    var m := py.upper(parts[0]);
    match Opcode(m)
    case None => Err(UnknownOpcode)
    case Some(code) =>
      var ops := NonEmpty(parts[1..]);
      if m == "NOOP" then Ok(Coded(Inherent, code, 0, 0, 0))
      else if |ops| == 1 then CodeOne(py, labels, m, code, ops[0])
      else if |ops| == 2 then CodeTwo(py, labels, m, code, ops[0], ops[1])
      else if |ops| == 3 then CodeThree(py, labels, m, code, ops[0], ops[2])
      else Ok(Coded(Inherent, code, 0, 0, 0))
  }

  // ---------------------------------------------------------------- packing

  type Word = x: int | 0 <= x < 0x1_0000

  /** The words of an instruction (lines 135 to 142): mode, opcode and two registers in one,
      and the operand in a second for the immediate and direct modes. */
  function Pack(c: Coded): seq<Word>
    requires c.opcode < 64
  {
    var word1 := (ModeBits(c.mode) * 64 + c.opcode) * 256 + c.rz % 16 * 16 + c.rx % 16;
    if c.mode in {Immediate, Direct} then [word1, c.operand % 0x1_0000] else [word1]
  }

  /** What a word stream can still tell of an instruction. */
  function Kept(c: Coded): Coded {
    Coded(c.mode, c.opcode, c.rz % 16, c.rx % 16,
          if c.mode in {Immediate, Direct} then c.operand % 0x1_0000 else 0)
  }

  function ModeOf(bits: nat): Mode {
    if bits == 0 then Inherent else if bits == 1 then Immediate else if bits == 2 then Direct else Register
  }

  /** Read a word stream back: the address-mode bits say whether an operand follows. */
  function Unpack(words: seq<Word>): Option<seq<Coded>>
    decreases |words|
  {
    if words == [] then Some([])
    else
      var w := words[0];
      var mode := ModeOf(w / 0x4000);
      var two := mode in {Immediate, Direct};
      if two && |words| == 1 then None
      else
        var c := Coded(mode, w / 256 % 64, w / 16 % 16, w % 16, if two then words[1] else 0);
        match Unpack(if two then words[2..] else words[1..])
        case None => None
        case Some(rest) => Some([c] + rest)
  }

  function PackAll(cs: seq<Coded>): seq<Word>
    requires forall c | c in cs :: c.opcode < 64
  {
    if cs == [] then [] else Pack(cs[0]) + PackAll(cs[1..])
  }

  function KeptAll(cs: seq<Coded>): seq<Coded> {
    if cs == [] then [] else [Kept(cs[0])] + KeptAll(cs[1..])
  }

  lemma FieldsOfWord(mode: nat, opcode: nat, rz: nat, rx: nat)
    requires mode < 4 && opcode < 64 && rz < 16 && rx < 16
    ensures var w := (mode * 64 + opcode) * 256 + rz * 16 + rx;
            && 0 <= w < 0x1_0000 && w / 0x4000 == mode
            && w / 256 % 64 == opcode && w / 16 % 16 == rz && w % 16 == rx
  {
    var w := (mode * 64 + opcode) * 256 + rz * 16 + rx;
    SplitByte(w, mode * 64 + opcode, rz * 16 + rx);
    SplitNibble(rz * 16 + rx, rz, rx);
    assert w == ((mode * 64 + opcode) * 16 + rz) * 16 + rx;
    SplitNibble(w, (mode * 64 + opcode) * 16 + rz, rx);
    SplitNibble((mode * 64 + opcode) * 16 + rz, mode * 64 + opcode, rz);
    assert w == mode * 0x4000 + (opcode * 256 + rz * 16 + rx);
    SplitMode(w, mode, opcode * 256 + rz * 16 + rx);
    SplitOpcode(mode * 64 + opcode, mode, opcode);
  }

  lemma SplitNibble(w: nat, q: nat, r: nat)
    requires w == q * 16 + r && r < 16
    ensures w / 16 == q && w % 16 == r
  {
  }

  lemma SplitOpcode(w: nat, q: nat, r: nat)
    requires w == q * 64 + r && r < 64
    ensures w % 64 == r
  {
  }

  lemma SplitByte(w: nat, q: nat, r: nat)
    requires w == q * 256 + r && r < 256
    ensures w / 256 == q
  {
  }

  lemma SplitMode(w: nat, q: nat, r: nat)
    requires w == q * 0x4000 + r && r < 0x4000
    ensures w / 0x4000 == q
  {
  }

  lemma UnpackFirst(c: Coded, rest: seq<Word>)
    requires c.opcode < 64
    ensures Unpack(Pack(c) + rest)
            == match Unpack(rest) case None => None case Some(cs) => Some([Kept(c)] + cs)
  {
    FieldsOfWord(ModeBits(c.mode), c.opcode, c.rz % 16, c.rx % 16);
    var words := Pack(c) + rest;
    if c.mode in {Immediate, Direct} {
      assert words[2..] == rest;
    } else {
      assert words[1..] == rest;
    }
  }

  /** The word stream of any program is read back exactly: every mode, opcode, rz and rx
      modulo 16, and operand modulo 2^16. */
  lemma {:induction false} StreamReadsBack(cs: seq<Coded>)
    requires forall c | c in cs :: c.opcode < 64
    ensures Unpack(PackAll(cs)) == Some(KeptAll(cs))
  {
    if cs != [] {
      UnpackFirst(cs[0], PackAll(cs[1..]));
      StreamReadsBack(cs[1..]);
    }
  }

  /** So no two programs that differ in anything kept have the same stream. */
  lemma StreamsAreUnique(cs: seq<Coded>, ds: seq<Coded>)
    requires (forall c | c in cs :: c.opcode < 64) && (forall d | d in ds :: d.opcode < 64)
    ensures PackAll(cs) == PackAll(ds) <==> KeptAll(cs) == KeptAll(ds)
  {
    StreamReadsBack(cs);
    StreamReadsBack(ds);
    if KeptAll(cs) == KeptAll(ds) {
      SameKeptSameStream(cs, ds);
    }
  }

  lemma {:induction false} SameKeptSameStream(cs: seq<Coded>, ds: seq<Coded>)
    requires (forall c | c in cs :: c.opcode < 64) && (forall d | d in ds :: d.opcode < 64)
    requires KeptAll(cs) == KeptAll(ds)
    ensures PackAll(cs) == PackAll(ds)
  {
    if cs != [] && ds != [] {
      assert KeptAll(cs)[0] == KeptAll(ds)[0] && KeptAll(cs)[1..] == KeptAll(ds)[1..];
      SameKeptSameStream(cs[1..], ds[1..]);
    }
  }

  lemma {:induction false} PackAllAppends(cs: seq<Coded>, c: Coded)
    requires (forall d | d in cs :: d.opcode < 64) && c.opcode < 64
    ensures PackAll(cs + [c]) == PackAll(cs) + Pack(c)
  {
    if cs == [] {
      assert [c][1..] == [];
    } else {
      assert (cs + [c])[1..] == cs[1..] + [c];
      PackAllAppends(cs[1..], c);
    }
  }

  /** `assemble_instruction`, with the locals it updates. */
  method AssembleInstruction(py: Python, labels: map<string, int>, parts: seq<string>) returns (r: Result<seq<Word>>)
    requires parts != []
    ensures r == match CodeInstruction(py, labels, parts)
                 case Ok(c) => Ok(Pack(c))
                 case Err(e) => Err(e)
  {
    hide Opcode, Mnemonic, ParseRegister, ParseImmediate, Resolve, DetectMode;
    var mnemonic := py.upper(parts[0]);
    var opcode := Opcode(mnemonic);
    if opcode.None? {
      return Err(UnknownOpcode);
    }
    OpcodesAreDistinct(mnemonic);
    var am, rz, rx, operand := Inherent, 0, 0, 0;
    var ops := NonEmpty(parts[1..]);
    if mnemonic == "NOOP" {
    } else if |ops| == 1 {
      if mnemonic == "JMP" {
        if ops[0][0] == 'R' {
          am := Register;
          rx :- ParseRegister(py, ops[0]);
        } else {
          // `key` is read here before anything is assigned to it
          return Err(UnboundKey);
        }
      } else {
        am := DetectMode(ops[0]);
        if am == Register {
          rz :- ParseRegister(py, ops[0]);
        } else if am == Immediate {
          operand :- ParseImmediate(py, ops[0]);
        } else if am == Direct {
          operand :- Resolve(py, labels, ops[0]);
        }
      }
    } else if |ops| == 2 {
      am := DetectMode(ops[1]);
      rz :- ParseRegister(py, ops[0]);
      if am == Register {
        rx :- ParseRegister(py, ops[1]);
      } else if am == Immediate {
        operand :- ParseImmediate(py, ops[1]);
      } else if am == Direct {
        operand :- Resolve(py, labels, ops[1]);
        if mnemonic == "STR" {
          rz := 0;
          rx := ParseRegister(py, ops[0]).Extract();
        }
      }
    } else if |ops| == 3 {
      if mnemonic !in THREE_REGISTER_FORM {
        return Err(NoThreeRegisterForm);
      }
      am := DetectMode(ops[2]);
      rz :- ParseRegister(py, ops[0]);
      rx :- ParseRegister(py, ops[2]);
      if am == Immediate {
        operand :- ParseImmediate(py, ops[2]);
      } else if am == Direct {
        operand :- Resolve(py, labels, ops[2]);
      }
    }
    var word1 := (ModeBits(am) * 64 + opcode.value) * 256 + rz % 16 * 16 + rx % 16;
    FieldsOfWord(ModeBits(am), opcode.value, rz % 16, rx % 16);
    if am in {Immediate, Direct} {
      return Ok([word1, operand % 0x1_0000]);
    } else {
      return Ok([word1]);
    }
  }

  /** A jump to anything but a register is never encoded, whatever the labels are. */
  lemma JumpNeedsARegister(py: Python, labels: map<string, int>, parts: seq<string>)
    requires parts != [] && py.upper(parts[0]) == "JMP" && |NonEmpty(parts[1..])| == 1
    ensures CodeInstruction(py, labels, parts).Ok?
            <==> NonEmpty(parts[1..])[0][0] == 'R' && py.int10(NonEmpty(parts[1..])[0][1..]).Some?
  {
    var op := NonEmpty(parts[1..])[0];
    assert CodeInstruction(py, labels, parts) == CodeOne(py, labels, "JMP", 0x18, op);
  }

  /** The three-operand form never looks at its middle operand. */
  lemma MiddleOperandIsIgnored(py: Python, labels: map<string, int>, name: string,
                               a: string, b: string, b': string, c: string)
    requires a != [] && b != [] && b' != [] && c != []
    ensures CodeInstruction(py, labels, [name, a, b, c]) == CodeInstruction(py, labels, [name, a, b', c])
  {
    ThreeOperands(name, a, b, c);
    ThreeOperands(name, a, b', c);
  }

  lemma ThreeOperands(name: string, a: string, b: string, c: string)
    requires a != [] && b != [] && c != []
    ensures NonEmpty([name, a, b, c][1..]) == [a, b, c]
  {
    assert [name, a, b, c][1..] == [a, b, c];
    assert [a, b, c][1..] == [b, c];
    assert [b, c][1..] == [c];
    assert [c][1..] == [];
    assert NonEmpty([c]) == [c];
    assert NonEmpty([b, c]) == [b] + [c];
    assert NonEmpty([a, b, c]) == [a] + [b, c];
  }

  // ---------------------------------------------------------------- lines

  datatype Line = Blank | Label(name: string, rest: string) | Instruction(text: string)

  /** What precedes the first `mark`; all of `s` when there is none. */
  function Before(s: string, mark: char): (r: string)
    ensures |r| <= |s| && r == s[..|r|] && mark !in r
    ensures |r| == |s| <==> mark !in s
    ensures |r| < |s| ==> s[|r|] == mark
  {
    if s == [] || s[0] == mark then [] else [s[0]] + Before(s[1..], mark)
  }

  function Joined(tokens: seq<string>): string {
    if tokens == [] then [] else if |tokens| == 1 then tokens[0] else tokens[0] + " " + Joined(tokens[1..])
  }

  function ParseLine(py: Python, text: string): Line {
    var line := py.strip(Before(text, ';'));
    if line == [] then Blank
    else if ':' in line then
      var head := Before(line, ':');
      Label(py.strip(head), py.strip(line[|head| + 1..]))
    else
      var tokens := py.words(line);
      if |tokens| > 1 && py.isIdentifier(tokens[0]) && Opcode(py.upper(tokens[0])).None? then
        Label(py.strip(tokens[0]), py.strip(Joined(tokens[1..])))
      else Instruction(line)
  }

  predicate IsEnd(py: Python, text: string) {
    py.upper(py.strip(text)) in {"ENDPROG", "END"}
  }

  // ---------------------------------------------------------------- pass one

  /** The instruction text a line contributes, if any. */
  function Contributes(py: Python, line: Line): (r: seq<string>)
    ensures |r| <= 1
  {
    match line
    case Blank => []
    case Label(_, rest) => if IsEnd(py, rest) || rest == [] then [] else [rest]
    case Instruction(text) => if IsEnd(py, text) then [] else [text]
  }

  function Instructions(py: Python, lines: seq<Line>): seq<string> {
    if lines == [] then []
    else Instructions(py, lines[..|lines| - 1]) + Contributes(py, lines[|lines| - 1])
  }

  /** Line i is the last one that carries this label. */
  predicate LastlyLabelled(lines: seq<Line>, name: string, i: nat) {
    && i < |lines| && lines[i].Label? && lines[i].name == name
    && forall j | i < j < |lines| :: !(lines[j].Label? && lines[j].name == name)
  }

  /** The labels are exactly those that some line carries, and each stands for the number of
      instructions that come before the last line that carries it. */
  ghost predicate LabelsAreRight(py: Python, lines: seq<Line>, labels: map<string, int>) {
    && (forall name | name in labels ::
          exists i: nat :: LastlyLabelled(lines, name, i) && labels[name] == |Instructions(py, lines[..i])|)
    && forall i | 0 <= i < |lines| && lines[i].Label? :: lines[i].name in labels
  }

  /** The labels pass one has when it is through. */
  function Labels(py: Python, lines: seq<Line>): map<string, int> {
    if lines == [] then map[]
    else
      var n := |lines| - 1;
      var before := Labels(py, lines[..n]);
      if lines[n].Label? then before[lines[n].name := |Instructions(py, lines[..n])|] else before
  }

  lemma {:induction false} LabelsCountInstructions(py: Python, lines: seq<Line>)
    ensures LabelsAreRight(py, lines, Labels(py, lines))
  {
    if lines != [] {
      var n := |lines| - 1;
      LabelsCountInstructions(py, lines[..n]);
      LabelsGrow(py, lines[..n], Labels(py, lines[..n]), lines[n]);
      assert lines[..n] + [lines[n]] == lines;
    }
  }

  function LinesOf(py: Python, texts: seq<string>): seq<Line> {
    seq(|texts|, i requires 0 <= i < |texts| => ParseLine(py, texts[i]))
  }

  lemma LabelsGrow(py: Python, lines: seq<Line>, labels: map<string, int>, line: Line)
    requires LabelsAreRight(py, lines, labels)
    ensures LabelsAreRight(py, lines + [line],
                           if line.Label? then labels[line.name := |Instructions(py, lines)|] else labels)
  {
    var lines' := lines + [line];
    var labels' := if line.Label? then labels[line.name := |Instructions(py, lines)|] else labels;
    assert lines'[..|lines|] == lines;
    forall name | name in labels'
      ensures exists i: nat :: LastlyLabelled(lines', name, i) && labels'[name] == |Instructions(py, lines'[..i])|
    {
      if line.Label? && name == line.name {
        assert LastlyLabelled(lines', name, |lines|);
      } else {
        var i: nat :| LastlyLabelled(lines, name, i) && labels[name] == |Instructions(py, lines[..i])|;
        assert lines'[..i] == lines[..i];
        assert LastlyLabelled(lines', name, i);
      }
    }
  }

  method PassOne(py: Python, texts: seq<string>) returns (labels: map<string, int>, instructions: seq<string>)
    ensures instructions == Instructions(py, LinesOf(py, texts))
    ensures labels == Labels(py, LinesOf(py, texts))
  {
    hide ParseLine, IsEnd;
    ghost var lines := LinesOf(py, texts);
    labels, instructions := map[], [];
    var pc := 0;
    for n := 0 to |texts|
      invariant instructions == Instructions(py, lines[..n]) && pc == |instructions|
      invariant labels == Labels(py, lines[..n])
    {
      var parsed := ParseLine(py, texts[n]);
      assert lines[..n + 1] == lines[..n] + [parsed];
      assert lines[..n + 1][..n] == lines[..n];
      match parsed {
        case Blank =>
        case Label(name, rest) =>
          if IsEnd(py, rest) {
            labels := labels[name := pc];
          } else {
            labels := labels[name := pc];
            if rest != [] {
              instructions := instructions + [rest];
              pc := pc + 1;
            }
          }
        case Instruction(text) =>
          if !IsEnd(py, text) {
            instructions := instructions + [text];
            pc := pc + 1;
          }
      }
    }
    assert lines[..|texts|] == lines;
  }

  // ---------------------------------------------------------------- pass two

  predicate Skipped(py: Python, text: string) {
    var parts := py.fields(py.strip(text));
    text == [] || parts == [] || parts[0] == []
  }

  function CodeText(py: Python, labels: map<string, int>, text: string): (r: Result<Coded>)
    requires !Skipped(py, text)
    ensures r.Ok? ==> r.value.opcode < 64
  {
    CodeInstruction(py, labels, py.fields(py.strip(text)))
  }

  /** The program the instruction texts stand for, or the error of the first that has none. */
  function Program(py: Python, labels: map<string, int>, texts: seq<string>): (r: Result<seq<Coded>>)
    ensures r.Ok? ==> |r.value| <= |texts| && forall c | c in r.value :: c.opcode < 64
  {
    if texts == [] then Ok([])
    else
      var n := |texts| - 1;
      var before :- Program(py, labels, texts[..n]);
      if Skipped(py, texts[n]) then Ok(before)
      else
        var c :- CodeText(py, labels, texts[n]);
        Ok(before + [c])
  }

  lemma NothingYet()
    ensures PackAll([]) == []
  {
  }

  method PassTwo(py: Python, labels: map<string, int>, instructions: seq<string>) returns (r: Result<seq<Word>>)
    ensures r == match Program(py, labels, instructions)
                 case Ok(cs) => Ok(PackAll(cs))
                 case Err(e) => Err(e)
  {
    hide CodeInstruction, Pack, PackAll;
    var words: seq<Word> := [];
    var pc := 0;
    NothingYet();
    for n := 0 to |instructions|
      invariant Program(py, labels, instructions[..n]).Ok?
      invariant words == PackAll(Program(py, labels, instructions[..n]).value) && pc == |words|
    {
      var text := instructions[n];
      assert instructions[..n + 1][..n] == instructions[..n];
      var parts := py.fields(py.strip(text));
      if text != [] && parts != [] && parts[0] != [] {
        var more := AssembleInstruction(py, labels, parts);
        if more.Err? {
          StopsAt(py, labels, instructions, n);
          return Err(more.error);
        }
        PackAllAppends(Program(py, labels, instructions[..n]).value, CodeText(py, labels, text).value);
        words := words + more.value;
        pc := pc + |more.value|;
      }
    }
    assert instructions[..|instructions|] == instructions;
    return Ok(words);
  }

  /** What the first n texts and the next one leave undecided is decided by nothing later. */
  lemma {:induction false} StopsAt(py: Python, labels: map<string, int>, texts: seq<string>, n: nat)
    requires n < |texts| && Program(py, labels, texts[..n]).Ok?
    requires !Skipped(py, texts[n]) && CodeText(py, labels, texts[n]).Err?
    ensures Program(py, labels, texts) == Err(CodeText(py, labels, texts[n]).error)
  {
    hide CodeText;
    var last := |texts| - 1;
    if n < last {
      assert texts[..last][..n] == texts[..n];
      StopsAt(py, labels, texts[..last], n);
    }
  }

  /** `assemble` */
  method Assemble(py: Python, texts: seq<string>) returns (r: Result<seq<Word>>)
    ensures r == match Assembled(py, LinesOf(py, texts))
                 case Ok(cs) => Ok(PackAll(cs))
                 case Err(e) => Err(e)
  {
    var labels, instructions := PassOne(py, texts);
    r := PassTwo(py, labels, instructions);
  }

  /** The program that a source stands for. */
  function Assembled(py: Python, lines: seq<Line>): (r: Result<seq<Coded>>)
    ensures r.Ok? ==> forall c | c in r.value :: c.opcode < 64
  {
    Program(py, Labels(py, lines), Instructions(py, lines))
  }

  // ---------------------------------------------------------------- whole programs

  /** A source assembles exactly when each of its instructions does on its own. */
  lemma {:induction false} AssemblesExactlyWhen(py: Python, labels: map<string, int>, texts: seq<string>)
    ensures Program(py, labels, texts).Ok?
            <==> forall i | 0 <= i < |texts| && !Skipped(py, texts[i]) :: CodeText(py, labels, texts[i]).Ok?
  {
    if texts != [] {
      var n := |texts| - 1;
      AssemblesExactlyWhen(py, labels, texts[..n]);
      assert forall i | 0 <= i < n :: texts[..n][i] == texts[i];
    }
  }

  /** So one jump to a label, anywhere, and nothing is assembled. */
  lemma OneJumpToALabelStopsAll(py: Python, labels: map<string, int>, texts: seq<string>, i: nat)
    requires i < |texts| && !Skipped(py, texts[i])
    requires var parts := py.fields(py.strip(texts[i]));
             && py.upper(parts[0]) == "JMP" && |NonEmpty(parts[1..])| == 1
             && NonEmpty(parts[1..])[0][0] != 'R'
    ensures Program(py, labels, texts).Err?
  {
    JumpNeedsARegister(py, labels, py.fields(py.strip(texts[i])));
    AssemblesExactlyWhen(py, labels, texts);
  }

  /** Whatever assembles is read back from its words. */
  lemma AssembledReadsBack(py: Python, lines: seq<Line>)
    requires Assembled(py, lines).Ok?
    ensures Unpack(PackAll(Assembled(py, lines).value)) == Some(KeptAll(Assembled(py, lines).value))
  {
    StreamReadsBack(Assembled(py, lines).value);
  }

  /** Whether an instruction, once encoded, takes a second word for its operand: decided by
      its mnemonic, the number of its operands and how the last of them begins. */
  predicate TwoWordForm(py: Python, parts: seq<string>)
    requires parts != []
  {
    var m, ops := py.upper(parts[0]), NonEmpty(parts[1..]);
    && m != "NOOP" && 1 <= |ops| <= 3 && !(m == "JMP" && |ops| == 1)
    && ops[|ops| - 1][0] != 'R'
  }

  lemma EncodedWidth(py: Python, labels: map<string, int>, parts: seq<string>)
    requires parts != [] && CodeInstruction(py, labels, parts).Ok?
    ensures |Pack(CodeInstruction(py, labels, parts).value)| == if TwoWordForm(py, parts) then 2 else 1
  {
    hide Opcode, ParseRegister, ParseImmediate, Resolve;
  }

  predicate TakesTwoWords(py: Python, text: string) {
    !Skipped(py, text) && TwoWordForm(py, py.fields(py.strip(text)))
  }

  /** How many of the instruction texts are in a two-word form. */
  function TwoWordCount(py: Python, texts: seq<string>): nat {
    if texts == [] then 0
    else TwoWordCount(py, texts[..|texts| - 1]) + if TakesTwoWords(py, texts[|texts| - 1]) then 1 else 0
  }

  /** How many of them pass two skips. */
  function SkippedCount(py: Python, texts: seq<string>): nat {
    if texts == [] then 0
    else SkippedCount(py, texts[..|texts| - 1]) + if Skipped(py, texts[|texts| - 1]) then 1 else 0
  }

  lemma {:induction false} NoneTakesTwo(py: Python, texts: seq<string>)
    ensures TwoWordCount(py, texts) == 0 <==> forall t | t in texts :: !TakesTwoWords(py, t)
  {
    if texts != [] {
      var n := |texts| - 1;
      NoneTakesTwo(py, texts[..n]);
      assert texts == texts[..n] + [texts[n]];
    }
  }

  lemma {:induction false} NoneSkipped(py: Python, texts: seq<string>)
    ensures SkippedCount(py, texts) == 0 <==> forall t | t in texts :: !Skipped(py, t)
  {
    if texts != [] {
      var n := |texts| - 1;
      NoneSkipped(py, texts[..n]);
      assert texts == texts[..n] + [texts[n]];
    }
  }

  /** The number of words a program takes can be told from its texts: one for each that is
      not skipped, and one more for each in a two-word form. */
  lemma {:induction false} WordsOfTexts(py: Python, labels: map<string, int>, texts: seq<string>)
    requires Program(py, labels, texts).Ok?
    ensures |PackAll(Program(py, labels, texts).value)| + SkippedCount(py, texts)
            == |texts| + TwoWordCount(py, texts)
  {
    hide CodeInstruction, TwoWordForm, Skipped, Pack, PackAll;
    if texts == [] {
      NothingYet();
    } else {
      var n := |texts| - 1;
      WordsOfTexts(py, labels, texts[..n]);
      if !Skipped(py, texts[n]) {
        WordsOfText(py, labels, texts[n]);
        PackAllAppends(Program(py, labels, texts[..n]).value, CodeText(py, labels, texts[n]).value);
      }
    }
  }

  lemma WordsOfText(py: Python, labels: map<string, int>, text: string)
    requires !Skipped(py, text) && CodeText(py, labels, text).Ok?
    ensures |Pack(CodeText(py, labels, text).value)| == if TakesTwoWords(py, text) then 2 else 1
  {
    EncodedWidth(py, labels, py.fields(py.strip(text)));
  }

  lemma {:induction false} EarlierInstructions(py: Python, lines: seq<Line>, i: nat)
    requires i <= |lines|
    ensures Instructions(py, lines[..i]) <= Instructions(py, lines)
  {
    if i < |lines| {
      var last := |lines| - 1;
      assert lines[..last][..i] == lines[..i];
      EarlierInstructions(py, lines[..last], i);
    } else {
      assert lines[..i] == lines;
    }
  }

  lemma {:induction false} EarlierProgram(py: Python, labels: map<string, int>, texts: seq<string>, n: nat)
    requires n <= |texts| && Program(py, labels, texts).Ok?
    ensures Program(py, labels, texts[..n]).Ok?
    ensures Program(py, labels, texts[..n]).value <= Program(py, labels, texts).value
  {
    hide CodeText, Skipped;
    if n < |texts| {
      var last := |texts| - 1;
      assert texts[..last][..n] == texts[..n];
      EarlierProgram(py, labels, texts[..last], n);
    } else {
      assert texts[..n] == texts;
    }
  }

  lemma {:induction false} EarlierWords(cs: seq<Coded>, ds: seq<Coded>)
    requires cs <= ds && forall d | d in ds :: d.opcode < 64
    ensures (forall c | c in cs :: c.opcode < 64) && PackAll(cs) <= PackAll(ds)
  {
    if cs != [] {
      assert cs[0] == ds[0] && cs[1..] <= ds[1..];
      EarlierWords(cs[1..], ds[1..]);
    }
  }

  /** In a program that assembles, the words of the instructions before a label's last line
      come first. The label is the address of the word after them if and only if as many of
      those instruction texts are in a two-word form as are skipped; so, with nothing skipped,
      if and only if none of them is in a two-word form. */
  lemma LabelIsAddressExactlyWhen(py: Python, lines: seq<Line>, name: string, i: nat)
    requires Assembled(py, lines).Ok? && LastlyLabelled(lines, name, i)
    ensures var labels, before := Labels(py, lines), Instructions(py, lines[..i]);
            && name in labels && Program(py, labels, before).Ok?
            && var words := PackAll(Program(py, labels, before).value);
            && words <= PackAll(Assembled(py, lines).value)
            && (labels[name] == |words| <==> TwoWordCount(py, before) == SkippedCount(py, before))
            && ((forall t | t in before :: !Skipped(py, t)) ==>
                  (labels[name] == |words| <==> forall t | t in before :: !TakesTwoWords(py, t)))
  {
    hide Program, PackAll, Instructions, Labels, Skipped, TakesTwoWords;
    var labels, before := Labels(py, lines), Instructions(py, lines[..i]);
    LabelsCountInstructions(py, lines);
    EarlierInstructions(py, lines, i);
    assert Instructions(py, lines)[..|before|] == before;
    EarlierProgram(py, labels, Instructions(py, lines), |before|);
    EarlierWords(Program(py, labels, before).value, Program(py, labels, Instructions(py, lines)).value);
    WordsOfTexts(py, labels, before);
    NoneTakesTwo(py, before);
    NoneSkipped(py, before);
    var k: nat :| LastlyLabelled(lines, name, k) && labels[name] == |Instructions(py, lines[..k])|;
    assert k == i;
  }

  /** The library reads the text of the source below as Python's does. */
  predicate ReadsAsPython(py: Python) {
    && (forall s | s in {"LDR R1 #1", "L:", "L", ""} :: py.strip(s) == s)
    && (forall s | s in {"LDR R1 #1", "LDR", ""} :: py.upper(s) == s)
    && py.words("LDR R1 #1") == ["LDR", "R1", "#1"] == py.fields("LDR R1 #1")
    && py.int10("1") == Some(1) == py.int0("1")
  }

  lemma LinesOfLoad(py: Python)
    requires ReadsAsPython(py)
    ensures LinesOf(py, ["LDR R1 #1", "L:"]) == [Instruction("LDR R1 #1"), Label("L", "")]
  {
    var load, mark := "LDR R1 #1", "L:";
    hide Before;
    Unmarked(load, ';');
    Unmarked(mark, ';');
    assert ';' !in load && ';' !in mark && ':' !in load;
    assert py.strip(load) == load && py.strip(mark) == mark && py.strip("L") == "L" && py.strip("") == "";
    assert py.upper("LDR") == "LDR";
    assert ParseLine(py, load) == Instruction(load);
    assert Before(mark, ':') == "L" by { MarkedAt(mark, ':', 1); }
    assert ':' in mark by { assert mark[1] == ':'; }
    assert mark[1 + 1..] == "" && mark[..1] == "L";
    assert ParseLine(py, mark) == Label("L", "");
  }

  lemma Unmarked(s: string, mark: char)
    ensures mark !in s ==> Before(s, mark) == s
  {
  }

  lemma {:induction false} MarkedAt(s: string, mark: char, n: nat)
    requires n < |s| && s[n] == mark && mark !in s[..n]
    ensures Before(s, mark) == s[..n]
  {
    if n > 0 {
      assert s[0] == s[..n][0] && s[..n][1..] == s[1..][..n - 1];
      MarkedAt(s[1..], mark, n - 1);
    }
  }

  lemma LoadIsTwoWords(py: Python, labels: map<string, int>)
    requires ReadsAsPython(py)
    ensures Program(py, labels, ["LDR R1 #1"]) == Ok([Coded(Immediate, 0, 1, 0, 1)])
    ensures |PackAll([Coded(Immediate, 0, 1, 0, 1)])| == 2
  {
    hide NonEmpty;
    var text := "LDR R1 #1";
    assert py.strip(text) == text && py.upper("LDR") == "LDR";
    assert "R1"[1..] == "1" && "#1"[1..] == "1";
    TwoOperands("LDR", "R1", "#1");
    var c := Coded(Immediate, 0, 1, 0, 1);
    assert CodeText(py, labels, text) == Ok(c);
    assert [text][..0] == [] && [] + [c] == [c] && [c][1..] == [];
    assert PackAll([c]) == Pack(c) + [];
  }

  /** It happens: after one load of an immediate a label stands for 1, although the load has
      taken two words. */
  lemma ALabelCanMissItsWord(py: Python)
    requires ReadsAsPython(py)
    ensures var lines := LinesOf(py, ["LDR R1 #1", "L:"]);
            && Assembled(py, lines).Ok? && |PackAll(Assembled(py, lines).value)| == 2
            && "L" in Labels(py, lines) && Labels(py, lines)["L"] == 1
  {
    hide Program, PackAll, ParseLine;
    LinesOfLoad(py);
    var text := "LDR R1 #1";
    var lines := [Instruction(text), Label("L", "")];
    assert py.strip(text) == text && py.upper(text) == text && py.strip("") == "" && py.upper("") == "";
    assert lines[..1] == [Instruction(text)] && lines[..1][..0] == [];
    assert Contributes(py, lines[0]) == [text] && Contributes(py, lines[1]) == [];
    assert Instructions(py, lines[..1]) == Instructions(py, []) + [text] == [text];
    assert Instructions(py, lines) == [text];
    LoadIsTwoWords(py, Labels(py, lines));
  }

  lemma TwoOperands(name: string, a: string, b: string)
    requires a != [] && b != []
    ensures NonEmpty([name, a, b][1..]) == [a, b]
  {
    assert [name, a, b][1..] == [a, b] && [a, b][1..] == [b] && [b][1..] == [];
    assert NonEmpty([b]) == [b] && NonEmpty([a, b]) == [a] + [b];
  }
}
