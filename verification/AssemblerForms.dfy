/** What each form of an instruction is encoded as, field by field of its words, and how each
    form of a line is read. */
module AssemblerForms {
  import opened Words
  import opened Assembler

  /** What `assemble_instruction` gives. */
  function Encoded(py: Python, labels: map<string, int>, parts: seq<string>): Result<seq<Word>>
    requires parts != []
  {
    var c :- CodeInstruction(py, labels, parts);
    Ok(Pack(c))
  }

  /** The words of an instruction hold these fields: two bits of mode, six of opcode, four each
      for two registers, and a second word if there is an operand. */
  predicate Holds(r: Result<seq<Word>>, mode: nat, opcode: nat, rz: int, rx: int, operand: Option<int>) {
    && r.Ok? && |r.value| == (if operand.Some? then 2 else 1)
    && r.value[0] / 0x4000 == mode && r.value[0] / 0x100 % 0x40 == opcode
    && r.value[0] / 0x10 % 0x10 == rz % 0x10 && r.value[0] % 0x10 == rx % 0x10
    && (operand.Some? ==> r.value[1] == operand.value % 0x1_0000)
  }

  lemma PackHolds(c: Coded)
    requires c.opcode < 64
    ensures Holds(Ok(Pack(c)), match c.mode case Inherent => 0 case Immediate => 1 case Direct => 2 case Register => 3,
                  c.opcode, c.rz, c.rx, if c.mode in {Immediate, Direct} then Some(c.operand) else None)
  {
    FieldsOfWord(ModeBits(c.mode), c.opcode, c.rz % 16, c.rx % 16);
  }

  // ---------------------------------------------------------------- operands

  /** 'R' and a decimal number */
  predicate IsRegister(py: Python, op: string, n: int) {
    op != "" && op[0] == 'R' && py.int10(op[1..]) == Some(n)
  }

  /** '#' and a number in any base */
  predicate IsImmediate(py: Python, op: string, n: int) {
    op != "" && op[0] == '#' && py.int0(op[1..]) == Some(n)
  }

  /** Any other first character, and digits, a label, or a name that is none and stands for 0 */
  predicate IsDirect(py: Python, labels: map<string, int>, op: string, n: int) {
    && op != "" && op[0] != 'R' && op[0] != '#'
    && var key := op[1..];
       if py.isDigit(key) then py.int10(key) == Some(n)
       else n == if key in labels then labels[key] else 0
  }

  /** What the operand counts as where a register is wanted. */
  predicate Registers(py: Python, op: string, n: int) {
    IsRegister(py, op, n) || (op != "" && op[0] != 'R' && n == 0)
  }

  /** The number in it cannot be read. */
  predicate Unreadable(py: Python, op: string) {
    && op != ""
    && if op[0] == 'R' then py.int10(op[1..]) == None
       else if op[0] == '#' then py.int0(op[1..]) == None
       else py.isDigit(op[1..]) && py.int10(op[1..]) == None
  }

  /** There is no operand besides these. */
  lemma OperandKinds(py: Python, labels: map<string, int>, op: string) returns (n: int)
    requires op != ""
    ensures Unreadable(py, op) || IsRegister(py, op, n) || IsImmediate(py, op, n) || IsDirect(py, labels, op, n)
  {
    var tail := op[1..];
    n := if op[0] == '#' then (if py.int0(tail).Some? then py.int0(tail).value else 0)
         else if op[0] == 'R' || py.isDigit(tail) then (if py.int10(tail).Some? then py.int10(tail).value else 0)
         else if tail in labels then labels[tail] else 0;
  }

  /** Empty parts are dropped and the others kept in order. */
  lemma {:induction false} EmptyPartsAreDropped(ops: seq<string>, more: seq<string>, op: string)
    ensures NonEmpty(ops + more) == NonEmpty(ops) + NonEmpty(more)
    ensures NonEmpty([op]) == if op == "" then [] else [op]
  {
    assert [op][1..] == [];
    if ops == [] {
      assert ops + more == more;
    } else {
      assert (ops + more)[1..] == ops[1..] + more;
      EmptyPartsAreDropped(ops[1..], more, op);
    }
  }

  // ---------------------------------------------------------------- forms

  lemma OneOperand(name: string, a: string)
    requires a != ""
    ensures NonEmpty([name, a][1..]) == [a]
  {
    assert [name, a][1..] == [a] && [a][1..] == [];
  }

  /** A register alone is rz, but for JMP, where it is rx; JMP takes nothing else. */
  lemma OneOperandForm(py: Python, labels: map<string, int>, name: string, op: string, n: int)
    requires py.upper(name) != "NOOP" && Opcode(py.upper(name)).Some? && op != ""
    ensures var jump, code := py.upper(name) == "JMP", Opcode(py.upper(name)).value;
            var r := Encoded(py, labels, [name, op]);
            && (IsRegister(py, op, n) ==> Holds(r, 3, code, if jump then 0 else n, if jump then n else 0, None))
            && (IsImmediate(py, op, n) && !jump ==> Holds(r, 1, code, 0, 0, Some(n)))
            && (IsDirect(py, labels, op, n) && !jump ==> Holds(r, 2, code, 0, 0, Some(n)))
            && (r.Err? <==> (jump && op[0] != 'R') || Unreadable(py, op))
  {
    hide Opcode, Pack, Holds, NonEmpty;
    OneOperand(name, op);
    var r := CodeInstruction(py, labels, [name, op]);
    if r.Ok? { PackHolds(r.value); }
  }

  /** Of two operands the first is rz and the last rx or the operand; STR of a direct operand
      has the first in rx. */
  lemma TwoOperandForm(py: Python, labels: map<string, int>, name: string, op0: string, op1: string, z: int, n: int)
    requires py.upper(name) != "NOOP" && Opcode(py.upper(name)).Some? && op0 != "" && op1 != ""
    ensures var store, code := py.upper(name) == "STR", Opcode(py.upper(name)).value;
            var r := Encoded(py, labels, [name, op0, op1]);
            && (Registers(py, op0, z) ==>
                  && (IsRegister(py, op1, n) ==> Holds(r, 3, code, z, n, None))
                  && (IsImmediate(py, op1, n) ==> Holds(r, 1, code, z, 0, Some(n)))
                  && (IsDirect(py, labels, op1, n) ==>
                        Holds(r, 2, code, if store then 0 else z, if store then z else 0, Some(n))))
            && (r.Err? <==> (op0[0] == 'R' && Unreadable(py, op0)) || Unreadable(py, op1))
  {
    hide Opcode, Pack, Holds, NonEmpty;
    TwoOperands(name, op0, op1);
    var r := CodeInstruction(py, labels, [name, op0, op1]);
    if r.Ok? { PackHolds(r.value); }
  }

  /** Of three operands the first is rz and the last rx or the operand, for five mnemonics
      only. */
  lemma ThreeOperandForm(py: Python, labels: map<string, int>, name: string,
                         op0: string, op1: string, op2: string, z: int, n: int)
    requires py.upper(name) != "NOOP" && Opcode(py.upper(name)).Some? && op0 != "" && op1 != "" && op2 != ""
    ensures var code, r := Opcode(py.upper(name)).value, Encoded(py, labels, [name, op0, op1, op2]);
            if py.upper(name) !in {"ADD", "SUB", "SUBV", "AND", "OR"} then r == Err(NoThreeRegisterForm)
            else
              && (Registers(py, op0, z) ==>
                    && (IsRegister(py, op2, n) ==> Holds(r, 3, code, z, n, None))
                    && (IsImmediate(py, op2, n) ==> Holds(r, 1, code, z, 0, Some(n)))
                    && (IsDirect(py, labels, op2, n) ==> Holds(r, 2, code, z, 0, Some(n))))
              && (r.Err? <==> (op0[0] == 'R' && Unreadable(py, op0)) || Unreadable(py, op2))
  {
    hide Opcode, Pack, Holds, NonEmpty;
    ThreeOperands(name, op0, op1, op2);
    var r := CodeInstruction(py, labels, [name, op0, op1, op2]);
    if r.Ok? { PackHolds(r.value); }
  }

  /** No operands, more than three, and NOOP with any: only mode 0 and the opcode. An unknown
      mnemonic is an error. */
  lemma BareForm(py: Python, labels: map<string, int>, parts: seq<string>)
    requires parts != []
    ensures var name, count, r := py.upper(parts[0]), |NonEmpty(parts[1..])|, Encoded(py, labels, parts);
            && (Opcode(name) == None ==> r == Err(UnknownOpcode))
            && (Opcode(name).Some? && (name == "NOOP" || count == 0 || count > 3) ==>
                  Holds(r, 0, Opcode(name).value, 0, 0, None))
  {
    hide Opcode, Pack, Holds, NonEmpty;
    var r := CodeInstruction(py, labels, parts);
    if r.Ok? { PackHolds(r.value); }
  }

  // ---------------------------------------------------------------- lines

  /** The instruction text that a line gives is nothing for END and ENDPROG. */
  predicate Gives(py: Python, line: Line, text: string) {
    Contributes(py, line) == if py.upper(py.strip(text)) in {"END", "ENDPROG"} then [] else [text]
  }

  lemma CommentIsCut(text: string, comment: string)
    requires ';' !in text
    ensures Before(text + ";" + comment, ';') == text == Before(text, ';')
  {
    var all := text + ";" + comment;
    assert all[|text|] == ';' && all[..|text|] == text;
    MarkedAt(all, ';', |text|);
    Unmarked(text, ';');
  }

  /** What follows a ';' makes no difference. */
  lemma CommentsAreIgnored(py: Python, text: string, comment: string)
    requires ';' !in text
    ensures ParseLine(py, text + ";" + comment) == ParseLine(py, text)
  {
    CommentIsCut(text, comment);
  }

  /** A line with a colon: what precedes the first one is a label, and what follows it an
      instruction if there is anything. */
  lemma ColonLine(py: Python, text: string, head: string, rest: string)
    requires ';' !in text && py.strip(text) == head + ":" + rest && ':' !in head
    ensures var line := ParseLine(py, text);
            && line == Label(py.strip(head), py.strip(rest))
            && if py.strip(rest) == "" then Contributes(py, line) == [] else Gives(py, line, py.strip(rest))
  {
    var line := head + ":" + rest;
    Unmarked(text, ';');
    assert line[|head|] == ':' && line[..|head|] == head && line[|head| + 1..] == rest;
    MarkedAt(line, ':', |head|);
  }

  /** A line without one: a label if its first word is an identifier, no mnemonic and not the
      only word, and otherwise an instruction. */
  lemma PlainLine(py: Python, text: string, first: string, others: seq<string>)
    requires ';' !in text && py.strip(text) != "" && ':' !in py.strip(text)
    requires py.words(py.strip(text)) == [first] + others
    ensures var line := ParseLine(py, text);
            if others != [] && py.isIdentifier(first) && Opcode(py.upper(first)) == None
            then line == Label(py.strip(first), py.strip(Joined(others)))
            else line == Instruction(py.strip(text)) && Gives(py, line, py.strip(text))
  {
    hide Opcode;
    Unmarked(text, ';');
    assert ([first] + others)[1..] == others;
  }

  /** The words after a label are put together again with one space between them. */
  lemma {:induction false} JoinedWithSpaces(tokens: seq<string>, last: string)
    ensures Joined(tokens + [last]) == if tokens == [] then last else Joined(tokens) + " " + last
  {
    if tokens == [] {
      assert tokens + [last] == [last];
    } else {
      assert (tokens + [last])[1..] == tokens[1..] + [last];
      JoinedWithSpaces(tokens[1..], last);
      if |tokens| > 1 {
        var first, middle := tokens[0], Joined(tokens[1..]);
        assert first + " " + (middle + " " + last) == first + " " + middle + " " + last;
      } else {
        assert tokens[1..] == [];
      }
    }
  }
}
