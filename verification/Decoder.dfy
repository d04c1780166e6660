/**
 The x86 decoder on top of prefixes and operands: which table row an opcode selects, how long
 the instruction is, and which bytes decide all of it.
 */
module Decoder {
  import opened Options
  import opened Prefixes
  import opened Operands
  import opened OperandLayout

  /** The opcode tables; extension and FPU tables also take a number from the second byte. */
  datatype Tables = Tables(one: byte -> Row, two: byte -> Row, three66: byte -> Row, threeF2: byte -> Row, threeF3: byte -> Row,
                           ext: (bv32, byte) -> Row, extC66: byte -> Row, extD66: byte -> Row, extE66: byte -> Row,
                           monitor: Row, mwait: Row, fpu: (byte, byte) -> Row)

  /** An instruction has the shape that operands need; in extension tables it also has ModR/M. */
  predicate FineRow(r: Row, needsModrm: bool) {
    r.mnemonic ==> WellFormed(r) && (needsModrm ==> r.modrm)
  }

  /** The shape of the tables; memory forms of the FPU are the rows below 8. */
  ghost predicate FineTables(t: Tables) {
    && (forall b :: FineRow(t.one(b), false)) && (forall b :: FineRow(t.two(b), false))
    && (forall b :: FineRow(t.three66(b), false))
    && (forall b :: FineRow(t.threeF2(b), false)) && (forall b :: FineRow(t.threeF3(b), false))
    && (forall e, b :: FineRow(t.ext(e, b), true))
    && (forall b :: FineRow(t.extC66(b), true)) && (forall b :: FineRow(t.extD66(b), true)) && (forall b :: FineRow(t.extE66(b), true))
    && FineRow(t.monitor, false) && FineRow(t.mwait, false)
    && (forall f, b :: FineRow(t.fpu(f, b), b < 8))
  }

  // ----- Selecting a row -----

  /** A row and where its operands start. */
  datatype Choice = Choice(row: Row, index: nat, opcode: byte, extindex: byte, fpuindex: byte, prefixes: Summary)

  /** A two-byte opcode; a mandatory prefix selects another table. */
  function TwoByteRow(t: Tables, opcode: byte, s: Summary): Row {
    if !t.two(opcode).threeByte then t.two(opcode)
    else if s.operandSize == 1 then t.three66(opcode)
    else if s.g1 == 2 then t.threeF2(opcode)
    else if s.g1 == 3 then t.threeF3(opcode)
    else t.two(opcode)
  }

  function ExtensionRow(t: Tables, s: Summary, reg: byte): Row {
    if s.ext == EXT_GC && s.operandSize == 1 then t.extC66(reg)
    else if s.ext == EXT_GD && s.operandSize == 1 then t.extD66(reg)
    else if s.ext == EXT_GE && s.operandSize == 1 then t.extE66(reg)
    else t.ext(s.ext, reg)
  }

  /** An opcode whose row depends on the next byte; monitor and mwait count that byte as opcode. */
  function SelectExtension(t: Tables, mem: Memory, i: nat, s: Summary): Option<Choice> {
    var next := mem(i + 1);
    var reg := ModrmReg(next);
    if s.ext == EXT_G7 && ModrmMod(next) == 3 then
      if reg != 1 then None
      else if ModrmRm(next) == 0 then Some(Choice(t.monitor, i + 2, mem(i), reg, 0, s))
      else if ModrmRm(next) == 1 then Some(Choice(t.mwait, i + 2, mem(i), reg, 0, s))
      else None
    else Some(Choice(ExtensionRow(t, s, reg), i + 1, mem(i), reg, 0, s))
  }

  function SecondExtension(s: Summary, opcode: byte): Summary {
    if ExtensionOf2(opcode) != 0 then s.(ext := ExtensionOf2(opcode)) else s
  }

  /** The FPU row after escape byte `i - 1`; in the memory forms byte `i` is ModR/M. */
  function SelectFpu(t: Tables, mem: Memory, i: nat, s: Summary): Choice
    requires i > 0
  {
    var f := mem(i - 1) - 0xd8;
    if mem(i) < 0xc0 then Choice(t.fpu(f, ModrmReg(mem(i))), i, mem(i), 0, f, s)
    else Choice(t.fpu(f, mem(i) - 0xb8), i + 1, mem(i), 0, f, s)
  }

  /** The row that the scan `s` selects, where `i` is the byte behind the prefixes and an escape. */
  function Select(t: Tables, mem: Memory, i: nat, s: Summary): Option<Choice>
    requires s.ext == EXT_CP ==> i > 0
  {
    if s.ext == 0 then Some(Choice(t.one(mem(i)), i + 1, mem(i), 0, 0, s))
    else if s.ext == EXT_CP then Some(SelectFpu(t, mem, i, s))
    else if s.ext == EXT_T2 then
      var s2 := SecondExtension(s, mem(i));
      if s2.ext < EXT_T2 then SelectExtension(t, mem, i, s2)
      else Some(Choice(TwoByteRow(t, mem(i), s), i + 1, mem(i), 0, 0, s2))
    else SelectExtension(t, mem, i, s)
  }

  // ----- Decoding -----

  datatype Instruction = Instruction(length: nat, mode: Mode, opcode: byte, modrm: byte, sib: byte, modrmOffset: nat, extindex: byte,
                                     fpuindex: byte, dispbytes: nat, immbytes: nat, sectionbytes: nat,
                                     op1: Operand, op2: Operand, op3: Operand, row: Row, flags: bv32)

  ghost function IndexAfter(mem: Memory, end: nat): nat {
    end + (if IsEscape(mem(end)) then 1 else 0)
  }

  ghost function SelectAt(t: Tables, mem: Memory, end: nat): Option<Choice> {
    Select(t, mem, IndexAfter(mem, end), ScanOf(mem, end))
  }

  function ContextOf(c: Choice, mem: Memory, mode: Mode): Context {
    Context(c.row, mem, c.index, mode, c.prefixes)
  }

  function Assemble(c: Choice, mode: Mode, p: Progress, op1: Operand, op2: Operand, op3: Operand): Instruction {
    Instruction(p.length + c.index + p.immbytes + p.dispbytes, mode, c.opcode, p.modrm, p.sib,
                if c.row.modrm then c.index else 0, c.extindex, c.fpuindex, p.dispbytes, p.immbytes, p.sectionbytes,
                op1, op2, op3, c.row, Pack(c.prefixes))
  }

  /** The instruction of a selected row, unless it is illegal. */
  function DecodeRow(c: Choice, mem: Memory, mode: Mode): Option<Instruction> {
    if !c.row.mnemonic then None
    else
      match ParseOperands(ContextOf(c, mem, mode))
      case None => None
      case Some(r) => Some(Assemble(c, mode, r.0, r.1, r.2, r.3))
  }

  /** The instruction whose prefixes end at byte `end`, unless it is illegal. */
  ghost function Decode(t: Tables, mem: Memory, mode: Mode, end: nat): Option<Instruction> {
    match SelectAt(t, mem, end)
    case None => None
    case Some(c) => DecodeRow(c, mem, mode)
  }

  // ----- The fields tile the instruction -----

  /** Bytes that selection looks at: up to the opcode, and ModR/M when the row has it. */
  function BytesSelected(c: Choice): nat {
    c.index + (if c.row.modrm then 1 else 0)
  }

  lemma TwoByteRowIsFine(t: Tables, opcode: byte, s: Summary)
    requires FineTables(t)
    ensures FineRow(TwoByteRow(t, opcode, s), false)
  {
    hide FineRow;
  }

  lemma ExtensionRowIsFine(t: Tables, s: Summary, reg: byte)
    requires FineTables(t)
    ensures FineRow(ExtensionRow(t, s, reg), true)
  {
    hide FineRow;
  }

  lemma SelectExtensionIsFine(t: Tables, mem: Memory, i: nat, s: Summary)
    requires FineTables(t) && SelectExtension(t, mem, i, s).Some?
    ensures var c := SelectExtension(t, mem, i, s).value;
      FineRow(c.row, false) && c.index > i && (c.row.mnemonic ==> BytesSelected(c) > i + 1)
  {
    hide WellFormed, FineTables, ExtensionRow, ModrmReg, ModrmMod, ModrmRm;
    SpecialRowsAreFine(t);
    ExtensionRowIsFine(t, s, ModrmReg(mem(i + 1)));
  }

  lemma SpecialRowsAreFine(t: Tables)
    requires FineTables(t)
    ensures FineRow(t.monitor, false) && FineRow(t.mwait, false)
  {
  }

  lemma SelectFpuIsFine(t: Tables, mem: Memory, i: nat, s: Summary)
    requires FineTables(t) && i > 0
    ensures var c := SelectFpu(t, mem, i, s);
      FineRow(c.row, false) && c.index >= i && (c.row.mnemonic ==> BytesSelected(c) > i)
  {
    hide WellFormed, ModrmReg;
    assert FineRow(t.fpu(mem(i - 1) - 0xd8, ModrmReg(mem(i))), true);
    assert FineRow(t.fpu(mem(i - 1) - 0xd8, mem(i) - 0xb8), false);
  }

  lemma ExtensionsAreSmall(mem: Memory, end: nat)
    ensures var s := ScanOf(mem, end);
      && (s.ext == EXT_CP ==> IndexAfter(mem, end) == end + 1) && (s.ext == EXT_T2 ==> IndexAfter(mem, end) == end + 1)
      && (s.ext != EXT_CP && s.ext != EXT_T2 ==> IndexAfter(mem, end) == end && s.ext < EXT_T2)
  {
    hide SummaryOf;
  }

  lemma SelectedRowIsFine(t: Tables, mem: Memory, end: nat)
    requires FineTables(t) && SelectAt(t, mem, end).Some? && SelectAt(t, mem, end).value.row.mnemonic
    ensures var c := SelectAt(t, mem, end).value; WellFormed(c.row) && c.index > end && BytesSelected(c) > IndexAfter(mem, end)
  {
    hide WellFormed, TwoByteRow, SelectExtension, SelectFpu, ScanOf, ExtensionOf2, IndexAfter, FineTables;
    var i, s := IndexAfter(mem, end), ScanOf(mem, end);
    ExtensionsAreSmall(mem, end);
    var c := Select(t, mem, i, s).value;
    if s.ext == 0 {
      OneByteRowIsFine(t, mem(i));
    } else if s.ext == EXT_CP {
      SelectFpuIsFine(t, mem, i, s);
    } else if s.ext == EXT_T2 {
      TwoByteRowIsFine(t, mem(i), s);
      if SecondExtension(s, mem(i)).ext < EXT_T2 {
        SelectExtensionIsFine(t, mem, i, SecondExtension(s, mem(i)));
      }
    } else {
      SelectExtensionIsFine(t, mem, i, s);
    }
  }

  lemma OneByteRowIsFine(t: Tables, opcode: byte)
    requires FineTables(t)
    ensures FineRow(t.one(opcode), false)
  {
  }

  /** What the operands and the total length of a decoded instruction say together. */
  ghost predicate Tiled(inst: Instruction, c: Choice, mem: Memory, mode: Mode) {
    var ctx := ContextOf(c, mem, mode);
    && inst.length == c.index + HeadSize(ctx) + inst.dispbytes + inst.immbytes
    && (c.row.modrm ==> inst.modrmOffset == c.index)
    && AllPlaced(ctx, Progress(HeadSize(ctx), inst.modrm, inst.sib, inst.dispbytes, inst.immbytes, inst.sectionbytes),
                 inst.op1, inst.op2, inst.op3)
  }

  /**
   Prefixes and opcode, ModR/M, SIB, displacement and the immediates of all operands follow each
   other without gap or overlap and end at the length; ModR/M and SIB count once whichever
   operands use them; and each value is that of its bytes.
   */
  lemma FieldsTileInstruction(t: Tables, mem: Memory, mode: Mode, end: nat)
    requires FineTables(t) && Decode(t, mem, mode, end).Some?
    ensures SelectAt(t, mem, end).Some? && SelectAt(t, mem, end).value.index > end
    ensures Tiled(Decode(t, mem, mode, end).value, SelectAt(t, mem, end).value, mem, mode)
  {
    hide SelectAt, FineTables, ParseOperands, Placed, NeedsSib, AddrMode, WellFormed, Pack, ImmSize;
    var c := SelectAt(t, mem, end).value;
    SelectedRowIsFine(t, mem, end);
    var r := ParseOperands(ContextOf(c, mem, mode)).value;
    OperandsPlaced(ContextOf(c, mem, mode), r.0, r.1, r.2, r.3);
  }

  // ----- The decoder is self-delimiting -----

  lemma ScanIsLocal(a: Memory, b: Memory, end: nat)
    requires EndsAt(a, end) && Agree(a, b, 0, end + 1)
    ensures EndsAt(b, end) && ScanOf(a, end) == ScanOf(b, end) && IndexAfter(a, end) == IndexAfter(b, end)
  {
    hide SummaryOf, IsPrefix, ExtensionOf;
    assert a(end) == b(end);
    ScanReadsPrefixes(a, b, end);
  }

  /** An opcode with an extension number of its own or of its second byte. */
  predicate IsExtended(s: Summary, opcode: byte) {
    s.ext != 0 && s.ext != EXT_CP && (s.ext == EXT_T2 ==> SecondExtension(s, opcode).ext < EXT_T2)
  }

  lemma SelectReads(t: Tables, a: Memory, b: Memory, i: nat, s: Summary)
    requires a(i) == b(i) && (s.ext == EXT_CP ==> i > 0 && a(i - 1) == b(i - 1)) && (IsExtended(s, a(i)) ==> a(i + 1) == b(i + 1))
    ensures Select(t, a, i, s) == Select(t, b, i, s)
  {
    hide TwoByteRow, ExtensionRow, ExtensionOf2, ModrmReg, ModrmMod, ModrmRm;
  }

  lemma SelectIsLocal(t: Tables, a: Memory, b: Memory, end: nat)
    requires FineTables(t) && EndsAt(a, end) && SelectAt(t, a, end).Some? && SelectAt(t, a, end).value.row.mnemonic
    requires Agree(a, b, 0, BytesSelected(SelectAt(t, a, end).value))
    ensures EndsAt(b, end) && SelectAt(t, b, end) == SelectAt(t, a, end)
  {
    hide FineTables, WellFormed, ScanOf, EndsAt, IndexAfter, Select, IsExtended, BytesSelected;
    var i, s, n := IndexAfter(a, end), ScanOf(a, end), BytesSelected(SelectAt(t, a, end).value);
    SelectedRowIsFine(t, a, end);
    AgreeWithin(a, b, 0, n);
    AtLeastIndex(SelectAt(t, a, end).value);
    ScanIsLocal(a, b, end);
    ExtensionsAreSmall(a, end);
    SelectReadsNext(t, a, end);
    assert a(end) == b(end) && a(i) == b(i) && (n > i + 1 ==> a(i + 1) == b(i + 1));
    SelectReads(t, a, b, i, s);
  }

  lemma AtLeastIndex(c: Choice)
    ensures BytesSelected(c) >= c.index
  {
  }

  /** An extension's row depends on one more byte, which then belongs to the instruction. */
  lemma SelectReadsNext(t: Tables, mem: Memory, end: nat)
    requires FineTables(t) && SelectAt(t, mem, end).Some? && SelectAt(t, mem, end).value.row.mnemonic
    ensures var i, s, c := IndexAfter(mem, end), ScanOf(mem, end), SelectAt(t, mem, end).value;
      IsExtended(s, mem(i)) ==> BytesSelected(c) > i + 1
  {
    hide WellFormed, FineTables, ScanOf, IndexAfter, TwoByteRow, SelectExtension, SelectFpu, ExtensionOf2;
    var i, s := IndexAfter(mem, end), ScanOf(mem, end);
    ExtensionsAreSmall(mem, end);
    if s.ext == EXT_T2 && SecondExtension(s, mem(i)).ext < EXT_T2 {
      SelectExtensionIsFine(t, mem, i, SecondExtension(s, mem(i)));
    } else if s.ext != 0 && s.ext != EXT_CP && s.ext != EXT_T2 {
      SelectExtensionIsFine(t, mem, i, s);
    }
  }

  /**
   A decoded instruction is decided by its own bytes: any other code with the same first
   `length` bytes decodes to the identical instruction.
   */
  lemma SelfDelimiting(t: Tables, a: Memory, b: Memory, mode: Mode, end: nat)
    requires FineTables(t) && EndsAt(a, end) && Decode(t, a, mode, end).Some?
    requires Agree(a, b, 0, Decode(t, a, mode, end).value.length)
    ensures EndsAt(b, end) && Decode(t, b, mode, end) == Decode(t, a, mode, end)
  {
    hide SelectAt, FineTables, ParseOperands, AllPlaced, EndsAt, WellFormed, Agree, Pack, HeadSize, BytesSelected;
    var c := SelectAt(t, a, end).value;
    var r := ParseOperands(ContextOf(c, a, mode)).value;
    SelectedRowIsFine(t, a, end);
    FieldsTileInstruction(t, a, mode, end);
    AgreeWithin(a, b, 0, Decode(t, a, mode, end).value.length);
    HeadHasModrm(c, a, mode);
    SelectIsLocal(t, a, b, end);
    OperandsAreLocal(ContextOf(c, a, mode), ContextOf(c, b, mode));
  }

  lemma HeadHasModrm(c: Choice, mem: Memory, mode: Mode)
    ensures BytesSelected(c) <= c.index + HeadSize(ContextOf(c, mem, mode))
  {
    hide NeedsSib, AddrMode;
  }

  // ----- The order of prefixes -----

  ghost predicate SameFrom(a: Memory, b: Memory, lo: nat) {
    forall i: nat :: lo <= i ==> a(i) == b(i)
  }

  /** The operands of a row depend on the bytes behind the opcode only, legal or not. */
  lemma OperandsSameFrom(c: Context, d: Context)
    requires WellFormed(c.row) && d == c.(mem := d.mem) && SameFrom(c.mem, d.mem, c.offset)
    ensures ParseOperands(c) == ParseOperands(d)
  {
    hide ParseOperands, HeadSize, WellFormed;
    assert c == d.(mem := c.mem);
    if ParseOperands(c).Some? {
      OperandsAreLocal(c, d);
    } else if ParseOperands(d).Some? {
      OperandsAreLocal(d, c);
    }
  }

  /** Exchanging neighbouring prefixes of different groups gives the identical instruction, or none both times. */
  lemma PrefixOrderIsFree(t: Tables, a: Memory, b: Memory, mode: Mode, j: nat, end: nat)
    requires FineTables(t) && EndsAt(a, end) && j + 1 < end && Swapped(a, b, j) && Group(a(j)) != Group(a(j + 1))
    ensures EndsAt(b, end) && Decode(t, a, mode, end) == Decode(t, b, mode, end)
  {
    hide FineTables, EndsAt, ParseOperands, Select, ScanOf, Group, WellFormed, Pack;
    OrderOfGroupsIsFree(a, b, j, end);
    assert SameFrom(a, b, end);
    ExtensionsAreSmall(a, end);
    SelectReads(t, a, b, IndexAfter(a, end), ScanOf(a, end));
    if SelectAt(t, a, end).Some? && SelectAt(t, a, end).value.row.mnemonic {
      var c := SelectAt(t, a, end).value;
      SelectedRowIsFine(t, a, end);
      OperandsSameFrom(ContextOf(c, a, mode), ContextOf(c, b, mode));
    }
  }
}
