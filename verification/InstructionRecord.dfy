/** The instruction record that decoding fills in, field by field. */
module InstructionRecord {
  import opened Options
  import opened Prefixes
  import opened Operands
  import opened Decoder

  /** The address mode in force, from the flags word. */
  function ModeFromAddr(m: Mode, flags: bv32): Mode {
    if (m == Mode32 && MaskPrefixAddr(flags) == 0) || (m == Mode16 && MaskPrefixAddr(flags) == 1) then Mode32 else Mode16
  }

  function ModeFromOperand(m: Mode, flags: bv32): Mode {
    if (m == Mode32 && MaskPrefixOperand(flags) == 0) || (m == Mode16 && MaskPrefixOperand(flags) == 1) then Mode32 else Mode16
  }

  lemma ModesFromFlags(m: Mode, s: Summary)
    requires InRange(s)
    ensures ModeFromAddr(m, Pack(s)) == ModeCheckAddr(m, s) && ModeFromOperand(m, Pack(s)) == ModeCheckOperand(m, s)
  {
    hide Pack, MaskPrefixAddr, MaskPrefixOperand;
    PackReadsBack(s);
  }

  // ----- Address forms, step by step -----

  method DisplacementBytes(b: byte, m: Mode) returns (n: nat)
    ensures n == PlainDisp(b, m)
  {
    hide ModrmMod, ModrmRm;
    n := 0;
    if ModrmMod(b) == 0 {
      if m == Mode32 && ModrmRm(b) == REG_EBP {
        n := 4;
      }
      if m == Mode16 && ModrmRm(b) == REG_ESI {
        n := 2;
      }
    } else if ModrmMod(b) == 1 {
      n := 1;
    } else if ModrmMod(b) == 2 {
      n := if m == Mode32 then 4 else 2;
    }
  }

  method SibScale(s: byte) returns (scale: byte)
    ensures scale == ScaleOf(s)
  {
    scale := ModrmMod(s) * 2;
    // Fix scale *8
    if scale == 6 {
      scale := scale + 2;
    }
  }

  method SibForm(b: byte, s: byte, disp: nat) returns (f: Form)
    requires NeedsSib(b, Mode32) && disp == PlainDisp(b, Mode32)
    ensures f == FormOf(b, s, Mode32)
  {
    hide ModrmMod, ModrmRm, ModrmReg, PlainDisp, ScaleOf, NeedsSib;
    var basereg, indexreg, n := ModrmRm(s), ModrmReg(s), disp;
    var scale := SibScale(s);
    if basereg == REG_EBP && ModrmMod(b) == 0 {
      basereg, n := REG_NOP, 4;
    }
    if indexreg == REG_ESP {
      indexreg := REG_NOP;
    }
    f := Form(true, n, basereg, indexreg, scale);
  }

  /** The 16-bit forms: base and index by number, unless the byte names a register. */
  method ShortForm(b: byte) returns (basereg: byte, indexreg: byte)
    ensures basereg == Form16(b).0 && indexreg == Form16(b).1
  {
    hide ModrmMod;
    var rm := ModrmRm(b);
    basereg, indexreg := REG_NOP, REG_NOP;
    if rm == 0 {
      basereg, indexreg := REG_EBX, REG_ESI;
    } else if rm == 1 {
      basereg, indexreg := REG_EBX, REG_EDI;
    } else if rm == 2 {
      basereg, indexreg := REG_EBP, REG_ESI;
    } else if rm == 3 {
      basereg, indexreg := REG_EBP, REG_EDI;
    } else if rm == 4 {
      basereg := REG_ESI;
    } else if rm == 5 {
      basereg := REG_EDI;
    } else if rm == 6 {
      basereg := if ModrmMod(b) == 0 then REG_NOP else REG_EBP;
    } else {
      basereg := REG_EBX;
    }
    if ModrmMod(b) == 3 {
      basereg, indexreg := rm, REG_NOP;
    }
  }

  class Record {
    var length: nat
    var mode: Mode
    var opcode: byte
    var modrm: byte
    var sib: byte
    var modrmOffset: nat
    var extindex: byte
    var fpuindex: byte
    var dispbytes: nat
    var immbytes: nat
    var sectionbytes: nat
    var op1: Operand
    var op2: Operand
    var op3: Operand
    var row: Row
    var flags: bv32

    ghost function Contents(): Instruction
      reads this
    {
      Instruction(length, mode, opcode, modrm, sib, modrmOffset, extindex, fpuindex, dispbytes, immbytes, sectionbytes,
                  op1, op2, op3, row, flags)
    }

    ghost function OperandPart(): Progress
      reads this
    {
      Progress(length, modrm, sib, dispbytes, immbytes, sectionbytes)
    }

    /** Reads ModR/M and SIB; their length counts only once. */
    method ReadModrm(r: Row, mem: Memory, offset: nat, m: Mode, iflags: bv32, ghost c: Context) returns (f: Form)
      requires c == Context(r, mem, offset, m, c.prefixes) && InRange(c.prefixes) && iflags == Pack(c.prefixes)
      modifies `length, `modrm, `sib
      ensures OperandPart() == SeeModrm(c, old(OperandPart())) && f == ContextForm(c)
    {
      hide Pack, ModrmMod, ModrmRm, PlainDisp, Form16, ModeCheckAddr;
      f := Form(false, 0, REG_NOP, REG_NOP, 0);
      if r.modrm {
        ModesFromFlags(m, c.prefixes);
        var pmode, b := ModeFromAddr(m, iflags), mem(offset);
        if length == 0 {
          modrm := b;
          length := length + 1;
        }
        var disp := DisplacementBytes(b, pmode);
        if pmode == Mode32 {
          if ModrmRm(b) == REG_ESP && ModrmMod(b) != 3 {
            sib := mem(offset + 1);
            if length == 1 {
              sib := mem(offset + 1);
              length := length + 1;
            }
            f := SibForm(b, mem(offset + 1), disp);
          } else if ModrmMod(b) == 0 && ModrmRm(b) == REG_EBP {
            f := Form(false, disp, REG_NOP, REG_NOP, 0);
          } else {
            f := Form(false, disp, ModrmRm(b), REG_NOP, 0);
          }
        } else {
          var basereg, indexreg := ShortForm(b);
          f := Form(false, disp, basereg, indexreg, 0);
        }
      }
    }

    /** Fills in a register or memory operand. */
    method FillMemory(of: OFlags, blank: Operand, f: Form, mem: Memory, offset: nat, ghost c: Context) returns (op: Operand)
      requires blank == Blank(of) && f == ContextForm(c) && mem == c.mem && offset == c.offset
      modifies `dispbytes
      ensures OperandPart() == old(OperandPart()).(dispbytes := f.dispbytes) && op == MemoryOperand(c, of)
    {
      hide ContextForm, Fetch8, Fetch16, Fetch32, SignExtend8, ModrmMod;
      SibFromForm(c);
      op := blank.(kind := TypeMemory, dispbytes := f.dispbytes, basereg := f.basereg, indexreg := f.indexreg, scale := f.scale);
      dispbytes := f.dispbytes;
      var index := if f.sib then 1 else 0;
      if f.dispbytes != 0 {
        op := op.(dispoffset := index + 1 + offset);
      }
      if f.dispbytes == 1 {
        op := op.(displacement := SignExtend8(Fetch8(mem, offset + 1 + index)));
      } else if f.dispbytes == 2 {
        op := op.(displacement := Fetch16(mem, offset + 1 + index));
      } else if f.dispbytes == 4 {
        op := op.(displacement := Fetch32(mem, offset + 1 + index));
      }
      if f.basereg != REG_NOP && ModrmMod(mem(offset)) == 3 {
        op := op.(kind := TypeRegister, reg := f.basereg);
      }
    }

    /** Fills in an immediate, behind all that the instruction has so far. */
    method FillImmediate(of: OFlags, blank: Operand, m: Mode, iflags: bv32, r: Row, f: Form, mem: Memory, offset: nat, ghost c: Context)
      returns (op: Operand)
      requires IsImmediate(of) && blank == Blank(of) && f == ContextForm(c)
      requires c == Context(r, mem, offset, m, c.prefixes) && InRange(c.prefixes) && iflags == Pack(c.prefixes)
      modifies `immbytes
      ensures OperandPart() == old(OperandPart()).(immbytes := old(immbytes) + ImmSize(c, of))
      ensures op == ImmediateOperand(c, of, offset + HeadSize(c) + old(immbytes) + dispbytes)
    {
      hide Pack, ContextForm, HasSib, Fetch8, Fetch16, Fetch32, SignExtend8, ModeCheckOperand, ModeFromOperand;
      ModesFromFlags(m, c.prefixes);
      var signed := (of.s || of.am == AmJ) && !of.r && !of.f;
      var index := (if r.modrm then 1 else 0) + (if f.sib then 1 else 0) + immbytes + dispbytes;
      var wide := ModeFromOperand(m, iflags) == Mode32;
      op := blank.(kind := TypeImmediate, immoffset := index + offset);
      SibFromForm(c);
      match of.ot {
        case OtB =>
          var v := Fetch8(mem, offset + index);
          op := op.(immbytes := 1, immediate := if signed then SignExtend8(v) else v);
        case OtV =>
          op := op.(immbytes := if wide then 4 else 2,
                    immediate := if wide then Fetch32(mem, offset + index) else Fetch16(mem, offset + index));
        case OtW =>
          op := op.(immbytes := 2, immediate := Fetch16(mem, offset + index));
        case _ =>
      }
      immbytes := immbytes + op.immbytes;
    }

    /** Fills in a far address with its segment. */
    method FillAddress(of: OFlags, blank: Operand, m: Mode, iflags: bv32, mem: Memory, offset: nat, ghost c: Context) returns (op: Operand)
      requires of.am.AmA? && blank == Blank(of)
      requires c == Context(c.row, mem, offset, m, c.prefixes) && InRange(c.prefixes) && iflags == Pack(c.prefixes)
      modifies `dispbytes, `sectionbytes
      ensures OperandPart() == old(OperandPart()).(dispbytes := DirectSize(c, of), sectionbytes := 2) && op == DirectOperand(c, of)
    {
      hide Pack, Fetch8, Fetch16, Fetch32, ModeCheckOperand;
      ModesFromFlags(m, c.prefixes);
      var wide := ModeFromOperand(m, iflags) == Mode32;
      var n := if wide then 6 else 4;
      op := blank.(kind := TypeImmediate, dispbytes := n,
                   displacement := if wide then Fetch32(mem, offset) else Fetch16(mem, offset),
                   section := Fetch16(mem, offset + n - 2));
      dispbytes, sectionbytes := n, 2;
    }

    /** Fills in a plain offset. */
    method FillOffset(of: OFlags, blank: Operand, m: Mode, mem: Memory, offset: nat, ghost c: Context) returns (op: Operand)
      requires of.am.AmO? && blank == Blank(of) && c == Context(c.row, mem, offset, m, c.prefixes)
      modifies `dispbytes
      ensures OperandPart() == old(OperandPart()).(dispbytes := DirectSize(c, of)) && op == DirectOperand(c, of)
    {
      hide Fetch8, Fetch16, Fetch32;
      op := blank.(kind := TypeMemory);
      if of.ot == OtB {
        op := op.(dispbytes := 1, displacement := Fetch8(mem, offset));
      } else if of.ot == OtV {
        op := op.(dispbytes := if m == Mode32 then 4 else 2,
                  displacement := if m == Mode32 then Fetch32(mem, offset) else Fetch16(mem, offset));
      }
      dispbytes := op.dispbytes;
      op := op.(dispoffset := offset);
    }

    /** Fills in an operand that takes no bytes of its own. */
    method FillPlain(r: Row, of: OFlags, blank: Operand, mem: Memory, offset: nat, ghost c: Context) returns (op: Operand)
      requires blank == Blank(of) && c == Context(r, mem, offset, c.mode, c.prefixes)
      requires !IsMemory(of) && !IsImmediate(of) && !IsDirect(of)
      ensures ParseUsed(c, of, OperandPart()) == Some((OperandPart(), op))
    {
      hide ModrmReg, Blank;
      op := blank;
      match of.am
      case AmReg => op := op.(kind := TypeRegister, reg := of.reg);
      case AmInd => op := op.(kind := TypeMemory, basereg := of.reg);
      case AmI1 => op := op.(kind := TypeImmediate, immbytes := 1, immediate := 1);
      case AmG => op := op.(kind := TypeRegister, reg := if r.modrm then ModrmReg(mem(offset)) else REG_NOP);
      case AmNone =>
      case _ => op := op.(kind := TypeRegister, reg := ModrmReg(modrm));
    }

    /** Fills in the operand that a slot in use asks for; false for an illegal ModR/M byte. */
    method FillOperand(r: Row, of: OFlags, f: Form, mem: Memory, offset: nat, m: Mode, iflags: bv32, ghost c: Context)
      returns (ok: bool, op: Operand)
      requires c == Context(r, mem, offset, m, c.prefixes) && InRange(c.prefixes) && iflags == Pack(c.prefixes) && f == ContextForm(c)
      modifies `dispbytes, `immbytes, `sectionbytes
      ensures var parsed := ParseUsed(c, of, old(OperandPart()));
        ok == parsed.Some? && (ok ==> (OperandPart(), op) == parsed.value)
    {
      hide Pack, ContextForm, MemoryOperand, ImmediateOperand, DirectOperand, DirectSize, ImmSize, HeadSize, ModrmMod, ModrmReg;
      ok, op := true, NO_OPERAND.(flags := of, reg := REG_NOP, basereg := REG_NOP, indexreg := REG_NOP);
      if IsMemory(of) {
        if (of.am == AmM && ModrmMod(mem(offset)) == 3) || (of.am == AmR && ModrmMod(mem(offset)) != 3) {
          return false, op;
        }
        op := FillMemory(of, op, f, mem, offset, c);
      } else if IsImmediate(of) {
        op := FillImmediate(of, op, m, iflags, r, f, mem, offset, c);
      } else if of.am == AmA {
        op := FillAddress(of, op, m, iflags, mem, offset, c);
      } else if of.am == AmO {
        op := FillOffset(of, op, m, mem, offset, c);
      } else {
        op := FillPlain(r, of, op, mem, offset, c);
      }
    }

    /** Parses one operand slot into the record. */
    method GetOperand(r: Row, of: OFlags, mem: Memory, offset: nat, m: Mode, iflags: bv32, ghost c: Context)
      returns (ok: bool, op: Operand)
      requires c == Context(r, mem, offset, m, c.prefixes) && InRange(c.prefixes) && iflags == Pack(c.prefixes)
      modifies `length, `modrm, `sib, `dispbytes, `immbytes, `sectionbytes
      ensures var parsed := ParseOperand(c, of, old(OperandPart()));
        ok == parsed.Some? && (ok ==> (OperandPart(), op) == parsed.value)
    {
      hide Pack, ContextForm, SeeModrm, ParseUsed;
      if of == FLAGS_NONE {
        return true, NO_OPERAND;
      }
      var f := ReadModrm(r, mem, offset, m, iflags, c);
      ok, op := FillOperand(r, of, f, mem, offset, m, iflags, c);
    }

    /** Selects the row for an opcode extension; `next` is the byte behind the opcode. */
    method ExtendOpcode(t: Tables, mem: Memory, i: nat, iflags: bv32, ghost s: Summary) returns (r: Option<Row>, index: nat)
      requires InRange(s) && iflags == Pack(s)
      modifies `opcode, `extindex
      ensures var choice := SelectExtension(t, mem, i, s);
        && r == (if choice.Some? then Some(choice.value.row) else None)
        && (choice.Some? ==> choice.value == Choice(r.value, index + 1, opcode, extindex, 0, s))
    {
      hide Pack, ModrmMod, ModrmReg, ModrmRm, MaskExt, MaskPrefixOperand;
      PackReadsBack(s);
      var next, ext, wide := mem(i + 1), MaskExt(iflags), MaskPrefixOperand(iflags) == 1;
      index := i;
      opcode, extindex := mem(i), ModrmReg(next);
      if ext == EXT_GC {
        r := Some(if wide then t.extC66(extindex) else t.ext(ext, extindex));
      } else if ext == EXT_GD {
        r := Some(if wide then t.extD66(extindex) else t.ext(ext, extindex));
      } else if ext == EXT_GE {
        r := Some(if wide then t.extE66(extindex) else t.ext(ext, extindex));
      } else if ext == EXT_G7 && ModrmMod(next) == 3 {
        if extindex != 1 {
          return None, index;
        }
        if ModrmRm(next) == 0 {
          r := Some(t.monitor);
        } else if ModrmRm(next) == 1 {
          r := Some(t.mwait);
        } else {
          return None, index;
        }
        index := index + 1;
      } else {
        r := Some(t.ext(ext, extindex));
      }
    }

    /** Selects the row for a two-byte opcode, before extensions. */
    method TwoByteOpcode(t: Tables, b: byte, iflags: bv32, ghost s: Summary) returns (r: Row)
      requires InRange(s) && iflags == Pack(s)
      ensures r == TwoByteRow(t, b, s)
    {
      hide Pack, MaskPrefixOperand, MaskPrefixG1;
      PackReadsBack(s);
      r := t.two(b);
      if r.threeByte {
        if MaskPrefixOperand(iflags) == 1 {
          r := t.three66(b);
        } else if MaskPrefixG1(iflags) == 2 {
          r := t.threeF2(b);
        } else if MaskPrefixG1(iflags) == 3 {
          r := t.threeF3(b);
        }
      }
    }

    /** Selects the FPU row behind an escape byte; in the memory forms the next byte is ModR/M. */
    method FpuOpcode(t: Tables, mem: Memory, i: nat, ghost s: Summary) returns (r: Row, index: nat)
      requires i > 0
      modifies `opcode, `fpuindex
      ensures SelectFpu(t, mem, i, s) == Choice(r, index + 1, opcode, 0, fpuindex, s)
    {
      hide ModrmReg;
      index := i;
      if mem(index) < 0xc0 {
        index := index - 1;
        fpuindex, opcode := mem(index) - 0xd8, mem(index + 1);
        r := t.fpu(fpuindex, ModrmReg(opcode));
      } else {
        fpuindex, opcode := mem(index - 1) - 0xd8, mem(index);
        r := t.fpu(fpuindex, opcode - 0xb8);
      }
    }

    /** Selects the row of a two-byte opcode; its second byte may set another extension number. */
    method SelectTwoByte(t: Tables, mem: Memory, i: nat, iflags: bv32, ghost s: Summary)
      returns (r: Option<Row>, index: nat, f: bv32, ghost s': Summary)
      requires InRange(s) && iflags == Pack(s) && s.ext == EXT_T2 && extindex == 0
      modifies `opcode, `extindex
      ensures InRange(s') && f == Pack(s')
      ensures var choice := Select(t, mem, i, s);
        && r == (if choice.Some? then Some(choice.value.row) else None)
        && (choice.Some? ==> choice.value == Choice(r.value, index + 1, opcode, extindex, 0, s'))
    {
      hide Pack, MaskExt, SelectExtension, TwoByteRow, ExtensionOf2;
      opcode := mem(i);
      f := GetRealInstruction2(mem(i), iflags, s);
      s' := SecondExtension(s, mem(i));
      PackReadsBack(s');
      if MaskExt(f) < EXT_T2 {
        r, index := ExtendOpcode(t, mem, i, f, s');
      } else {
        var twoByteRow := TwoByteOpcode(t, opcode, iflags, s);
        r, index := Some(twoByteRow), i;
      }
    }

    /** Selects the row; the flags may get another extension number on the way. */
    method SelectRow(t: Tables, mem: Memory, i: nat, iflags: bv32, ghost s: Summary)
      returns (r: Option<Row>, index: nat, f: bv32, ghost s': Summary)
      requires InRange(s) && iflags == Pack(s) && extindex == 0 && fpuindex == 0
      requires s.ext < EXT_T2 || s.ext == EXT_T2 || (s.ext == EXT_CP && i > 0)
      modifies `opcode, `extindex, `fpuindex
      ensures InRange(s') && f == Pack(s')
      ensures var choice := Select(t, mem, i, s);
        && r == (if choice.Some? then Some(choice.value.row) else None)
        && (choice.Some? ==> choice.value == Choice(r.value, index + 1, opcode, extindex, fpuindex, s'))
    {
      hide Pack, MaskExt, SelectExtension, SelectFpu, TwoByteRow, SecondExtension, InRange;
      PackReadsBack(s);
      if MaskExt(iflags) == EXT_T2 {
        r, index, f, s' := SelectTwoByte(t, mem, i, iflags, s);
      } else {
        f, s' := iflags, s;
        if MaskExt(f) == 0 {
          opcode := mem(i);
          r, index := Some(t.one(opcode)), i;
        } else if MaskExt(f) == EXT_CP {
          var fpuRow;
          fpuRow, index := FpuOpcode(t, mem, i, s);
          r := Some(fpuRow);
        } else {
          r, index := ExtendOpcode(t, mem, i, f, s);
        }
      }
    }

    /** Parses the three operand slots of the row in order. */
    method GetOperands(r: Row, mem: Memory, offset: nat, m: Mode, iflags: bv32, ghost c: Context) returns (ok: bool)
      requires c == Context(r, mem, offset, m, c.prefixes) && InRange(c.prefixes) && iflags == Pack(c.prefixes)
      requires OperandPart() == Progress(0, 0, 0, 0, 0, 0)
      modifies `length, `modrm, `sib, `dispbytes, `immbytes, `sectionbytes, `op1, `op2, `op3
      ensures var parsed := ParseOperands(c);
        ok == parsed.Some? && (ok ==> (OperandPart(), op1, op2, op3) == parsed.value)
    {
      hide Pack, ParseOperand, InRange;
      ok, op1 := GetOperand(r, r.flags1, mem, offset, m, iflags, c);
      if !ok {
        return;
      }
      ok, op2 := GetOperand(r, r.flags2, mem, offset, m, iflags, c);
      if !ok {
        return;
      }
      ok, op3 := GetOperand(r, r.flags3, mem, offset, m, iflags, c);
    }

    /** Adds opcode, displacement and immediate bytes to the ModR/M and SIB bytes counted so far. */
    method AddUp(m: Mode, index: nat, f: bv32) returns (n: nat)
      modifies `length, `mode, `flags
      ensures n == length == old(length) + index + immbytes + dispbytes && mode == m && flags == f
    {
      length := length + index + immbytes + dispbytes;
      mode, flags := m, f;
      n := length;
    }

    /** Decodes the operands of the selected row, and adds up the length. */
    method FinishRow(r: Row, mem: Memory, m: Mode, index: nat, f: bv32, ghost c: Choice) returns (n: nat)
      requires c == Choice(r, index, opcode, extindex, fpuindex, c.prefixes) && InRange(c.prefixes) && f == Pack(c.prefixes)
      requires OperandPart() == Progress(0, 0, 0, 0, 0, 0) && modrmOffset == 0
      modifies `length, `mode, `modrm, `sib, `modrmOffset, `dispbytes, `immbytes, `sectionbytes, `op1, `op2, `op3, `row, `flags
      ensures var inst := DecodeRow(c, mem, m);
        && n == (if inst.Some? then inst.value.length else 0)
        && (inst.Some? ==> Contents() == inst.value)
    {
      hide Pack, ParseOperands, InRange;
      if r.modrm {
        modrmOffset := index;
      }
      if !r.mnemonic {
        return 0;
      }
      row := r;
      var ok := GetOperands(r, mem, index, m, f, ContextOf(c, mem, m));
      if !ok {
        return 0;
      }
      ghost var p := OperandPart();
      n := AddUp(m, index, f);
      assert Contents() == Assemble(c, m, p, op1, op2, op3);
    }

    /** Decodes one instruction into the record; the result is its length, or 0 if it is illegal. */
    method GetInstruction(t: Tables, mem: Memory, m: Mode, ghost end: nat) returns (n: nat)
      requires EndsAt(mem, end)
      modifies this
      ensures var inst := Decode(t, mem, m, end);
        && n == (if inst.Some? then inst.value.length else 0)
        && (inst.Some? ==> Contents() == inst.value)
    {
      hide Pack, ScanOf, Select, DecodeRow, InRange;
      Clear();
      StartOfScan(mem, end);
      var index, f := GetRealInstruction(mem, 0, 0, 0, end);
      var r;
      ghost var s;
      r, index, f, s := SelectRow(t, mem, index, f, ScanOf(mem, end));
      if r.None? {
        return 0;
      }
      n := FinishRow(r.value, mem, m, index + 1, f, Choice(r.value, index + 1, opcode, extindex, fpuindex, s));
    }

    /** All fields zero, as decoding starts out. */
    method Clear()
      modifies this
      ensures OperandPart() == Progress(0, 0, 0, 0, 0, 0) && modrmOffset == 0 && extindex == 0 && fpuindex == 0
    {
      length, modrm, sib, dispbytes, immbytes, sectionbytes := 0, 0, 0, 0, 0, 0;
      modrmOffset, extindex, fpuindex := 0, 0, 0;
      ClearRest();
    }

    method ClearRest()
      modifies `opcode, `mode, `flags, `op1, `op2, `op3
    {
      opcode, mode, flags := 0, Mode32, 0;
      op1, op2, op3 := NO_OPERAND, NO_OPERAND, NO_OPERAND;
    }
  }

  /** No flags before the first byte, and a possible scan at the end. */
  lemma StartOfScan(mem: Memory, end: nat)
    ensures Pack(SummaryOf(mem, 0)) == 0
    ensures var s := ScanOf(mem, end); InRange(s) && (s.ext < EXT_T2 || s.ext == EXT_T2 || (s.ext == EXT_CP && IndexAfter(mem, end) > 0))
  {
    hide LastGroup1, LastGroup2, Contains;
    SummaryInRange(mem, end);
    ExtensionsAreSmall(mem, end);
    NothingSeen(mem);
  }

  lemma NothingSeen(mem: Memory)
    ensures SummaryOf(mem, 0) == Summary(0, 0, 0, 0, 0)
  {
  }

  lemma SibFromForm(c: Context)
    ensures ContextForm(c).sib == HasSib(c) && ContextForm(c).dispbytes in {0, 1, 2, 4}
  {
    hide NeedsSib, AddrMode;
  }
}
