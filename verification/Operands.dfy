/**
 Rows of the opcode tables, and the operands that a row asks for: ModR/M, SIB, displacement and
 immediate bytes (Intel SDM volume 2A, sections 2.1.3 to 2.1.5).
 */
module Operands {
  import opened Options
  import opened Prefixes

  datatype Mode = Mode32 | Mode16

  /** Addressing methods of the opcode tables; `AmNone` is an operand slot that is not in use or only implied. */
  datatype Am =
    | AmNone | AmA | AmC | AmD | AmE | AmG | AmI | AmJ | AmM | AmO | AmP | AmQ | AmR | AmS | AmT | AmV | AmW | AmI1 | AmReg | AmInd

  /** Operand types; the decoder tells only three of them apart. */
  datatype Ot = OtNone | OtB | OtV | OtW | OtOther(number: nat)

  /** Flags of an operand slot, with the bits for sign extension, segment register and FPU register. */
  datatype OFlags = OFlags(am: Am, ot: Ot, perms: nat, s: bool, r: bool, f: bool, reg: byte)

  const FLAGS_NONE := OFlags(AmNone, OtNone, 0, false, false, false, 0)

  /** A row of an opcode table; a row without a mnemonic is no instruction. */
  datatype Row = Row(kind: nat, threeByte: bool, mnemonic: bool, flags1: OFlags, flags2: OFlags, flags3: OFlags, modrm: bool)

  const REG_NOP: byte := 8
  const REG_EBX: byte := 3
  const REG_ESP: byte := 4
  const REG_EBP: byte := 5
  const REG_ESI: byte := 6
  const REG_EDI: byte := 7

  function ModrmMod(b: byte): byte { (b & 0xc0) >> 6 }
  function ModrmReg(b: byte): (r: byte)
    ensures r < 8
  {
    (b & 0x38) >> 3
  }
  function ModrmRm(b: byte): byte { b & 0x7 }

  // ----- Little-endian values -----

  function Fetch8(mem: Memory, at: nat): bv32 { mem(at) as bv32 }
  function Word(a: byte, b: byte): bv32 { (a as bv32) | ((b as bv32) << 8) }
  function Quad(a: byte, b: byte, c: byte, d: byte): bv32 { Word(a, b) | (Word(c, d) << 16) }
  function Fetch16(mem: Memory, at: nat): bv32 { Word(mem(at), mem(at + 1)) }
  function Fetch32(mem: Memory, at: nat): bv32 { Quad(mem(at), mem(at + 1), mem(at + 2), mem(at + 3)) }

  function SignExtend8(v: bv32): bv32 {
    if v >= 0x80 then v | 0xffff_ff00 else v
  }

  // ----- Sizes after the overrides -----

  function ModeCheckAddr(m: Mode, s: Summary): Mode {
    if (m == Mode32 && s.addressSize == 0) || (m == Mode16 && s.addressSize == 1) then Mode32 else Mode16
  }

  function ModeCheckOperand(m: Mode, s: Summary): Mode {
    if (m == Mode32 && s.operandSize == 0) || (m == Mode16 && s.operandSize == 1) then Mode32 else Mode16
  }

  // ----- Address forms -----

  /** What ModR/M and SIB say of a register or memory operand. */
  datatype Form = Form(sib: bool, dispbytes: nat, basereg: byte, indexreg: byte, scale: byte)

  predicate NeedsSib(modrm: byte, m: Mode) {
    m == Mode32 && ModrmRm(modrm) == REG_ESP && ModrmMod(modrm) != 3
  }

  /** Displacement bytes before the special case of SIB. */
  function PlainDisp(modrm: byte, m: Mode): nat {
    if ModrmMod(modrm) == 0 then
      (if m == Mode32 && ModrmRm(modrm) == REG_EBP then 4
       else if m == Mode16 && ModrmRm(modrm) == REG_ESI then 2 else 0)
    else if ModrmMod(modrm) == 1 then 1
    else if ModrmMod(modrm) == 2 then (if m == Mode32 then 4 else 2)
    else 0
  }

  /** Base and index registers of the 16-bit forms. */
  function Form16(modrm: byte): (byte, byte) {
    var rm := ModrmRm(modrm);
    if ModrmMod(modrm) == 3 then (rm, REG_NOP)
    else if rm == 0 then (REG_EBX, REG_ESI)
    else if rm == 1 then (REG_EBX, REG_EDI)
    else if rm == 2 then (REG_EBP, REG_ESI)
    else if rm == 3 then (REG_EBP, REG_EDI)
    else if rm == 4 then (REG_ESI, REG_NOP)
    else if rm == 5 then (REG_EDI, REG_NOP)
    else if rm == 6 then (if ModrmMod(modrm) == 0 then REG_NOP else REG_EBP, REG_NOP)
    else (REG_EBX, REG_NOP)
  }

  function ScaleOf(sib: byte): byte {
    if ModrmMod(sib) == 3 then 8 else ModrmMod(sib) * 2
  }

  function FormOf(modrm: byte, sib: byte, m: Mode): (f: Form)
    ensures f.dispbytes in {0, 1, 2, 4} && f.sib == NeedsSib(modrm, m)
  {
    if m == Mode16 then
      Form(false, PlainDisp(modrm, m), Form16(modrm).0, Form16(modrm).1, 0)
    else if NeedsSib(modrm, m) then
      var noBase := ModrmRm(sib) == REG_EBP && ModrmMod(modrm) == 0;
      Form(true, if noBase then 4 else PlainDisp(modrm, m), if noBase then REG_NOP else ModrmRm(sib),
           if ModrmReg(sib) == REG_ESP then REG_NOP else ModrmReg(sib), ScaleOf(sib))
    else
      Form(false, PlainDisp(modrm, m),
           if ModrmMod(modrm) == 0 && ModrmRm(modrm) == REG_EBP then REG_NOP else ModrmRm(modrm), REG_NOP, 0)
  }

  /** The SIB byte matters only to the forms that have one. */
  lemma SibOnlyWhereNeeded(modrm: byte, sib: byte, sib': byte, m: Mode)
    requires !NeedsSib(modrm, m)
    ensures FormOf(modrm, sib, m) == FormOf(modrm, sib', m)
  {
  }

  // ----- Operands -----

  datatype OperandType = TypeNone | TypeMemory | TypeRegister | TypeImmediate

  datatype Operand = Operand(kind: OperandType, reg: byte, basereg: byte, indexreg: byte, scale: byte,
                             dispbytes: nat, dispoffset: nat, immbytes: nat, immoffset: nat,
                             section: bv32, displacement: bv32, immediate: bv32, flags: OFlags)

  const NO_OPERAND := Operand(TypeNone, 0, 0, 0, 0, 0, 0, 0, 0, 0, 0, 0, FLAGS_NONE)

  /** The part of the instruction that its operands fill in; `length` counts ModR/M and SIB here. */
  datatype Progress = Progress(length: nat, modrm: byte, sib: byte, dispbytes: nat, immbytes: nat, sectionbytes: nat)

  /** What stays the same for all operands: the row, the code, its offset behind the opcode, and the mode. */
  datatype Context = Context(row: Row, mem: Memory, offset: nat, mode: Mode, prefixes: Summary)

  function AddrMode(c: Context): Mode {
    ModeCheckAddr(c.mode, c.prefixes)
  }

  predicate HasSib(c: Context) {
    c.row.modrm && NeedsSib(c.mem(c.offset), AddrMode(c))
  }

  /** Number of ModR/M and SIB bytes. */
  function HeadSize(c: Context): nat {
    (if c.row.modrm then 1 else 0) + (if HasSib(c) then 1 else 0)
  }

  /** The register or memory form that the row's ModR/M byte gives. */
  function ContextForm(c: Context): Form {
    if c.row.modrm then FormOf(c.mem(c.offset), c.mem(c.offset + 1), AddrMode(c)) else Form(false, 0, REG_NOP, REG_NOP, 0)
  }

  /** Records ModR/M and SIB; their length counts only for the first operand that gets here. */
  function SeeModrm(c: Context, p: Progress): Progress {
    if !c.row.modrm then p
    else
      var q := if p.length == 0 then p.(modrm := c.mem(c.offset), length := 1) else p;
      if HasSib(c) then q.(sib := c.mem(c.offset + 1), length := if q.length == 1 then 2 else q.length) else q
  }

  predicate IsMemory(of: OFlags) {
    of.am.AmE? || of.am.AmM? || of.am.AmQ? || of.am.AmR? || of.am.AmW?
  }

  predicate IsImmediate(of: OFlags) {
    of.am.AmI? || of.am.AmJ?
  }

  /** Operands whose bytes follow the opcode directly. */
  predicate IsDirect(of: OFlags) {
    of.am.AmA? || of.am.AmO?
  }

  predicate IsModrmRegister(of: OFlags) {
    of.am.AmC? || of.am.AmD? || of.am.AmG? || of.am.AmP? || of.am.AmS? || of.am.AmT? || of.am.AmV?
  }

  /** Size of an immediate. */
  function ImmSize(c: Context, of: OFlags): nat {
    match of.ot
    case OtB => 1
    case OtV => if ModeCheckOperand(c.mode, c.prefixes) == Mode32 then 4 else 2
    case OtW => 2
    case _ => 0
  }

  /** Size of a direct operand; a far address includes its segment, a direct offset ignores the overrides. */
  function DirectSize(c: Context, of: OFlags): nat {
    if of.am.AmA? then (if ModeCheckOperand(c.mode, c.prefixes) == Mode32 then 6 else 4)
    else match of.ot
      case OtB => 1
      case OtV => if c.mode == Mode32 then 4 else 2
      case _ => 0
  }

  /** The little-endian value of `n` bytes. */
  function Value(mem: Memory, at: nat, n: nat): bv32 {
    if n == 0 then 0 else if n == 1 then Fetch8(mem, at) else if n == 2 then Fetch16(mem, at) else Fetch32(mem, at)
  }

  function Blank(of: OFlags): Operand {
    NO_OPERAND.(flags := of, reg := REG_NOP, basereg := REG_NOP, indexreg := REG_NOP)
  }

  function MemoryOperand(c: Context, of: OFlags): Operand {
    var f := ContextForm(c);
    var at := c.offset + 1 + (if f.sib then 1 else 0);
    var value := Value(c.mem, at, f.dispbytes);
    var op := Blank(of).(
      kind := TypeMemory, dispbytes := f.dispbytes, basereg := f.basereg, indexreg := f.indexreg, scale := f.scale,
      dispoffset := if f.dispbytes != 0 then at else 0,
      displacement := if f.dispbytes == 1 then SignExtend8(value) else value);
    if f.basereg != REG_NOP && ModrmMod(c.mem(c.offset)) == 3 then op.(kind := TypeRegister, reg := f.basereg) else op
  }

  /** Only byte immediates are sign-extended: relative ones, and those that have just that flag. */
  predicate Extends(of: OFlags) {
    (of.am.AmJ? || of.s) && !of.r && !of.f
  }

  function ImmediateOperand(c: Context, of: OFlags, at: nat): Operand {
    var value := Value(c.mem, at, ImmSize(c, of));
    Blank(of).(kind := TypeImmediate, immoffset := at, immbytes := ImmSize(c, of),
               immediate := if of.ot.OtB? && Extends(of) then SignExtend8(value) else value)
  }

  function DirectOperand(c: Context, of: OFlags): Operand {
    var n := DirectSize(c, of);
    if of.am.AmA? then
      Blank(of).(kind := TypeImmediate, dispbytes := n, displacement := Value(c.mem, c.offset, n - 2),
                 section := Fetch16(c.mem, c.offset + n - 2))
    else
      Blank(of).(kind := TypeMemory, dispbytes := n, displacement := Value(c.mem, c.offset, n), dispoffset := c.offset)
  }

  /** The operand that a slot in use asks for; a ModR/M byte of the wrong kind makes the instruction illegal. */
  function ParseUsed(c: Context, of: OFlags, q: Progress): Option<(Progress, Operand)> {
    if IsMemory(of) then
      if of.am.AmM? && ModrmMod(c.mem(c.offset)) == 3 then None
      else if of.am.AmR? && ModrmMod(c.mem(c.offset)) != 3 then None
      else Some((q.(dispbytes := ContextForm(c).dispbytes), MemoryOperand(c, of)))
    else if IsImmediate(of) then
      var at := c.offset + HeadSize(c) + q.immbytes + q.dispbytes;
      Some((q.(immbytes := q.immbytes + ImmSize(c, of)), ImmediateOperand(c, of, at)))
    else if IsDirect(of) then
      Some((q.(dispbytes := DirectSize(c, of), sectionbytes := if of.am.AmA? then 2 else q.sectionbytes), DirectOperand(c, of)))
    else if IsModrmRegister(of) then
      var reg := if !of.am.AmG? then ModrmReg(q.modrm) else if c.row.modrm then ModrmReg(c.mem(c.offset)) else REG_NOP;
      Some((q, Blank(of).(kind := TypeRegister, reg := reg)))
    else if of.am.AmReg? then Some((q, Blank(of).(kind := TypeRegister, reg := of.reg)))
    else if of.am.AmInd? then Some((q, Blank(of).(kind := TypeMemory, basereg := of.reg)))
    else if of.am.AmI1? then Some((q, Blank(of).(kind := TypeImmediate, immbytes := 1, immediate := 1)))
    else Some((q, Blank(of)))
  }

  /** Parses one operand slot. */
  function ParseOperand(c: Context, of: OFlags, p: Progress): Option<(Progress, Operand)> {
    if of == FLAGS_NONE then Some((p, NO_OPERAND)) else ParseUsed(c, of, SeeModrm(c, p))
  }

  // ----- Well-formed rows -----

  /**
   The shape that the rows of the opcode tables have: what uses ModR/M is in a row with ModR/M,
   such a row has a first operand, a register or memory operand comes before any immediate, and
   a direct operand stands alone.
   */
  predicate WellFormed(r: Row) {
    var f1, f2, f3 := r.flags1, r.flags2, r.flags3;
    && (IsMemory(f1) || IsMemory(f2) || IsMemory(f3) || IsModrmRegister(f1) || IsModrmRegister(f2) || IsModrmRegister(f3) ==> r.modrm)
    && (r.modrm ==> f1 != FLAGS_NONE)
    && (IsImmediate(f1) ==> !IsMemory(f2) && !IsMemory(f3))
    && (IsImmediate(f2) ==> !IsMemory(f3))
    && (IsDirect(f1) || IsDirect(f2) || IsDirect(f3) ==> !r.modrm && !IsImmediate(f1) && !IsImmediate(f2) && !IsImmediate(f3))
    && !(IsDirect(f1) && IsDirect(f2)) && !(IsDirect(f1) && IsDirect(f3)) && !(IsDirect(f2) && IsDirect(f3))
  }

  /** The three slots in order; fails as soon as one does. */
  function ParseOperands(c: Context): Option<(Progress, Operand, Operand, Operand)> {
    match ParseOperand(c, c.row.flags1, Progress(0, 0, 0, 0, 0, 0))
    case None => None
    case Some(r1) =>
      match ParseOperand(c, c.row.flags2, r1.0)
      case None => None
      case Some(r2) =>
        match ParseOperand(c, c.row.flags3, r2.0)
        case None => None
        case Some(r3) => Some((r3.0, r1.1, r2.1, r3.1))
  }
}
