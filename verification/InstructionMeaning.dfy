/**
 What the operands of a decoded instruction mean, in terms of the code bytes: sizes follow the mode
 and the size prefixes, values are little-endian numbers, and a memory operand denotes the
 effective address that ModR/M, SIB and displacement encode (Intel SDM volume 2A, section 2.1.5).
 */
module InstructionMeaning {
  import opened Options
  import opened Prefixes
  import opened Operands
  import opened OperandLayout
  import opened Decoder

  // ----- Numbers -----

  /** The sum of byte i times 256 to the i. */
  function LittleEndian(mem: Memory, at: nat, n: nat): nat
    decreases n
  {
    if n == 0 then 0 else mem(at) as nat + 256 * LittleEndian(mem, at + 1, n - 1)
  }

  /** The 32-bit two's complement of a signed byte. */
  function SignedByte(v: nat): nat {
    if v < 128 then v else v + 0x1_0000_0000 - 256
  }

  lemma JoinedBytesAreNumbers(a: byte, b: byte, c: byte, d: byte)
    ensures (a as bv32) as nat == a as nat
    ensures ((a as bv32) | ((b as bv32) << 8)) as nat == a as nat + 0x100 * (b as nat)
    ensures (((a as bv32) | ((b as bv32) << 8)) | (((c as bv32) | ((d as bv32) << 8)) << 16)) as nat
         == a as nat + 0x100 * (b as nat) + 0x1_0000 * (c as nat) + 0x100_0000 * (d as nat)
  {
  }

  lemma WordsAreNumbers(a: byte, b: byte, c: byte, d: byte)
    ensures (a as bv32) as nat == a as nat && Word(a, b) as nat == a as nat + 0x100 * (b as nat)
    ensures Quad(a, b, c, d) as nat == a as nat + 0x100 * (b as nat) + 0x1_0000 * (c as nat) + 0x100_0000 * (d as nat)
  {
    JoinedBytesAreNumbers(a, b, c, d);
  }

  lemma LittleEndianBytes(mem: Memory, at: nat)
    ensures LittleEndian(mem, at, 1) == mem(at) as nat
    ensures LittleEndian(mem, at, 2) == mem(at) as nat + 0x100 * (mem(at + 1) as nat)
    ensures LittleEndian(mem, at, 4)
         == mem(at) as nat + 0x100 * (mem(at + 1) as nat) + 0x1_0000 * (mem(at + 2) as nat) + 0x100_0000 * (mem(at + 3) as nat)
  {
    assert LittleEndian(mem, at + 3, 1) == mem(at + 3) as nat;
    assert LittleEndian(mem, at + 1, 1) == mem(at + 1) as nat;
    assert LittleEndian(mem, at + 2, 2) == mem(at + 2) as nat + 256 * LittleEndian(mem, at + 3, 1);
    assert LittleEndian(mem, at + 1, 3) == mem(at + 1) as nat + 256 * LittleEndian(mem, at + 2, 2);
  }

  lemma FetchedBytes(mem: Memory, at: nat)
    ensures Fetch8(mem, at) as nat == mem(at) as nat
    ensures Fetch16(mem, at) as nat == mem(at) as nat + 0x100 * (mem(at + 1) as nat)
    ensures Fetch32(mem, at) as nat
         == mem(at) as nat + 0x100 * (mem(at + 1) as nat) + 0x1_0000 * (mem(at + 2) as nat) + 0x100_0000 * (mem(at + 3) as nat)
  {
    hide Word, Quad;
    WordsAreNumbers(mem(at), mem(at + 1), mem(at + 2), mem(at + 3));
  }

  lemma ValueIsLittleEndian(mem: Memory, at: nat, n: nat)
    requires n in {0, 1, 2, 4}
    ensures Value(mem, at, n) as nat == LittleEndian(mem, at, n)
  {
    hide Fetch8, Fetch16, Fetch32;
    FetchedBytes(mem, at);
    LittleEndianBytes(mem, at);
  }

  lemma SignExtensionIsSigned(b: byte)
    ensures SignExtend8(b as bv32) as nat == SignedByte(b as nat)
  {
  }

  /** The fields of a ModR/M or SIB byte: the top two, the middle three and the low three bits. */
  function Top(b: byte): nat { b as nat / 64 }
  function Middle(b: byte): nat { b as nat / 8 % 8 }
  function Low(b: byte): nat { b as nat % 8 }

  lemma TopField(b: byte)
    ensures ModrmMod(b) as nat == Top(b)
  {
  }

  lemma MiddleField(b: byte)
    ensures ModrmReg(b) as nat == Middle(b)
  {
  }

  lemma LowField(b: byte)
    ensures ModrmRm(b) as nat == Low(b)
  {
  }

  lemma ScaleField(b: byte)
    ensures ScaleOf(b) as nat == if Top(b) == 0 then 0 else if Top(b) == 1 then 2 else if Top(b) == 2 then 4 else 8
  {
    TopField(b);
  }

  // ----- Sizes -----

  /** 32 bits are in force: the mode says so, or a prefix toggles the other mode. */
  ghost predicate Wide(mem: Memory, end: nat, mode: Mode, prefix: byte) {
    (mode == Mode32) != Contains(mem, end, prefix)
  }

  lemma SelectKeepsPrefixes(t: Tables, mem: Memory, i: nat, s: Summary)
    requires (s.ext == EXT_CP ==> i > 0) && Select(t, mem, i, s).Some?
    ensures var p := Select(t, mem, i, s).value.prefixes; p == s || p == SecondExtension(s, mem(i))
  {
    hide TwoByteRow, ExtensionRow, ExtensionOf2, SecondExtension, ModrmReg, ModrmMod, ModrmRm;
  }

  lemma ChoiceKeepsPrefixes(t: Tables, mem: Memory, end: nat)
    requires SelectAt(t, mem, end).Some?
    ensures var p, s := SelectAt(t, mem, end).value.prefixes, SummaryOf(mem, end);
      p.operandSize == s.operandSize && p.addressSize == s.addressSize && p.g1 == s.g1 && p.g2 == s.g2
  {
    hide SummaryOf, Select, ExtensionOf;
    ExtensionsAreSmall(mem, end);
    SelectKeepsPrefixes(t, mem, IndexAfter(mem, end), ScanOf(mem, end));
  }

  lemma ModesFollowPrefixes(c: Context, mem: Memory, end: nat)
    requires c.prefixes.operandSize == SummaryOf(mem, end).operandSize && c.prefixes.addressSize == SummaryOf(mem, end).addressSize
    ensures ModeCheckOperand(c.mode, c.prefixes) == Mode32 <==> Wide(mem, end, c.mode, 0x66)
    ensures AddrMode(c) == Mode32 <==> Wide(mem, end, c.mode, 0x67)
  {
    hide Contains, LastGroup1, LastGroup2;
  }

  // ----- Immediates, far addresses and plain offsets -----

  function ImmediateSize(of: OFlags, wide: bool): nat {
    match of.ot
    case OtB => 1
    case OtV => if wide then 4 else 2
    case OtW => 2
    case _ => 0
  }

  /** A byte immediate is signed if it is relative, or flagged so and with nothing else. */
  predicate IsSigned(of: OFlags) {
    of.ot == OtB && !of.r && !of.f && (of.s || of.am == AmJ)
  }

  ghost predicate ImmediateMeans(of: OFlags, op: Operand, mem: Memory, wide: bool) {
    of.am == AmI || of.am == AmJ ==>
      && op.kind == TypeImmediate && op.immbytes == ImmediateSize(of, wide)
      && op.immediate as nat ==
           if IsSigned(of) then SignedByte(LittleEndian(mem, op.immoffset, 1)) else LittleEndian(mem, op.immoffset, op.immbytes)
  }

  /** A far address holds its offset, and behind it the segment. */
  ghost predicate FarMeans(of: OFlags, op: Operand, mem: Memory, at: nat, wide: bool) {
    of.am == AmA ==>
      && op.kind == TypeImmediate && op.dispbytes == (if wide then 6 else 4)
      && op.displacement as nat == LittleEndian(mem, at, op.dispbytes - 2)
      && op.section as nat == LittleEndian(mem, at + op.dispbytes - 2, 2)
  }

  /** A plain offset has the size of the mode, prefix or not. */
  ghost predicate OffsetMeans(of: OFlags, op: Operand, mem: Memory, at: nat, mode: Mode) {
    of.am == AmO ==>
      && op.kind == TypeMemory && op.dispoffset == at
      && op.dispbytes == (match of.ot case OtB => 1 case OtV => (if mode == Mode32 then 4 else 2) case _ => 0)
      && op.displacement as nat == LittleEndian(mem, at, op.dispbytes)
  }

  // ----- Addresses -----

  /** Values of the general registers by number: 0 to 7 are EAX, ECX, EDX, EBX, ESP, EBP, ESI, EDI. */
  type Registers = nat -> int

  const EBX: nat := 3
  const EBP: nat := 5
  const ESI: nat := 6
  const EDI: nat := 7

  /** Number of displacement bytes that ModR/M and SIB ask for. */
  function DisplacementSize(b: byte, sib: byte, wide: bool): nat {
    if Top(b) == 3 then 0
    else if Top(b) == 1 then 1
    else if wide then (if Top(b) == 2 || Low(b) == 5 || (Low(b) == 4 && Low(sib) == 5) then 4 else 0)
    else if Top(b) == 2 || Low(b) == 6 then 2
    else 0
  }

  /** The base register of a 32-bit form, if there is one. */
  function Base32(b: byte, sib: byte): Option<nat> {
    var r := if Low(b) == 4 then Low(sib) else Low(b);
    if Top(b) == 0 && r == 5 then None else Some(r)
  }

  /** The effective address of a 32-bit form without its displacement. */
  function Address32(b: byte, sib: byte, regs: Registers): int {
    (match Base32(b, sib) case None => 0 case Some(r) => regs(r))
    + (if Low(b) == 4 && Middle(sib) != 4 then regs(Middle(sib)) * (if Top(sib) == 0 then 1 else if Top(sib) == 1 then 2 else if Top(sib) == 2 then 4 else 8) else 0)
  }

  /** The effective address of a 16-bit form without its displacement: BX or BP, plus SI or DI. */
  function Address16(b: byte, regs: Registers): int {
    match Low(b)
    case 0 => regs(EBX) + regs(ESI)
    case 1 => regs(EBX) + regs(EDI)
    case 2 => regs(EBP) + regs(ESI)
    case 3 => regs(EBP) + regs(EDI)
    case 4 => regs(ESI)
    case 5 => regs(EDI)
    case 6 => if Top(b) == 0 then 0 else regs(EBP)
    case _ => regs(EBX)
  }

  /** The address that an operand denotes: base, plus index times scale, plus displacement; scale 0 is 1. */
  function OperandAddress(op: Operand, regs: Registers): int {
    PartsAddress(op.basereg, op.indexreg, op.scale, regs) + op.displacement as nat
  }

  function PartsAddress(basereg: byte, indexreg: byte, scale: byte, regs: Registers): int {
    (if basereg == REG_NOP then 0 else regs(basereg as nat))
    + (if indexreg == REG_NOP then 0 else regs(indexreg as nat) * (if scale == 0 then 1 else scale as nat))
  }

  /** The number that the displacement bytes hold; a single one is signed. */
  function Displacement(mem: Memory, at: nat, n: nat): nat {
    if n == 1 then SignedByte(LittleEndian(mem, at, 1)) else LittleEndian(mem, at, n)
  }

  predicate HasSibByte(b: byte, wide: bool) {
    wide && Low(b) == 4 && Top(b) != 3
  }

  ghost predicate DenotesAddress(op: Operand, b: byte, sib: byte, wide: bool, displacement: nat) {
    forall regs: Registers ::
      OperandAddress(op, regs) == (if wide then Address32(b, sib, regs) else Address16(b, regs)) + displacement
  }

  /** A ModR/M operand is a register if the byte says so, or else memory at the effective address. */
  ghost predicate MemoryMeans(of: OFlags, op: Operand, mem: Memory, at: nat, wide: bool) {
    of.am in {AmE, AmM, AmQ, AmR, AmW} ==>
      var b, sib := mem(at), mem(at + 1);
      && op.dispbytes == DisplacementSize(b, sib, wide)
      && op.dispoffset == (if op.dispbytes == 0 then 0 else at + (if HasSibByte(b, wide) then 2 else 1))
      && (of.am == AmM ==> Top(b) != 3) && (of.am == AmR ==> Top(b) == 3)
      && if Top(b) == 3 then op.kind == TypeRegister && op.reg as nat == Low(b)
         else op.kind == TypeMemory
              && DenotesAddress(op, b, sib, wide, Displacement(mem, at + (if HasSibByte(b, wide) then 2 else 1), op.dispbytes))
  }

  /** Register operands: from the middle field of ModR/M, or fixed by the row. */
  ghost predicate RegisterMeans(of: OFlags, op: Operand, mem: Memory, at: nat) {
    && (of.am in {AmC, AmD, AmG, AmP, AmS, AmT, AmV} ==> op.kind == TypeRegister && op.reg as nat == Middle(mem(at)))
    && (of.am == AmReg ==> op.kind == TypeRegister && op.reg == of.reg)
    && (of.am == AmInd ==> op.kind == TypeMemory && op.basereg == of.reg && op.indexreg == REG_NOP && op.displacement == 0)
    && (of.am == AmI1 ==> op.kind == TypeImmediate && op.immbytes == 1 && op.immediate == 1)
    && (of == FLAGS_NONE ==> op.kind == TypeNone)
  }

  /** All that a slot means. */
  ghost predicate SlotMeans(of: OFlags, op: Operand, mem: Memory, at: nat, mode: Mode, wideOperand: bool, wideAddress: bool) {
    && ImmediateMeans(of, op, mem, wideOperand)
    && FarMeans(of, op, mem, at, wideOperand)
    && OffsetMeans(of, op, mem, at, mode)
    && MemoryMeans(of, op, mem, at, wideAddress)
    && RegisterMeans(of, op, mem, at)
  }

  // ----- Slots of the parser mean this -----

  lemma ImmediateSlot(c: Context, of: OFlags, at: nat, wide: bool)
    requires of.am == AmI || of.am == AmJ
    requires ModeCheckOperand(c.mode, c.prefixes) == Mode32 <==> wide
    ensures ImmediateMeans(of, ImmediateOperand(c, of, at), c.mem, wide)
  {
    hide ModeCheckOperand, Value, LittleEndian, SignExtend8, SignedByte;
    ValueIsLittleEndian(c.mem, at, ImmediateSize(of, wide));
    if of.ot == OtB {
      ByteValue(c.mem, at);
    }
  }

  lemma ByteValue(mem: Memory, at: nat)
    ensures SignExtend8(Value(mem, at, 1)) as nat == SignedByte(LittleEndian(mem, at, 1))
  {
    SignExtensionIsSigned(mem(at));
    assert LittleEndian(mem, at, 1) == mem(at) as nat;
  }

  lemma FarSlot(c: Context, of: OFlags, wide: bool)
    requires of.am == AmA
    requires ModeCheckOperand(c.mode, c.prefixes) == Mode32 <==> wide
    ensures FarMeans(of, DirectOperand(c, of), c.mem, c.offset, wide)
  {
    hide ModeCheckOperand, Value, Fetch16, LittleEndian;
    var n := if wide then 4 else 2;
    ValueIsLittleEndian(c.mem, c.offset, n);
    ValueIsLittleEndian(c.mem, c.offset + n, 2);
    WordIsValue(c.mem, c.offset + n);
  }

  lemma WordIsValue(mem: Memory, at: nat)
    ensures Fetch16(mem, at) == Value(mem, at, 2)
  {
  }

  lemma OffsetSlot(c: Context, of: OFlags)
    requires of.am == AmO
    ensures OffsetMeans(of, DirectOperand(c, of), c.mem, c.offset, c.mode)
  {
    hide Value, LittleEndian;
    ValueIsLittleEndian(c.mem, c.offset, DirectSize(c, of));
  }

  lemma FieldValues(b: byte)
    ensures ModrmMod(b) as nat == Top(b) && ModrmReg(b) as nat == Middle(b) && ModrmRm(b) as nat == Low(b)
    ensures Top(b) < 4 && Middle(b) < 8 && Low(b) < 8
  {
    TopField(b);
    MiddleField(b);
    LowField(b);
  }

  lemma NumberOfByte(b: byte, n: nat)
    requires n < 256 && b as nat == n
    ensures b == n as byte
  {
  }

  lemma DisplacementSizes(b: byte, sib: byte, m: Mode)
    ensures FormOf(b, sib, m).dispbytes == DisplacementSize(b, sib, m == Mode32)
    ensures NeedsSib(b, m) <==> HasSibByte(b, m == Mode32)
  {
    hide ModrmMod, ModrmReg, ModrmRm, Top, Middle, Low, ScaleOf;
    FieldValues(b);
    FieldValues(sib);
  }

  /** Base, index and scale of the memory forms are those of the effective address. */
  lemma LongFormAddress(b: byte, sib: byte, regs: Registers)
    requires Top(b) != 3
    ensures var f := FormOf(b, sib, Mode32);
      PartsAddress(f.basereg, f.indexreg, f.scale, regs) == Address32(b, sib, regs)
  {
    hide ModrmMod, ModrmReg, ModrmRm, Top, Middle, Low, ScaleOf;
    FieldValues(b);
    FieldValues(sib);
    ScaleField(sib);
  }

  lemma ShortFormAddress(b: byte, sib: byte, regs: Registers)
    requires Top(b) != 3
    ensures var f := FormOf(b, sib, Mode16);
      PartsAddress(f.basereg, f.indexreg, f.scale, regs) == Address16(b, regs)
  {
    hide ModrmMod, ModrmReg, ModrmRm, Top, Middle, Low, ScaleOf;
    FieldValues(b);
  }

  lemma RegisterForm(b: byte, sib: byte, m: Mode)
    requires Top(b) == 3
    ensures FormOf(b, sib, m).basereg == ModrmRm(b) != REG_NOP && FormOf(b, sib, m).dispbytes == 0
  {
    hide ModrmMod, ModrmReg, ModrmRm, Top, Middle, Low, ScaleOf;
    FieldValues(b);
  }

  lemma FormInOperand(c: Context, of: OFlags)
    requires c.row.modrm
    ensures var f, op := FormOf(c.mem(c.offset), c.mem(c.offset + 1), AddrMode(c)), MemoryOperand(c, of);
      op.basereg == f.basereg && op.indexreg == f.indexreg && op.scale == f.scale && op.dispbytes == f.dispbytes
  {
    hide ModrmMod, ModrmReg, ModrmRm, AddrMode, FormOf, Value, SignExtend8;
  }

  /** The address that the operand of a memory form denotes. */
  lemma MemoryFormDenotes(c: Context, of: OFlags, wide: bool)
    requires c.row.modrm && Top(c.mem(c.offset)) != 3
    requires AddrMode(c) == if wide then Mode32 else Mode16
    ensures var b, sib, op := c.mem(c.offset), c.mem(c.offset + 1), MemoryOperand(c, of);
      DenotesAddress(op, b, sib, wide, op.displacement as nat)
  {
    hide ModrmMod, ModrmReg, ModrmRm, Top, Middle, Low, AddrMode, Address32, Address16, PartsAddress, MemoryOperand;
    var b, sib, op := c.mem(c.offset), c.mem(c.offset + 1), MemoryOperand(c, of);
    FormInOperand(c, of);
    forall regs: Registers
      ensures OperandAddress(op, regs) == (if wide then Address32(b, sib, regs) else Address16(b, regs)) + op.displacement as nat
    {
      LongFormAddress(b, sib, regs);
      ShortFormAddress(b, sib, regs);
    }
  }

  lemma MemorySlot(c: Context, of: OFlags, wide: bool)
    requires c.row.modrm && of.am in {AmE, AmM, AmQ, AmR, AmW}
    requires AddrMode(c) == Mode32 <==> wide
    requires (of.am == AmM ==> Top(c.mem(c.offset)) != 3) && (of.am == AmR ==> Top(c.mem(c.offset)) == 3)
    ensures MemoryMeans(of, MemoryOperand(c, of), c.mem, c.offset, wide)
  {
    hide ModrmMod, ModrmReg, ModrmRm, Top, Middle, Low, AddrMode, FormOf, Value, LittleEndian, SignExtend8, SignedByte,
         DenotesAddress, DisplacementSize, NeedsSib, HasSibByte;
    var b, sib, f := c.mem(c.offset), c.mem(c.offset + 1), ContextForm(c);
    FieldValues(b);
    DisplacementSizes(b, sib, AddrMode(c));
    var at := c.offset + (if HasSibByte(b, wide) then 2 else 1);
    if Top(b) == 3 {
      RegisterForm(b, sib, AddrMode(c));
    } else {
      ValueIsLittleEndian(c.mem, at, f.dispbytes);
      ByteValue(c.mem, at);
      MemoryFormDenotes(c, of, wide);
    }
  }

  // ----- Whole instructions -----

  lemma ModrmRegisterSlot(c: Context, of: OFlags, p: Progress, q: Progress, op: Operand)
    requires ParseOperand(c, of, p) == Some((q, op)) && IsModrmRegister(of) && c.row.modrm
    requires p.length == 0 || p.length == HeadSize(c)
    requires p.length > 0 ==> p.modrm == c.mem(c.offset) && (HasSib(c) ==> p.sib == c.mem(c.offset + 1))
    ensures op == Blank(of).(kind := TypeRegister, reg := ModrmReg(c.mem(c.offset)))
  {
    hide ModrmReg, ModrmMod, ModrmRm, HasSib, SeeModrm, HeadSize, Blank;
    HeadSeen(c, p);
    HeadIsThere(c);
  }

  lemma FixedSlot(c: Context, of: OFlags, p: Progress, q: Progress, op: Operand)
    requires ParseOperand(c, of, p) == Some((q, op)) && !IsModrmRegister(of)
    ensures RegisterMeans(of, op, c.mem, c.offset)
  {
    hide Middle, ModrmReg, ModrmMod, SeeModrm, MemoryOperand, ImmediateOperand, DirectOperand;
  }

  lemma RegisterSlot(c: Context, of: OFlags, p: Progress, q: Progress, op: Operand)
    requires ParseOperand(c, of, p) == Some((q, op))
    requires p.length == 0 || p.length == HeadSize(c)
    requires p.length > 0 ==> p.modrm == c.mem(c.offset) && (HasSib(c) ==> p.sib == c.mem(c.offset + 1))
    requires IsModrmRegister(of) ==> c.row.modrm
    ensures RegisterMeans(of, op, c.mem, c.offset)
  {
    hide Middle, ModrmReg, HasSib, HeadSize, ParseOperand;
    if IsModrmRegister(of) {
      ModrmRegisterSlot(c, of, p, q, op);
      MiddleField(c.mem(c.offset));
    } else {
      FixedSlot(c, of, p, q, op);
    }
  }

  lemma HeadIsThere(c: Context)
    ensures c.row.modrm ==> HeadSize(c) > 0
  {
    hide HasSib;
  }

  /** A ModR/M byte of the wrong kind is refused. */
  lemma LegalModrm(c: Context, of: OFlags, p: Progress)
    requires ParseOperand(c, of, p).Some?
    ensures (of.am == AmM ==> Top(c.mem(c.offset)) != 3) && (of.am == AmR ==> Top(c.mem(c.offset)) == 3)
  {
    hide Top, ModrmMod, SeeModrm, MemoryOperand, ImmediateOperand, DirectOperand;
    FieldValues(c.mem(c.offset));
  }

  lemma ParsedSlotMeans(c: Context, of: OFlags, p: Progress, q: Progress, op: Operand, wideOperand: bool, wideAddress: bool)
    requires ParseOperand(c, of, p) == Some((q, op))
    requires p.length == 0 || p.length == HeadSize(c)
    requires p.length > 0 ==> p.modrm == c.mem(c.offset) && (HasSib(c) ==> p.sib == c.mem(c.offset + 1))
    requires IsMemory(of) || IsModrmRegister(of) ==> c.row.modrm
    requires (ModeCheckOperand(c.mode, c.prefixes) == Mode32 <==> wideOperand) && (AddrMode(c) == Mode32 <==> wideAddress)
    ensures SlotMeans(of, op, c.mem, c.offset, c.mode, wideOperand, wideAddress)
  {
    hide ImmediateMeans, FarMeans, OffsetMeans, MemoryMeans, RegisterMeans, ParseOperand, HeadSize, HasSib, Top,
         ModeCheckOperand, AddrMode, MemoryOperand, ImmediateOperand, DirectOperand;
    OperandProgress(c, of, p, q, op);
    RegisterSlot(c, of, p, q, op);
    LegalModrm(c, of, p);
    OtherSlots(of, op, c.mem, c.offset, c.mode, wideOperand, wideAddress);
    if IsMemory(of) {
      MemorySlot(c, of, wideAddress);
    } else if IsImmediate(of) {
      ImmediateSlot(c, of, c.offset + HeadSize(c) + p.immbytes + p.dispbytes, wideOperand);
    } else if of.am == AmA {
      FarSlot(c, of, wideOperand);
    } else if of.am == AmO {
      OffsetSlot(c, of);
    }
  }

  /** What a slot of another kind does not say. */
  lemma OtherSlots(of: OFlags, op: Operand, mem: Memory, at: nat, mode: Mode, wideOperand: bool, wideAddress: bool)
    ensures !IsImmediate(of) ==> ImmediateMeans(of, op, mem, wideOperand)
    ensures of.am != AmA ==> FarMeans(of, op, mem, at, wideOperand)
    ensures of.am != AmO ==> OffsetMeans(of, op, mem, at, mode)
    ensures !IsMemory(of) ==> MemoryMeans(of, op, mem, at, wideAddress)
  {
    hide Top, Low, LittleEndian, DenotesAddress, DisplacementSize;
  }

  /**
   What decoding an instruction means: each slot of its row holds the immediate, address, memory
   operand or register that the code bytes encode, in the sizes that the mode and the prefixes
   0x66 and 0x67 give.
   */
  lemma OperandsMean(t: Tables, mem: Memory, mode: Mode, end: nat)
    requires FineTables(t) && Decode(t, mem, mode, end).Some?
    ensures SelectAt(t, mem, end).Some?
    ensures var inst, at := Decode(t, mem, mode, end).value, SelectAt(t, mem, end).value.index;
      var wideOperand, wideAddress := Wide(mem, end, mode, 0x66), Wide(mem, end, mode, 0x67);
      && inst.row == SelectAt(t, mem, end).value.row && inst.mode == mode
      && SlotMeans(inst.row.flags1, inst.op1, mem, at, mode, wideOperand, wideAddress)
      && SlotMeans(inst.row.flags2, inst.op2, mem, at, mode, wideOperand, wideAddress)
      && SlotMeans(inst.row.flags3, inst.op3, mem, at, mode, wideOperand, wideAddress)
  {
    hide SelectAt, FineTables, SlotMeans, Wide, WellFormed, Pack, HeadSize, HasSib, ParseOperands;
    var c := SelectAt(t, mem, end).value;
    SelectedRowIsFine(t, mem, end);
    ChoiceKeepsPrefixes(t, mem, end);
    var ctx := ContextOf(c, mem, mode);
    ModesFollowPrefixes(ctx, mem, end);
    var r := ParseOperands(ctx).value;
    AllSlotsMean(ctx, r.0, r.1, r.2, r.3, Wide(mem, end, mode, 0x66), Wide(mem, end, mode, 0x67));
  }

  lemma AllSlotsMean(c: Context, p: Progress, op1: Operand, op2: Operand, op3: Operand, wideOperand: bool, wideAddress: bool)
    requires WellFormed(c.row) && ParseOperands(c) == Some((p, op1, op2, op3))
    requires (ModeCheckOperand(c.mode, c.prefixes) == Mode32 <==> wideOperand) && (AddrMode(c) == Mode32 <==> wideAddress)
    ensures SlotMeans(c.row.flags1, op1, c.mem, c.offset, c.mode, wideOperand, wideAddress)
    ensures SlotMeans(c.row.flags2, op2, c.mem, c.offset, c.mode, wideOperand, wideAddress)
    ensures SlotMeans(c.row.flags3, op3, c.mem, c.offset, c.mode, wideOperand, wideAddress)
  {
    hide ParseOperand, SlotMeans, HeadSize, HasSib, ModeCheckOperand, AddrMode, MemoryOperand, ImmediateOperand, DirectOperand;
    var r, start := c.row, Progress(0, 0, 0, 0, 0, 0);
    var p1 := ParseOperand(c, r.flags1, start).value.0;
    OperandProgress(c, r.flags1, start, p1, op1);
    var p2 := ParseOperand(c, r.flags2, p1).value.0;
    OperandProgress(c, r.flags2, p1, p2, op2);
    ParsedSlotMeans(c, r.flags1, start, p1, op1, wideOperand, wideAddress);
    ParsedSlotMeans(c, r.flags2, p1, p2, op2, wideOperand, wideAddress);
    ParsedSlotMeans(c, r.flags3, p2, p, op3, wideOperand, wideAddress);
  }

  // ----- Length and legality -----

  predicate UsesModrmMemory(of: OFlags) {
    of.am in {AmE, AmM, AmQ, AmR, AmW}
  }

  /** Displacement bytes that a slot brings along. */
  function DisplacementOf(of: OFlags, b: byte, sib: byte, mode: Mode, wideOperand: bool, wideAddress: bool): nat {
    if UsesModrmMemory(of) then DisplacementSize(b, sib, wideAddress)
    else if of.am == AmA then (if wideOperand then 6 else 4)
    else if of.am == AmO then (match of.ot case OtB => 1 case OtV => (if mode == Mode32 then 4 else 2) case _ => 0)
    else 0
  }

  function ImmediateOf(of: OFlags, wideOperand: bool): nat {
    if of.am == AmI || of.am == AmJ then ImmediateSize(of, wideOperand) else 0
  }

  /** Size of ModR/M and SIB. */
  function HeadOf(r: Row, b: byte, wideAddress: bool): nat {
    if !r.modrm then 0 else if HasSibByte(b, wideAddress) then 2 else 1
  }

  lemma SizesMean(c: Context, of: OFlags, wideOperand: bool, wideAddress: bool)
    requires (ModeCheckOperand(c.mode, c.prefixes) == Mode32 <==> wideOperand) && (AddrMode(c) == Mode32 <==> wideAddress)
    ensures HeadSize(c) == HeadOf(c.row, c.mem(c.offset), wideAddress)
    ensures ImmediateBytes(c, of) == ImmediateOf(of, wideOperand)
    ensures (IsMemory(of) ==> c.row.modrm) ==>
      DispAfter(c, of, 0) == DisplacementOf(of, c.mem(c.offset), c.mem(c.offset + 1), c.mode, wideOperand, wideAddress)
  {
    hide ModeCheckOperand, AddrMode, FormOf, NeedsSib, HasSibByte, DisplacementSize;
    DisplacementSizes(c.mem(c.offset), c.mem(c.offset + 1), AddrMode(c));
  }

  /** The length is that of prefixes and opcode, ModR/M and SIB, the displacement and the immediates. */
  lemma LengthMeans(t: Tables, mem: Memory, mode: Mode, end: nat)
    requires FineTables(t) && Decode(t, mem, mode, end).Some?
    ensures SelectAt(t, mem, end).Some?
    ensures var inst, at := Decode(t, mem, mode, end).value, SelectAt(t, mem, end).value.index;
      var wideOperand, wideAddress, r := Wide(mem, end, mode, 0x66), Wide(mem, end, mode, 0x67), inst.row;
      var d1, d2, d3 := DisplacementOf(r.flags1, mem(at), mem(at + 1), mode, wideOperand, wideAddress),
                        DisplacementOf(r.flags2, mem(at), mem(at + 1), mode, wideOperand, wideAddress),
                        DisplacementOf(r.flags3, mem(at), mem(at + 1), mode, wideOperand, wideAddress);
      && inst.length == at + HeadOf(r, mem(at), wideAddress) + inst.dispbytes + inst.immbytes
      && inst.immbytes == ImmediateOf(r.flags1, wideOperand) + ImmediateOf(r.flags2, wideOperand) + ImmediateOf(r.flags3, wideOperand)
      && inst.dispbytes == (if Displaces(r.flags3) then d3 else if Displaces(r.flags2) then d2 else d1)
  {
    hide SelectAt, FineTables, Wide, WellFormed, Pack, HeadSize, HasSib, ParseOperands, DispAfter, ImmediateBytes, DisplacementOf, Displaces;
    var c := SelectAt(t, mem, end).value;
    SelectedRowIsFine(t, mem, end);
    ChoiceKeepsPrefixes(t, mem, end);
    var ctx := ContextOf(c, mem, mode);
    ModesFollowPrefixes(ctx, mem, end);
    var r := ParseOperands(ctx).value;
    TotalsMean(ctx, r.0, r.1, r.2, r.3, Wide(mem, end, mode, 0x66), Wide(mem, end, mode, 0x67));
  }

  predicate Displaces(of: OFlags) {
    UsesModrmMemory(of) || of.am == AmA || of.am == AmO
  }

  lemma DispAfterMeans(c: Context, of: OFlags, before: nat)
    ensures DispAfter(c, of, before) == if Displaces(of) then DispAfter(c, of, 0) else before
    ensures !Displaces(of) ==> DispAfter(c, of, 0) == 0
  {
    hide ContextForm, DirectSize;
  }

  lemma TotalsMean(c: Context, p: Progress, op1: Operand, op2: Operand, op3: Operand, wideOperand: bool, wideAddress: bool)
    requires WellFormed(c.row) && ParseOperands(c) == Some((p, op1, op2, op3))
    requires (ModeCheckOperand(c.mode, c.prefixes) == Mode32 <==> wideOperand) && (AddrMode(c) == Mode32 <==> wideAddress)
    ensures var r, b, sib := c.row, c.mem(c.offset), c.mem(c.offset + 1);
      && p.length == HeadOf(r, b, wideAddress)
      && p.immbytes == ImmediateOf(r.flags1, wideOperand) + ImmediateOf(r.flags2, wideOperand) + ImmediateOf(r.flags3, wideOperand)
      && p.dispbytes == DisplacementOf(if Displaces(r.flags3) then r.flags3 else if Displaces(r.flags2) then r.flags2 else r.flags1,
                                       b, sib, c.mode, wideOperand, wideAddress)
  {
    hide ParseOperand, HeadSize, HasSib, ModeCheckOperand, AddrMode, MemoryOperand, ImmediateOperand, DirectOperand, DispAfter,
         ImmediateBytes, Displaces, DisplacementOf, ImmediateOf, HeadOf;
    var r, start := c.row, Progress(0, 0, 0, 0, 0, 0);
    var p1 := ParseOperand(c, r.flags1, start).value.0;
    OperandProgress(c, r.flags1, start, p1, op1);
    var p2 := ParseOperand(c, r.flags2, p1).value.0;
    OperandProgress(c, r.flags2, p1, p2, op2);
    OperandProgress(c, r.flags3, p2, p, op3);
    SizesMean(c, r.flags1, wideOperand, wideAddress);
    SizesMean(c, r.flags2, wideOperand, wideAddress);
    SizesMean(c, r.flags3, wideOperand, wideAddress);
    DispAfterMeans(c, r.flags1, 0);
    DispAfterMeans(c, r.flags2, p1.dispbytes);
    DispAfterMeans(c, r.flags3, p2.dispbytes);
    HeadOnlyWithModrm(c);
  }

  lemma HeadOnlyWithModrm(c: Context)
    ensures !c.row.modrm ==> HeadSize(c) == 0
  {
  }

  /** A slot that wants memory is refused a register, and the other way round. */
  predicate Refused(of: OFlags, b: byte) {
    (of.am == AmM && Top(b) == 3) || (of.am == AmR && Top(b) != 3)
  }

  /** Of the instructions in the tables, exactly those with a ModR/M byte of the wrong kind are illegal. */
  lemma DecodesIff(t: Tables, mem: Memory, mode: Mode, end: nat)
    ensures Decode(t, mem, mode, end).Some? <==>
      && SelectAt(t, mem, end).Some?
      && var c := SelectAt(t, mem, end).value;
         c.row.mnemonic && !Refused(c.row.flags1, mem(c.index)) && !Refused(c.row.flags2, mem(c.index)) && !Refused(c.row.flags3, mem(c.index))
  {
    hide SelectAt, ParseOperand, Refused, Pack;
    if SelectAt(t, mem, end).Some? {
      var c := SelectAt(t, mem, end).value;
      var ctx := ContextOf(c, mem, mode);
      ParsesIff(ctx, c.row.flags1);
      ParsesIff(ctx, c.row.flags2);
      ParsesIff(ctx, c.row.flags3);
    }
  }

  lemma ParsesIff(c: Context, of: OFlags)
    ensures forall p :: ParseOperand(c, of, p).Some? <==> !Refused(of, c.mem(c.offset))
  {
    hide Top, ModrmMod, SeeModrm, MemoryOperand, ImmediateOperand, DirectOperand;
    FieldValues(c.mem(c.offset));
  }
}
