/** Where the operands of a row lie, and that parsing them reads no further than their bytes. */
module OperandLayout {
  import opened Options
  import opened Prefixes
  import opened Operands

  /** What an operand adds to the immediate bytes. */
  function ImmediateBytes(c: Context, of: OFlags): nat {
    if IsImmediate(of) then ImmSize(c, of) else 0
  }

  /** The displacement bytes once an operand has been parsed. */
  function DispAfter(c: Context, of: OFlags, before: nat): nat {
    if IsMemory(of) then ContextForm(c).dispbytes else if IsDirect(of) then DirectSize(c, of) else before
  }

  /** `length` after an operand: the head counts once, with the first operand in use. */
  function LengthAfter(c: Context, of: OFlags, before: nat): nat {
    if of == FLAGS_NONE || before > 0 then before else HeadSize(c)
  }

  lemma HeadSeen(c: Context, p: Progress)
    requires p.length == 0 || p.length == HeadSize(c)
    requires p.length > 0 ==> p.modrm == c.mem(c.offset) && (HasSib(c) ==> p.sib == c.mem(c.offset + 1))
    ensures var q := SeeModrm(c, p);
      && q.length == HeadSize(c) && q.dispbytes == p.dispbytes && q.immbytes == p.immbytes && q.sectionbytes == p.sectionbytes
      && (q.length > 0 ==> q.modrm == c.mem(c.offset) && (HasSib(c) ==> q.sib == c.mem(c.offset + 1)))
  {
    hide NeedsSib, AddrMode;
  }

  /** What one operand does to the instruction. */
  lemma OperandProgress(c: Context, of: OFlags, p: Progress, q: Progress, op: Operand)
    requires ParseOperand(c, of, p) == Some((q, op))
    requires p.length == 0 || p.length == HeadSize(c)
    requires p.length > 0 ==> p.modrm == c.mem(c.offset) && (HasSib(c) ==> p.sib == c.mem(c.offset + 1))
    ensures q.length == LengthAfter(c, of, p.length)
    ensures q.length > 0 ==> q.modrm == c.mem(c.offset) && (HasSib(c) ==> q.sib == c.mem(c.offset + 1))
    ensures q.dispbytes == DispAfter(c, of, p.dispbytes)
    ensures q.immbytes == p.immbytes + ImmediateBytes(c, of)
    ensures IsMemory(of) ==> op == MemoryOperand(c, of)
    ensures IsDirect(of) ==> op == DirectOperand(c, of)
    ensures IsImmediate(of) ==> op == ImmediateOperand(c, of, c.offset + HeadSize(c) + p.immbytes + p.dispbytes)
  {
    hide ContextForm, ImmSize, DirectSize, MemoryOperand, DirectOperand, ImmediateOperand, Blank, SeeModrm, HeadSize, HasSib;
    HeadSeen(c, p);
  }

  /** Operand `op` in slot `of` lies where it should, with `before` immediate bytes ahead of it. */
  ghost predicate Placed(c: Context, of: OFlags, op: Operand, dispbytes: nat, before: nat) {
    var disp := c.offset + HeadSize(c);
    && (IsMemory(of) ==>
          && op.dispbytes == dispbytes && (dispbytes > 0 ==> op.dispoffset == disp)
          && op.displacement == var v := Value(c.mem, disp, dispbytes); if dispbytes == 1 then SignExtend8(v) else v)
    && (IsDirect(of) ==>
          && op.dispbytes == dispbytes == DirectSize(c, of) && HeadSize(c) == 0
          && op.displacement == Value(c.mem, disp, if of.am.AmA? then dispbytes - 2 else dispbytes)
          && (of.am.AmA? ==> op.section == Fetch16(c.mem, disp + dispbytes - 2))
          && (of.am.AmO? ==> op.dispoffset == disp))
    && (IsImmediate(of) ==>
          && op.immoffset == disp + dispbytes + before && op.immbytes == ImmSize(c, of)
          && op.immediate == var v := Value(c.mem, op.immoffset, op.immbytes); if of.ot.OtB? && Extends(of) then SignExtend8(v) else v)
  }

  lemma PlacedWhenParsed(c: Context, of: OFlags, op: Operand, dispbytes: nat, before: nat)
    requires IsMemory(of) ==> op == MemoryOperand(c, of) && c.row.modrm && dispbytes == ContextForm(c).dispbytes
    requires IsDirect(of) ==> op == DirectOperand(c, of) && !c.row.modrm && dispbytes == DirectSize(c, of)
    requires IsImmediate(of) ==> op == ImmediateOperand(c, of, c.offset + HeadSize(c) + dispbytes + before)
    ensures Placed(c, of, op, dispbytes, before)
  {
    hide NeedsSib, AddrMode, Fetch8, Fetch16, Fetch32, SignExtend8, PlainDisp, Form16, ModrmMod, ModrmRm, ModrmReg, ModeCheckOperand;
  }

  /** All three operands in place, and all bytes accounted for. */
  ghost predicate AllPlaced(c: Context, p: Progress, op1: Operand, op2: Operand, op3: Operand) {
    var r := c.row;
    var i1, i2, i3 := ImmediateBytes(c, r.flags1), ImmediateBytes(c, r.flags2), ImmediateBytes(c, r.flags3);
    && (r.modrm ==> p.length == HeadSize(c) && p.modrm == c.mem(c.offset)) && (!r.modrm ==> p.length == 0 == HeadSize(c))
    && (HasSib(c) ==> p.sib == c.mem(c.offset + 1))
    && p.immbytes == i1 + i2 + i3
    && Placed(c, r.flags1, op1, p.dispbytes, 0)
    && Placed(c, r.flags2, op2, p.dispbytes, i1)
    && Placed(c, r.flags3, op3, p.dispbytes, i1 + i2)
  }

  lemma OperandsPlaced(c: Context, p: Progress, op1: Operand, op2: Operand, op3: Operand)
    requires WellFormed(c.row) && ParseOperands(c) == Some((p, op1, op2, op3))
    ensures AllPlaced(c, p, op1, op2, op3)
  {
    hide ParseOperand, ContextForm, ImmSize, DirectSize, MemoryOperand, DirectOperand, ImmediateOperand, NeedsSib, AddrMode, Placed;
    var r, start := c.row, Progress(0, 0, 0, 0, 0, 0);
    var p1 := ParseOperand(c, r.flags1, start).value.0;
    OperandProgress(c, r.flags1, start, p1, op1);
    var p2 := ParseOperand(c, r.flags2, p1).value.0;
    OperandProgress(c, r.flags2, p1, p2, op2);
    OperandProgress(c, r.flags3, p2, p, op3);
    PlacedWhenParsed(c, r.flags1, op1, p.dispbytes, 0);
    PlacedWhenParsed(c, r.flags2, op2, p.dispbytes, ImmediateBytes(c, r.flags1));
    PlacedWhenParsed(c, r.flags3, op3, p.dispbytes, ImmediateBytes(c, r.flags1) + ImmediateBytes(c, r.flags2));
  }

  // ----- Rows and their shape -----

  function Slot(am: Am, ot: Ot): OFlags {
    OFlags(am, ot, 0x4000, false, false, false, 0)
  }

  /** Rows such as the tables hold: add, imul with two sources, enter, a far call, a move from a plain offset. */
  lemma SampleRowsAreWellFormed()
    ensures WellFormed(Row(4, false, true, Slot(AmE, OtB), Slot(AmG, OtB), FLAGS_NONE, true))
    ensures WellFormed(Row(26, false, true, Slot(AmG, OtV), Slot(AmE, OtV), Slot(AmI, OtV), true))
    ensures WellFormed(Row(44, false, true, Slot(AmI, OtW), Slot(AmI, OtB), FLAGS_NONE, false))
    ensures WellFormed(Row(42, false, true, Slot(AmA, OtV), FLAGS_NONE, FLAGS_NONE, false))
    ensures WellFormed(Row(2, false, true, Slot(AmReg, OtB), Slot(AmO, OtV), FLAGS_NONE, false))
  {
  }

  /** The order of operands matters: an immediate parsed before the memory operand lands on its displacement. */
  lemma ImmediateFirstOverlaps(c: Context, p: Progress, op1: Operand, op2: Operand, op3: Operand)
    requires c.row.modrm && IsImmediate(c.row.flags1) && IsMemory(c.row.flags2) && c.row.flags3 == FLAGS_NONE
    requires ParseOperands(c) == Some((p, op1, op2, op3)) && ContextForm(c).dispbytes > 0
    ensures op1.immoffset == op2.dispoffset == c.offset + HeadSize(c)
  {
    hide ParseOperand, ContextForm, ImmSize, DirectSize, MemoryOperand, DirectOperand, ImmediateOperand, HasSib;
    var start := Progress(0, 0, 0, 0, 0, 0);
    var p1 := ParseOperand(c, c.row.flags1, start).value.0;
    OperandProgress(c, c.row.flags1, start, p1, op1);
    var p2 := ParseOperand(c, c.row.flags2, p1).value.0;
    OperandProgress(c, c.row.flags2, p1, p2, op2);
    ImmediateLiesAt(c, c.row.flags1, c.offset + HeadSize(c));
    DisplacementLiesAt(c, c.row.flags2);
  }

  lemma ImmediateLiesAt(c: Context, of: OFlags, at: nat)
    ensures ImmediateOperand(c, of, at).immoffset == at
  {
  }

  lemma DisplacementLiesAt(c: Context, of: OFlags)
    requires c.row.modrm && ContextForm(c).dispbytes > 0
    ensures MemoryOperand(c, of).dispoffset == c.offset + HeadSize(c)
  {
    hide NeedsSib, AddrMode, Value, SignExtend8;
  }

  // ----- Parsing is local -----

  /** The bytes from `lo` up to `hi` are the same. */
  ghost predicate Agree(a: Memory, b: Memory, lo: nat, hi: nat) {
    forall i :: lo <= i < hi ==> a(i) == b(i)
  }

  lemma AgreeWithin(a: Memory, b: Memory, lo: nat, hi: nat)
    requires Agree(a, b, lo, hi)
    ensures forall l: nat, h: nat :: lo <= l && h <= hi ==> Agree(a, b, l, h)
  {
  }

  lemma ValueIsLocal(a: Memory, b: Memory, at: nat, n: nat)
    requires n in {0, 1, 2, 4} && Agree(a, b, at, at + n)
    ensures Value(a, at, n) == Value(b, at, n)
  {
  }

  lemma FormIsLocal(c: Context, d: Context)
    requires d == c.(mem := d.mem) && Agree(c.mem, d.mem, c.offset, c.offset + HeadSize(c))
    ensures HasSib(d) == HasSib(c) && HeadSize(d) == HeadSize(c) && ContextForm(d) == ContextForm(c)
    ensures c.row.modrm ==> c.mem(c.offset) == d.mem(c.offset)
    ensures HasSib(c) ==> c.mem(c.offset + 1) == d.mem(c.offset + 1)
  {
    hide FormOf, NeedsSib, ModeCheckAddr;
    if c.row.modrm {
      assert c.mem(c.offset) == d.mem(c.offset);
      if NeedsSib(c.mem(c.offset), AddrMode(c)) {
        assert c.mem(c.offset + 1) == d.mem(c.offset + 1);
      } else {
        SibOnlyWhereNeeded(c.mem(c.offset), c.mem(c.offset + 1), d.mem(c.offset + 1), AddrMode(c));
      }
    }
  }

  lemma MemoryOperandIsLocal(c: Context, d: Context, of: OFlags)
    requires d == c.(mem := d.mem) && c.row.modrm && Agree(c.mem, d.mem, c.offset, c.offset + HeadSize(c) + ContextForm(c).dispbytes)
    ensures MemoryOperand(c, of) == MemoryOperand(d, of)
  {
    hide Value, NeedsSib, SignExtend8, Agree;
    AgreeWithin(c.mem, d.mem, c.offset, c.offset + HeadSize(c) + ContextForm(c).dispbytes);
    FormIsLocal(c, d);
    ValueIsLocal(c.mem, d.mem, c.offset + HeadSize(c), ContextForm(c).dispbytes);
  }

  lemma ImmediateOperandIsLocal(c: Context, d: Context, of: OFlags, at: nat)
    requires d == c.(mem := d.mem) && Agree(c.mem, d.mem, at, at + ImmSize(c, of))
    ensures ImmSize(c, of) == ImmSize(d, of) && ImmediateOperand(c, of, at) == ImmediateOperand(d, of, at)
  {
    hide Value, SignExtend8;
    ValueIsLocal(c.mem, d.mem, at, ImmSize(c, of));
  }

  lemma Fetch16IsLocal(a: Memory, b: Memory, at: nat)
    requires Agree(a, b, at, at + 2)
    ensures Fetch16(a, at) == Fetch16(b, at)
  {
  }

  lemma DirectOperandIsLocal(c: Context, d: Context, of: OFlags)
    requires d == c.(mem := d.mem) && IsDirect(of) && Agree(c.mem, d.mem, c.offset, c.offset + DirectSize(c, of))
    ensures DirectSize(c, of) == DirectSize(d, of) && DirectOperand(c, of) == DirectOperand(d, of)
  {
    hide Value, Fetch16, Agree, ModeCheckOperand;
    var n := DirectSize(c, of);
    AgreeWithin(c.mem, d.mem, c.offset, c.offset + n);
    if of.am.AmA? {
      ValueIsLocal(c.mem, d.mem, c.offset, n - 2);
      Fetch16IsLocal(c.mem, d.mem, c.offset + n - 2);
    } else {
      ValueIsLocal(c.mem, d.mem, c.offset, n);
    }
  }

  lemma UsedMemoryIsLocal(c: Context, d: Context, of: OFlags, p: Progress, q: Progress, op: Operand)
    requires d == c.(mem := d.mem) && ParseUsed(c, of, p) == Some((q, op)) && IsMemory(of) && c.row.modrm
    requires Agree(c.mem, d.mem, c.offset, c.offset + HeadSize(c) + q.dispbytes)
    ensures ParseUsed(d, of, p) == Some((q, op))
  {
    hide ContextForm, ImmSize, DirectSize, MemoryOperand, DirectOperand, ImmediateOperand, Blank, HeadSize, HasSib, Agree;
    AgreeWithin(c.mem, d.mem, c.offset, c.offset + HeadSize(c) + q.dispbytes);
    FormIsLocal(c, d);
    MemoryOperandIsLocal(c, d, of);
  }

  lemma UsedImmediateIsLocal(c: Context, d: Context, of: OFlags, p: Progress, q: Progress, op: Operand)
    requires d == c.(mem := d.mem) && ParseUsed(c, of, p) == Some((q, op)) && IsImmediate(of)
    requires Agree(c.mem, d.mem, c.offset, c.offset + HeadSize(c) + q.dispbytes + q.immbytes)
    ensures ParseUsed(d, of, p) == Some((q, op))
  {
    hide ContextForm, ImmSize, DirectSize, MemoryOperand, DirectOperand, ImmediateOperand, Blank, HeadSize, HasSib, Agree;
    AgreeWithin(c.mem, d.mem, c.offset, c.offset + HeadSize(c) + q.dispbytes + q.immbytes);
    FormIsLocal(c, d);
    ImmediateOperandIsLocal(c, d, of, c.offset + HeadSize(c) + p.immbytes + p.dispbytes);
  }

  lemma UsedDirectIsLocal(c: Context, d: Context, of: OFlags, p: Progress, q: Progress, op: Operand)
    requires d == c.(mem := d.mem) && ParseUsed(c, of, p) == Some((q, op)) && IsDirect(of)
    requires Agree(c.mem, d.mem, c.offset, c.offset + q.dispbytes)
    ensures ParseUsed(d, of, p) == Some((q, op))
  {
    hide ContextForm, ImmSize, DirectSize, MemoryOperand, DirectOperand, ImmediateOperand, Blank, HeadSize, HasSib, Agree;
    DirectOperandIsLocal(c, d, of);
  }

  lemma UsedPlainIsLocal(c: Context, d: Context, of: OFlags, p: Progress, q: Progress, op: Operand)
    requires d == c.(mem := d.mem) && ParseUsed(c, of, p) == Some((q, op))
    requires !IsMemory(of) && !IsImmediate(of) && !IsDirect(of)
    requires c.row.modrm ==> c.mem(c.offset) == d.mem(c.offset)
    ensures ParseUsed(d, of, p) == Some((q, op))
  {
    hide ContextForm, ImmSize, DirectSize, MemoryOperand, DirectOperand, ImmediateOperand, Blank, HeadSize, HasSib, Agree;
  }

  /** An operand is read from the bytes that the instruction has by then, and no others. */
  lemma OperandIsLocal(c: Context, d: Context, of: OFlags, p: Progress, q: Progress, op: Operand)
    requires d == c.(mem := d.mem) && ParseOperand(c, of, p) == Some((q, op))
    requires IsMemory(of) || IsModrmRegister(of) ==> c.row.modrm
    requires Agree(c.mem, d.mem, c.offset, c.offset + HeadSize(c) + q.dispbytes + q.immbytes)
    ensures ParseOperand(d, of, p) == Some((q, op))
  {
    hide ParseUsed, ContextForm, HeadSize, HasSib, Agree;
    AgreeWithin(c.mem, d.mem, c.offset, c.offset + HeadSize(c) + q.dispbytes + q.immbytes);
    FormIsLocal(c, d);
    assert SeeModrm(d, p) == SeeModrm(c, p);
    var seen := SeeModrm(c, p);
    if of != FLAGS_NONE {
      if IsMemory(of) {
        UsedMemoryIsLocal(c, d, of, seen, q, op);
      } else if IsImmediate(of) {
        UsedImmediateIsLocal(c, d, of, seen, q, op);
      } else if IsDirect(of) {
        UsedDirectIsLocal(c, d, of, seen, q, op);
      } else {
        UsedPlainIsLocal(c, d, of, seen, q, op);
      }
    }
  }

  /** All operands are read from the bytes behind the opcode that the instruction ends up with. */
  lemma OperandsAreLocal(c: Context, d: Context)
    requires WellFormed(c.row) && d == c.(mem := d.mem) && ParseOperands(c).Some?
    requires var p := ParseOperands(c).value.0; Agree(c.mem, d.mem, c.offset, c.offset + HeadSize(c) + p.dispbytes + p.immbytes)
    ensures ParseOperands(d) == ParseOperands(c)
  {
    hide ParseOperand, ContextForm, ImmSize, DirectSize, HeadSize, HasSib, Agree;
    var r, start := c.row, Progress(0, 0, 0, 0, 0, 0);
    var (p, op1, op2, op3) := ParseOperands(c).value;
    var p1 := ParseOperand(c, r.flags1, start).value.0;
    OperandProgress(c, r.flags1, start, p1, op1);
    var p2 := ParseOperand(c, r.flags2, p1).value.0;
    OperandProgress(c, r.flags2, p1, p2, op2);
    OperandProgress(c, r.flags3, p2, p, op3);
    AgreeWithin(c.mem, d.mem, c.offset, c.offset + HeadSize(c) + p.dispbytes + p.immbytes);
    OperandIsLocal(c, d, r.flags1, start, p1, op1);
    OperandIsLocal(c, d, r.flags2, p1, p2, op2);
    OperandIsLocal(c, d, r.flags3, p2, p, op3);
  }

  // ----- Address forms lose nothing -----

  lemma FieldsMakeByte(a: byte, b: byte)
    requires ModrmMod(a) == ModrmMod(b) && ModrmReg(a) == ModrmReg(b) && ModrmRm(a) == ModrmRm(b)
    ensures a == b
  {
  }

  lemma FieldRanges(b: byte)
    ensures ModrmMod(b) <= 3 && ModrmReg(b) <= 7 && ModrmRm(b) <= 7
  {
  }

  lemma ScalesAreDistinct(a: byte, b: byte)
    requires ScaleOf(a) == ScaleOf(b)
    ensures ModrmMod(a) == ModrmMod(b)
  {
  }

  lemma ShortFormsAreDistinct(a: byte, b: byte)
    requires ModrmMod(a) != 3 && ModrmMod(b) != 3 && FormOf(a, 0, Mode16) == FormOf(b, 0, Mode16)
    ensures ModrmMod(a) == ModrmMod(b) && ModrmRm(a) == ModrmRm(b)
  {
    hide ModrmMod, ModrmRm;
    FieldRanges(a);
    FieldRanges(b);
  }

  lemma LongFormsAreDistinct(a: byte, sa: byte, b: byte, sb: byte)
    requires ModrmMod(a) != 3 && ModrmMod(b) != 3 && FormOf(a, sa, Mode32) == FormOf(b, sb, Mode32)
    ensures ModrmMod(a) == ModrmMod(b) && ModrmRm(a) == ModrmRm(b)
    ensures NeedsSib(a, Mode32) ==> sa == sb
  {
    hide ModrmMod, ModrmRm, ModrmReg, ScaleOf;
    FieldRanges(a);
    FieldRanges(b);
    FieldRanges(sa);
    FieldRanges(sb);
    if NeedsSib(a, Mode32) {
      ScalesAreDistinct(sa, sb);
      FieldsMakeByte(sa, sb);
    }
  }

  /** Different ways to name memory decode to different forms: the form gives back mod, r/m and the whole SIB byte. */
  lemma MemoryFormsAreDistinct(a: byte, sa: byte, b: byte, sb: byte, m: Mode)
    requires ModrmMod(a) != 3 && ModrmMod(b) != 3 && FormOf(a, sa, m) == FormOf(b, sb, m)
    ensures ModrmMod(a) == ModrmMod(b) && ModrmRm(a) == ModrmRm(b)
    ensures NeedsSib(a, m) ==> sa == sb
  {
    hide ModrmMod, ModrmRm, PlainDisp, Form16;
    if m == Mode16 {
      ShortFormsAreDistinct(a, b);
    } else {
      LongFormsAreDistinct(a, sa, b, sb);
    }
  }
}
