/**
 Which table row an instruction selects and what its flags word says, in terms of the code bytes:
 the prefixes in front, the opcode bytes, and the byte behind them where an opcode is extended.
 */
module InstructionSelection {
  import opened Options
  import opened Prefixes
  import opened Operands
  import opened Decoder
  import opened InstructionMeaning

  // ----- Prefixes -----

  const LOCK: byte := 0xf0
  const REPNE: byte := 0xf2
  const REP: byte := 0xf3

  /** Segment overrides in the order of their numbers: ES, CS, SS, DS, FS, GS. */
  const SEGMENTS: seq<byte> := [0x26, 0x2e, 0x36, 0x3e, 0x64, 0x65]

  /** Of the bytes in `group`, `b` is the last one among the first `n`. */
  ghost predicate LastOfGroup(mem: Memory, n: nat, group: set<byte>, b: byte) {
    b in group && exists j :: 0 <= j < n && mem(j) == b && forall i :: j < i < n ==> mem(i) !in group
  }

  ghost predicate NoneOfGroup(mem: Memory, n: nat, group: set<byte>) {
    forall j :: 0 <= j < n ==> mem(j) !in group
  }

  function Repeats(): set<byte> {
    {LOCK, REPNE, REP}
  }

  function Overrides(): set<byte> {
    set b: byte | b in SEGMENTS
  }

  function AllPrefixes(): set<byte> {
    Repeats() + Overrides() + {0x66, 0x67}
  }

  lemma PrefixBytes(b: byte)
    ensures IsPrefix(b) <==> b in AllPrefixes()
  {
    assert SEGMENTS[0] == 0x26 && SEGMENTS[1] == 0x2e && SEGMENTS[2] == 0x36;
    assert SEGMENTS[3] == 0x3e && SEGMENTS[4] == 0x64 && SEGMENTS[5] == 0x65;
  }

  /** Code with some byte that is no prefix has one end of its prefixes: the first such byte. */
  lemma {:induction false} PrefixesEnd(mem: Memory, i: nat) returns (end: nat)
    requires mem(i) !in AllPrefixes()
    ensures end <= i && mem(end) !in AllPrefixes() && forall j :: 0 <= j < end ==> mem(j) in AllPrefixes()
    ensures forall n: nat :: EndsAt(mem, n) <==> n == end
  {
    hide IsPrefix, AllPrefixes;
    forall b: byte
      ensures IsPrefix(b) <==> b in AllPrefixes()
    {
      PrefixBytes(b);
    }
    end := 0;
    while mem(end) in AllPrefixes()
      invariant end <= i && forall j :: 0 <= j < end ==> mem(j) in AllPrefixes()
      decreases i - end
    {
      end := end + 1;
    }
  }

  lemma LastOneMore(mem: Memory, n: nat, group: set<byte>, b: byte)
    ensures LastOfGroup(mem, n + 1, group, b) <==> b in group && (mem(n) == b || (mem(n) !in group && LastOfGroup(mem, n, group, b)))
    ensures NoneOfGroup(mem, n + 1, group) <==> NoneOfGroup(mem, n, group) && mem(n) !in group
  {
    if b in group && mem(n) == b {
      assert LastOfGroup(mem, n + 1, group, b) by {
        assert 0 <= n < n + 1 && mem(n) == b;
      }
    }
    if LastOfGroup(mem, n + 1, group, b) {
      var j :| 0 <= j < n + 1 && mem(j) == b && forall i :: j < i < n + 1 ==> mem(i) !in group;
      if j < n {
        assert mem(n) !in group;
        assert forall i :: j < i < n ==> mem(i) !in group;
      }
    }
    if mem(n) !in group && LastOfGroup(mem, n, group, b) {
      var j :| 0 <= j < n && mem(j) == b && forall i :: j < i < n ==> mem(i) !in group;
      assert forall i :: j < i < n + 1 ==> mem(i) !in group;
    }
  }

  lemma Group1Numbers(b: byte)
    ensures Group1(b) == (if b == LOCK then 1 else if b == REPNE then 2 else if b == REP then 3 else 0)
    ensures Group1(b) != 0 <==> b in Repeats()
  {
  }

  /** The lock or repeat prefix that counts is the last one. */
  lemma {:induction false} LastRepeat(mem: Memory, n: nat)
    ensures LastGroup1(mem, n) == 1 <==> LastOfGroup(mem, n, Repeats(), LOCK)
    ensures LastGroup1(mem, n) == 2 <==> LastOfGroup(mem, n, Repeats(), REPNE)
    ensures LastGroup1(mem, n) == 3 <==> LastOfGroup(mem, n, Repeats(), REP)
    ensures LastGroup1(mem, n) == 0 <==> NoneOfGroup(mem, n, Repeats())
    decreases n
  {
    hide Group1, Repeats, LastOfGroup, NoneOfGroup;
    if n == 0 {
      EmptyGroup(mem, Repeats(), LOCK);
      EmptyGroup(mem, Repeats(), REPNE);
      EmptyGroup(mem, Repeats(), REP);
    } else {
      LastRepeat(mem, n - 1);
      Group1Numbers(mem(n - 1));
      RepeatsAre();
      LastOneMore(mem, n - 1, Repeats(), LOCK);
      LastOneMore(mem, n - 1, Repeats(), REPNE);
      LastOneMore(mem, n - 1, Repeats(), REP);
    }
  }

  lemma RepeatsAre()
    ensures LOCK in Repeats() && REPNE in Repeats() && REP in Repeats()
  {
  }

  lemma EmptyGroup(mem: Memory, group: set<byte>, b: byte)
    ensures !LastOfGroup(mem, 0, group, b) && NoneOfGroup(mem, 0, group)
  {
  }

  lemma Group2Numbers(b: byte, k: nat)
    requires k < |SEGMENTS|
    ensures Group2(b) == (k + 1) as bv32 <==> b == SEGMENTS[k]
    ensures Group2(b) == 0 <==> b !in Overrides()
  {
    assert k == 0 || k == 1 || k == 2 || k == 3 || k == 4 || k == 5;
  }

  /** The segment override that counts is the last one. */
  lemma {:induction false} LastOverride(mem: Memory, n: nat, k: nat)
    requires k < |SEGMENTS|
    ensures LastGroup2(mem, n) == (k + 1) as bv32 <==> LastOfGroup(mem, n, Overrides(), SEGMENTS[k])
    ensures LastGroup2(mem, n) == 0 <==> NoneOfGroup(mem, n, Overrides())
    decreases n
  {
    hide Group2, Overrides, LastOfGroup, NoneOfGroup;
    OverridesAre(k);
    if n == 0 {
      EmptyGroup(mem, Overrides(), SEGMENTS[k]);
    } else {
      LastOverride(mem, n - 1, k);
      Group2Numbers(mem(n - 1), k);
      LastOneMore(mem, n - 1, Overrides(), SEGMENTS[k]);
    }
  }

  lemma OverridesAre(k: nat)
    requires k < |SEGMENTS|
    ensures SEGMENTS[k] in Overrides() && (k + 1) as bv32 != 0
  {
  }

  /** What the flags word of a decoded instruction says of its prefixes. */
  lemma FlagsMean(t: Tables, mem: Memory, mode: Mode, end: nat, k: nat)
    requires Decode(t, mem, mode, end).Some? && k < |SEGMENTS|
    ensures var flags := Decode(t, mem, mode, end).value.flags;
      && (MaskPrefixG1(flags) == 1 <==> LastOfGroup(mem, end, Repeats(), LOCK))
      && (MaskPrefixG1(flags) == 2 <==> LastOfGroup(mem, end, Repeats(), REPNE))
      && (MaskPrefixG1(flags) == 3 <==> LastOfGroup(mem, end, Repeats(), REP))
      && (MaskPrefixG2(flags) == (k + 1) as bv32 <==> LastOfGroup(mem, end, Overrides(), SEGMENTS[k]))
      && (MaskPrefixG2(flags) == 0 <==> NoneOfGroup(mem, end, Overrides()))
      && MaskPrefixOperand(flags) == (if Contains(mem, end, 0x66) then 1 else 0)
      && MaskPrefixAddr(flags) == (if Contains(mem, end, 0x67) then 1 else 0)
  {
    hide SelectAt, ParseOperands, Pack, LastOfGroup, NoneOfGroup, LastGroup1, LastGroup2, Contains, SEGMENTS,
         MaskPrefixG1, MaskPrefixG2, MaskPrefixOperand, MaskPrefixAddr, InRange;
    ChoiceKeepsPrefixes(t, mem, end);
    LastRepeat(mem, end);
    LastOverride(mem, end, k);
    ChoiceInRange(t, mem, end);
    PackReadsBack(SelectAt(t, mem, end).value.prefixes);
  }

  lemma ChoiceInRange(t: Tables, mem: Memory, end: nat)
    requires SelectAt(t, mem, end).Some?
    ensures InRange(SelectAt(t, mem, end).value.prefixes)
  {
    hide Select, ExtensionOf, SummaryOf, TwoByteRow, ExtensionRow;
    ExtensionsAreSmall(mem, end);
    SummaryInRange(mem, end);
    SelectInRange(t, mem, IndexAfter(mem, end), ScanOf(mem, end));
  }

  lemma SelectInRange(t: Tables, mem: Memory, i: nat, s: Summary)
    requires InRange(s) && (s.ext == EXT_CP ==> i > 0) && Select(t, mem, i, s).Some?
    ensures InRange(Select(t, mem, i, s).value.prefixes)
  {
    hide Select;
    SelectKeepsPrefixes(t, mem, i, s);
  }

  // ----- Rows -----

  /** First opcode bytes that ModR/M extends: table k + 1 has those in entry k (immediate, shift and unary groups). */
  const FIRST_GROUPS: seq<seq<byte>> := [
    [0x80, 0x82], [0x81], [0x83],
    [0xc0], [0xc1], [0xd0], [0xd1], [0xd2], [0xd3],
    [0xf6], [0xf7], [0xfe], [0xff]]

  /** Second opcode bytes that ModR/M extends, each with the number of its table. */
  const SECOND_GROUPS: seq<(byte, bv32)> := [
    (0x00, 14), (0x01, 15), (0xba, 16), (0xc7, 17), (0x71, 20), (0x72, 21), (0x73, 22), (0xae, 23)]

  predicate IsFpu(b: byte) {
    0xd8 <= b <= 0xdf
  }

  /** The byte is in no group, and no escape either. */
  ghost predicate IsPlain(b: byte) {
    b != 0x0f && !IsFpu(b) && forall k :: 0 <= k < |FIRST_GROUPS| ==> b !in FIRST_GROUPS[k]
  }

  ghost predicate IsPlainSecond(b: byte) {
    forall k :: 0 <= k < |SECOND_GROUPS| ==> b != SECOND_GROUPS[k].0
  }

  lemma Escapes(b: byte)
    ensures b == 0x0f ==> ExtensionOf(b) == EXT_T2 && IsEscape(b)
    ensures IsFpu(b) ==> ExtensionOf(b) == EXT_CP && IsEscape(b)
    ensures b != 0x0f && !IsFpu(b) ==> !IsEscape(b)
  {
  }

  lemma FirstGroup(b: byte, k: nat)
    requires k < |FIRST_GROUPS| && b in FIRST_GROUPS[k]
    ensures ExtensionOf(b) == (k + 1) as bv32 && 0 < ExtensionOf(b) < EXT_G7 && !IsEscape(b) && b != 0x0f && !IsFpu(b)
  {
    assert k == 0 || k == 1 || k == 2 || k == 3 || k == 4 || k == 5 || k == 6 || k == 7 || k == 8 || k == 9 || k == 10 || k == 11 || k == 12;
  }

  lemma NoFirstGroup(b: byte)
    requires IsPlain(b)
    ensures ExtensionOf(b) == 0 && !IsEscape(b)
  {
    var g := FIRST_GROUPS;
    assert b !in g[0] && b !in g[1] && b !in g[2] && b !in g[3] && b !in g[4] && b !in g[5] && b !in g[6];
    assert b !in g[7] && b !in g[8] && b !in g[9] && b !in g[10] && b !in g[11] && b !in g[12];
  }

  lemma SecondGroup(b: byte, k: nat)
    requires k < |SECOND_GROUPS| && b == SECOND_GROUPS[k].0
    ensures ExtensionOf2(b) == SECOND_GROUPS[k].1 && 0 < ExtensionOf2(b) < EXT_T2
    ensures (ExtensionOf2(b) == EXT_G7 <==> b == 0x01) && (ExtensionOf2(b) == EXT_GC <==> b == 0x71)
    ensures (ExtensionOf2(b) == EXT_GD <==> b == 0x72) && (ExtensionOf2(b) == EXT_GE <==> b == 0x73)
  {
    assert k == 0 || k == 1 || k == 2 || k == 3 || k == 4 || k == 5 || k == 6 || k == 7;
  }

  lemma NoSecondGroup(b: byte)
    requires IsPlainSecond(b)
    ensures ExtensionOf2(b) == 0
  {
    var g := SECOND_GROUPS;
    assert b != g[0].0 && b != g[1].0 && b != g[2].0 && b != g[3].0 && b != g[4].0 && b != g[5].0 && b != g[6].0 && b != g[7].0;
  }

  lemma SameByte(a: byte, b: byte)
    requires a as nat == b as nat
    ensures a == b
  {
  }

  /** A one-byte opcode. */
  lemma PlainRow(t: Tables, mem: Memory, end: nat)
    requires IsPlain(mem(end))
    ensures SelectAt(t, mem, end).Some?
    ensures var b, c := mem(end), SelectAt(t, mem, end).value;
      c.row == t.one(b) && c.index == end + 1 && c.opcode == b && c.extindex == c.fpuindex == 0
  {
    hide ExtensionOf, IsEscape, SummaryOf;
    NoFirstGroup(mem(end));
  }

  /** A one-byte opcode that the middle field of the next byte extends. */
  lemma GroupRow(t: Tables, mem: Memory, end: nat, k: nat, r: byte)
    requires k < |FIRST_GROUPS| && mem(end) in FIRST_GROUPS[k] && r as nat == Middle(mem(end + 1))
    ensures SelectAt(t, mem, end).Some?
    ensures var b, c := mem(end), SelectAt(t, mem, end).value;
      c.row == t.ext((k + 1) as bv32, r) && c.index == end + 1 && c.opcode == b && c.extindex == r && c.fpuindex == 0
  {
    hide ExtensionOf, IsEscape, FIRST_GROUPS, SummaryOf, ModrmReg, ModrmMod, ModrmRm, Middle, IsFpu;
    FirstGroup(mem(end), k);
    MiddleField(mem(end + 1));
    SameByte(r, ModrmReg(mem(end + 1)));
  }

  /** An FPU escape: memory forms by the middle field of the next byte, which is ModR/M; others by the whole byte. */
  lemma FpuRow(t: Tables, mem: Memory, end: nat, r: byte)
    requires IsFpu(mem(end)) && if mem(end + 1) < 0xc0 then r as nat == Middle(mem(end + 1)) else r == mem(end + 1) - 0xb8
    ensures SelectAt(t, mem, end).Some?
    ensures var n, c := mem(end + 1), SelectAt(t, mem, end).value;
      && c.row == t.fpu(mem(end) - 0xd8, r) && c.opcode == n && c.extindex == 0 && c.fpuindex == mem(end) - 0xd8
      && c.index == (if n < 0xc0 then end + 1 else end + 2)
  {
    hide ExtensionOf, IsEscape, IsFpu, SummaryOf, ModrmReg, SelectFpu, Middle;
    Escapes(mem(end));
    if mem(end + 1) < 0xc0 {
      MiddleField(mem(end + 1));
      SameByte(r, ModrmReg(mem(end + 1)));
    }
    FpuChoice(t, mem, end + 1, ScanOf(mem, end), r);
  }

  lemma FpuChoice(t: Tables, mem: Memory, i: nat, s: Summary, r: byte)
    requires i > 0 && r == if mem(i) < 0xc0 then ModrmReg(mem(i)) else mem(i) - 0xb8
    ensures SelectFpu(t, mem, i, s) == Choice(t.fpu(mem(i - 1) - 0xd8, r), if mem(i) < 0xc0 then i else i + 1, mem(i), 0, mem(i - 1) - 0xd8, s)
  {
    hide ModrmReg;
  }

  /** The row of a two-byte opcode: where the table asks for it, the mandatory prefix selects another one. */
  ghost function SecondByteRow(t: Tables, mem: Memory, end: nat): Row {
    var n := mem(end + 1);
    if !t.two(n).threeByte then t.two(n)
    else if Contains(mem, end, 0x66) then t.three66(n)
    else if LastOfGroup(mem, end, Repeats(), REPNE) then t.threeF2(n)
    else if LastOfGroup(mem, end, Repeats(), REP) then t.threeF3(n)
    else t.two(n)
  }

  lemma TwoByteOpcodeRow(t: Tables, mem: Memory, end: nat)
    requires mem(end) == 0x0f && IsPlainSecond(mem(end + 1))
    ensures SelectAt(t, mem, end).Some?
    ensures var c := SelectAt(t, mem, end).value;
      && c.row == SecondByteRow(t, mem, end) && c.index == end + 2 && c.opcode == mem(end + 1) && c.extindex == c.fpuindex == 0
  {
    hide ExtensionOf, ExtensionOf2, IsEscape, SECOND_GROUPS, LastGroup1, LastGroup2, Contains, LastOfGroup, NoneOfGroup, Repeats;
    Escapes(mem(end));
    NoSecondGroup(mem(end + 1));
    LastRepeat(mem, end);
  }

  /** The row of an extended two-byte opcode of table `g`; 0x66 selects another table for the vector shifts. */
  ghost function SecondGroupRow(t: Tables, mem: Memory, end: nat, g: bv32, r: byte): Row {
    var n := mem(end + 1);
    if n == 0x71 && Contains(mem, end, 0x66) then t.extC66(r)
    else if n == 0x72 && Contains(mem, end, 0x66) then t.extD66(r)
    else if n == 0x73 && Contains(mem, end, 0x66) then t.extE66(r)
    else t.ext(g, r)
  }

  /** An extended two-byte opcode; register forms of 0x0f 0x01 are monitor, mwait, or nothing. */
  lemma TwoByteGroupRow(t: Tables, mem: Memory, end: nat, k: nat, r: byte)
    requires mem(end) == 0x0f && k < |SECOND_GROUPS| && mem(end + 1) == SECOND_GROUPS[k].0 && r as nat == Middle(mem(end + 2))
    ensures var n, m, s := mem(end + 1), mem(end + 2), SelectAt(t, mem, end);
      if n == 0x01 && Top(m) == 3 then
        && (s.Some? <==> Middle(m) == 1 && Low(m) <= 1)
        && (s.Some? ==> s.value.row == (if Low(m) == 0 then t.monitor else t.mwait) && s.value.index == end + 3 && s.value.opcode == n
                        && s.value.extindex as nat == 1 && s.value.fpuindex == 0)
      else
        && s.Some? && s.value.row == SecondGroupRow(t, mem, end, SECOND_GROUPS[k].1, r) && s.value.index == end + 2
        && s.value.opcode == n && s.value.extindex == r && s.value.fpuindex == 0
  {
    hide ExtensionOf, ExtensionOf2, IsEscape, SECOND_GROUPS, LastGroup1, LastGroup2, Contains, ModrmReg, ModrmMod, ModrmRm, Top, Middle, Low;
    Escapes(mem(end));
    SecondGroup(mem(end + 1), k);
    FieldValues(mem(end + 2));
    SameByte(r, ModrmReg(mem(end + 2)));
  }
}
