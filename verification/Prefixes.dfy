/**
 The first pass of the x86 decoder: it runs over the prefix bytes and the byte that ends them
 and packs what it saw into one word of flags (Intel SDM volume 2A, section 2.1.1).
 */
module Prefixes {

  type byte = bv8

  /** Code bytes, by their distance from the start of the instruction. */
  type Memory = nat -> byte

  // Fields of the flags word.
  const PREFIX_OPERAND_SIZE_OVERRIDE: bv32 := 0x0000_0100
  const PREFIX_ADDR_SIZE_OVERRIDE: bv32 := 0x0000_1000
  const EXT_T2: bv32 := 0x20
  const EXT_CP: bv32 := 0x30
  const EXT_G7: bv32 := 0x0f
  const EXT_GC: bv32 := 0x14
  const EXT_GD: bv32 := 0x15
  const EXT_GE: bv32 := 0x16

  function MaskExt(flags: bv32): bv32 { flags & 0x0000_00ff }
  function MaskPrefixOperand(flags: bv32): bv32 { (flags & 0x0000_0f00) >> 8 }
  function MaskPrefixAddr(flags: bv32): bv32 { (flags & 0x0000_f000) >> 12 }
  function MaskPrefixG1(flags: bv32): bv32 { (flags & 0xff00_0000) >> 24 }
  function MaskPrefixG2(flags: bv32): bv32 { (flags & 0x00ff_0000) >> 16 }

  // ----- What a byte means to the scan -----

  /** Number of a lock or repeat prefix within its group, or 0. */
  function Group1(b: byte): (r: bv32)
    ensures r <= 3
  {
    if b == 0xf0 then 1 else if b == 0xf2 then 2 else if b == 0xf3 then 3 else 0
  }

  /** Number of a segment override within its group, or 0. */
  function Group2(b: byte): (r: bv32)
    ensures r <= 6
  {
    if b == 0x26 then 1 else if b == 0x2e then 2 else if b == 0x36 then 3
    else if b == 0x3e then 4 else if b == 0x64 then 5 else if b == 0x65 then 6 else 0
  }

  /** The four prefix groups; 0 is no prefix. */
  function Group(b: byte): nat {
    if Group1(b) != 0 then 1 else if Group2(b) != 0 then 2 else if b == 0x66 then 3 else if b == 0x67 then 4 else 0
  }

  predicate IsPrefix(b: byte) {
    Group(b) != 0
  }

  /** The extension number that the byte after the prefixes selects, or 0. */
  function ExtensionOf(b: byte): (r: bv32)
    ensures r <= 0x30
  {
    if b == 0x0f then EXT_T2
    else if 0xd8 <= b <= 0xdf then EXT_CP
    else if b == 0x80 || b == 0x82 then 0x01
    else if b == 0x81 then 0x02
    else if b == 0x83 then 0x03
    else if b == 0xc0 then 0x04
    else if b == 0xc1 then 0x05
    else if b == 0xd0 then 0x06
    else if b == 0xd1 then 0x07
    else if b == 0xd2 then 0x08
    else if b == 0xd3 then 0x09
    else if b == 0xf6 then 0x0a
    else if b == 0xf7 then 0x0b
    else if b == 0xfe then 0x0c
    else if b == 0xff then 0x0d
    else 0
  }

  /** Escapes are skipped like prefixes; other opcodes are not. */
  predicate IsEscape(b: byte) {
    b == 0x0f || 0xd8 <= b <= 0xdf
  }

  /** The extension number that the second byte of a two-byte opcode selects instead, or 0. */
  function ExtensionOf2(b: byte): (r: bv32)
    ensures r <= 0x17
  {
    if b == 0x00 then 0x0e
    else if b == 0x01 then EXT_G7
    else if b == 0x71 then EXT_GC
    else if b == 0x72 then EXT_GD
    else if b == 0x73 then EXT_GE
    else if b == 0xae then 0x17
    else if b == 0xba then 0x10
    else if b == 0xc7 then 0x11
    else 0
  }

  // ----- What the scan remembers -----

  /** The prefixes that count, each as the number that the flags hold, and the extension number. */
  datatype Summary = Summary(g1: bv32, g2: bv32, operandSize: bv32, addressSize: bv32, ext: bv32)

  /** The last prefix of group 1 among the first `n` bytes. */
  function LastGroup1(mem: Memory, n: nat): (r: bv32)
    ensures r <= 3
    decreases n
  {
    if n == 0 then 0 else if Group1(mem(n - 1)) != 0 then Group1(mem(n - 1)) else LastGroup1(mem, n - 1)
  }

  /** The last prefix of group 2 among the first `n` bytes. */
  function LastGroup2(mem: Memory, n: nat): (r: bv32)
    ensures r <= 6
    decreases n
  {
    if n == 0 then 0 else if Group2(mem(n - 1)) != 0 then Group2(mem(n - 1)) else LastGroup2(mem, n - 1)
  }

  ghost predicate Contains(mem: Memory, n: nat, b: byte) {
    exists j :: 0 <= j < n && mem(j) == b
  }

  /** The prefixes end at byte `n`. */
  ghost predicate EndsAt(mem: Memory, n: nat) {
    (forall j :: 0 <= j < n ==> IsPrefix(mem(j))) && !IsPrefix(mem(n))
  }

  ghost function SummaryOf(mem: Memory, n: nat): Summary {
    Summary(LastGroup1(mem, n), LastGroup2(mem, n),
            if Contains(mem, n, 0x66) then 1 else 0, if Contains(mem, n, 0x67) then 1 else 0, 0)
  }

  /** The whole scan, when the prefixes end at byte `n`. */
  ghost function ScanOf(mem: Memory, n: nat): Summary {
    SummaryOf(mem, n).(ext := ExtensionOf(mem(n)))
  }

  predicate InRange(s: Summary) {
    s.g1 <= 3 && s.g2 <= 6 && s.operandSize <= 1 && s.addressSize <= 1 && s.ext <= 0xff
  }

  /** The flags word of the original. */
  function Pack(s: Summary): bv32 {
    (s.g1 << 24) | (s.g2 << 16) | (s.addressSize << 12) | (s.operandSize << 8) | s.ext
  }

  /** The word loses nothing: each field can be read back. */
  lemma PackReadsBack(s: Summary)
    requires InRange(s)
    ensures MaskPrefixG1(Pack(s)) == s.g1 && MaskPrefixG2(Pack(s)) == s.g2 && MaskExt(Pack(s)) == s.ext
    ensures MaskPrefixOperand(Pack(s)) == s.operandSize && MaskPrefixAddr(Pack(s)) == s.addressSize
  {
  }

  // Clearing a field and setting it anew, as the original does on the word.
  lemma PackGroup1(s: Summary, g: bv32)
    requires InRange(s) && g <= 3
    ensures (Pack(s) & 0x00ff_ffff) | (g << 24) == Pack(s.(g1 := g))
  {
  }

  lemma PackGroup2(s: Summary, g: bv32)
    requires InRange(s) && g <= 6
    ensures (Pack(s) & 0xff00_ffff) | (g << 16) == Pack(s.(g2 := g))
  {
  }

  lemma PackOperandSize(s: Summary)
    requires InRange(s)
    ensures Pack(s) | PREFIX_OPERAND_SIZE_OVERRIDE == Pack(s.(operandSize := 1))
  {
  }

  lemma PackAddressSize(s: Summary)
    requires InRange(s)
    ensures Pack(s) | PREFIX_ADDR_SIZE_OVERRIDE == Pack(s.(addressSize := 1))
  {
  }

  lemma PackExtension(s: Summary, ext: bv32)
    requires InRange(s) && s.ext == 0 && ext <= 0xff
    ensures Pack(s) | ext == Pack(s.(ext := ext))
  {
  }

  lemma PackExtension2(s: Summary, ext: bv32)
    requires InRange(s) && ext <= 0xff
    ensures (Pack(s) & 0xffff_ff00) | ext == Pack(s.(ext := ext))
  {
  }

  lemma SummaryInRange(mem: Memory, n: nat)
    ensures InRange(SummaryOf(mem, n))
  {
    hide Contains, LastGroup1, LastGroup2;
  }

  lemma ContainsOneMore(mem: Memory, n: nat, b: byte)
    ensures Contains(mem, n + 1, b) <==> Contains(mem, n, b) || mem(n) == b
  {
    if mem(n) == b {
      assert 0 <= n < n + 1;
    }
  }

  /** What the next prefix changes. */
  lemma PrefixSummarised(mem: Memory, at: nat)
    requires IsPrefix(mem(at))
    ensures var s, t, b := SummaryOf(mem, at), SummaryOf(mem, at + 1), mem(at);
      && (Group1(b) != 0 ==> t == s.(g1 := Group1(b)))
      && (Group2(b) != 0 ==> t == s.(g2 := Group2(b)))
      && (b == 0x66 ==> t == s.(operandSize := 1))
      && (b == 0x67 ==> t == s.(addressSize := 1))
  {
    hide Contains;
    ContainsOneMore(mem, at, 0x66);
    ContainsOneMore(mem, at, 0x67);
  }

  // ----- The scan -----

  /** The flag of a lock or repeat prefix. */
  function RepeatFlag(b: byte): bv32 {
    if b == 0xf0 then 0x0100_0000 else if b == 0xf2 then 0x0200_0000 else if b == 0xf3 then 0x0300_0000 else 0
  }

  /** The flag of a segment override. */
  function SegmentFlag(b: byte): bv32 {
    if b == 0x26 then 0x0001_0000 else if b == 0x2e then 0x0002_0000 else if b == 0x36 then 0x0003_0000
    else if b == 0x3e then 0x0004_0000 else if b == 0x64 then 0x0005_0000 else if b == 0x65 then 0x0006_0000 else 0
  }

  lemma FlagsAreNumbers(b: byte)
    ensures RepeatFlag(b) == Group1(b) << 24 && SegmentFlag(b) == Group2(b) << 16
  {
  }

  /** The flags after prefix `b`: a group keeps its last prefix, the size overrides stay. */
  function AddPrefix(flags: bv32, b: byte): bv32 {
    if RepeatFlag(b) != 0 then (flags & 0x00ff_ffff) | RepeatFlag(b)
    else if SegmentFlag(b) != 0 then (flags & 0xff00_ffff) | SegmentFlag(b)
    else if b == 0x66 then flags | PREFIX_OPERAND_SIZE_OVERRIDE
    else if b == 0x67 then flags | PREFIX_ADDR_SIZE_OVERRIDE
    else flags
  }

  lemma AddPrefixSummarises(mem: Memory, at: nat)
    requires IsPrefix(mem(at))
    ensures AddPrefix(Pack(SummaryOf(mem, at)), mem(at)) == Pack(SummaryOf(mem, at + 1))
  {
    hide Pack, SummaryOf, RepeatFlag, SegmentFlag;
    var s, b := SummaryOf(mem, at), mem(at);
    SummaryInRange(mem, at);
    PrefixSummarised(mem, at);
    FlagsAreNumbers(b);
    GroupsAreApart(b);
    PackGroup1(s, Group1(b));
    PackGroup2(s, Group2(b));
    PackOperandSize(s);
    PackAddressSize(s);
  }

  lemma GroupsAreApart(b: byte)
    ensures RepeatFlag(b) != 0 <==> Group1(b) != 0
    ensures SegmentFlag(b) != 0 <==> Group2(b) != 0
    ensures IsPrefix(b) <==> RepeatFlag(b) != 0 || SegmentFlag(b) != 0 || b == 0x66 || b == 0x67
  {
  }

  /**
   Parses the prefixes and the byte that ends them. The flags depend only on the last prefix of
   group 1, the last of group 2, the presence of 0x66 and 0x67 and the ending byte; the index
   moves past the prefixes and an escape. The end of the prefixes is a ghost bound on the recursion.
   */
  method GetRealInstruction(mem: Memory, at: nat, index: nat, flags: bv32, ghost end: nat) returns (i: nat, f: bv32)
    requires EndsAt(mem, end) && at == index <= end && flags == Pack(SummaryOf(mem, at))
    ensures i == end + (if IsEscape(mem(end)) then 1 else 0)
    ensures f == Pack(ScanOf(mem, end))
    decreases end - at
  {
    hide Pack, SummaryOf, AddPrefix, RepeatFlag, SegmentFlag, ExtensionOf;
    var b := mem(at);
    GroupsAreApart(b);
    if RepeatFlag(b) != 0 || SegmentFlag(b) != 0 || b == 0x66 || b == 0x67 {
      AddPrefixSummarises(mem, at);
      i, f := GetRealInstruction(mem, at + 1, index + 1, AddPrefix(flags, b), end);
    } else {
      SummaryInRange(mem, at);
      ExtensionSummarised(mem, at);
      i, f := if IsEscape(b) then index + 1 else index, flags | ExtensionOf(b);
    }
  }

  lemma ExtensionSummarised(mem: Memory, end: nat)
    ensures Pack(SummaryOf(mem, end)) | ExtensionOf(mem(end)) == Pack(ScanOf(mem, end))
  {
    hide Pack, ExtensionOf, LastGroup1, LastGroup2, Contains;
    SummaryInRange(mem, end);
    PackExtension(SummaryOf(mem, end), ExtensionOf(mem(end)));
  }

  /** The second byte of a two-byte opcode may replace the extension. */
  method GetRealInstruction2(b: byte, flags: bv32, ghost s: Summary) returns (f: bv32)
    requires InRange(s) && flags == Pack(s)
    ensures f == Pack(if ExtensionOf2(b) != 0 then s.(ext := ExtensionOf2(b)) else s)
  {
    hide Pack, ExtensionOf2;
    f := flags;
    if ExtensionOf2(b) != 0 {
      PackExtension2(s, ExtensionOf2(b));
      f := (flags & 0xffff_ff00) | ExtensionOf2(b);
    }
  }

  // ----- Order of prefixes -----

  /** `b` is `a` with bytes `j` and `j + 1` exchanged. */
  ghost predicate Swapped(a: Memory, b: Memory, j: nat) {
    && b(j) == a(j + 1) && b(j + 1) == a(j)
    && forall i: nat :: i != j && i != j + 1 ==> b(i) == a(i)
  }

  lemma {:induction false} SwapKeepsGroups(a: Memory, b: Memory, j: nat, n: nat)
    requires Swapped(a, b, j) && Group(a(j)) != Group(a(j + 1)) && (n <= j || j + 2 <= n)
    ensures LastGroup1(a, n) == LastGroup1(b, n) && LastGroup2(a, n) == LastGroup2(b, n)
    decreases n
  {
    if n > 0 {
      if n == j + 2 {
        SwapKeepsGroups(a, b, j, j);
        assert LastGroup1(a, j + 2) == LastGroup1(b, j + 2);
      } else {
        SwapKeepsGroups(a, b, j, n - 1);
      }
    }
  }

  lemma SwapKeepsPresence(a: Memory, b: Memory, j: nat, n: nat, x: byte)
    requires Swapped(a, b, j) && j + 2 <= n
    ensures Contains(a, n, x) <==> Contains(b, n, x)
  {
    if Contains(a, n, x) {
      var i :| 0 <= i < n && a(i) == x;
      assert b(if i == j then j + 1 else if i == j + 1 then j else i) == x;
    }
    if Contains(b, n, x) {
      var i :| 0 <= i < n && b(i) == x;
      assert a(if i == j then j + 1 else if i == j + 1 then j else i) == x;
    }
  }

  /** Exchanging neighbouring prefixes of different groups changes nothing that the scan remembers. */
  lemma OrderOfGroupsIsFree(a: Memory, b: Memory, j: nat, end: nat)
    requires EndsAt(a, end) && j + 1 < end && Swapped(a, b, j) && Group(a(j)) != Group(a(j + 1))
    ensures EndsAt(b, end) && ScanOf(a, end) == ScanOf(b, end)
  {
    SwapKeepsGroups(a, b, j, end);
    SwapKeepsPresence(a, b, j, end, 0x66);
    SwapKeepsPresence(a, b, j, end, 0x67);
  }

  /** The scan reads no further than the byte that ends the prefixes. */
  lemma {:induction false} ScanReadsPrefixes(a: Memory, b: Memory, n: nat)
    requires forall i :: 0 <= i < n ==> a(i) == b(i)
    ensures SummaryOf(a, n) == SummaryOf(b, n)
    decreases n
  {
    if n > 0 {
      ScanReadsPrefixes(a, b, n - 1);
      ContainsOneMore(a, n - 1, 0x66);
      ContainsOneMore(a, n - 1, 0x67);
      ContainsOneMore(b, n - 1, 0x66);
      ContainsOneMore(b, n - 1, 0x67);
    }
  }
}
