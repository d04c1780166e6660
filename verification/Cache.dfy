/** The cache object: address splitting, multi-line accesses, flushing and hit/miss counters. */
module Cache {
  import opened Bits
  import opened CacheModel
  import opened CacheSets

  const TWO_64: nat := 0x1_0000_0000_0000_0000

  datatype AccessType = Load | Store

  /** Hit and miss counter of one access type. */
  datatype Counters = Counters(hits: nat, misses: nat) {
    function Add(hit: bool): Counters {
      if hit then Counters(hits + 1, misses) else Counters(hits, misses + 1)
    }
  }

  /** Start of the next line, as the access loop computes it on 64-bit addresses. */
  function NextAddr(addr: nat, lineSize: nat): nat
    requires 0 < lineSize <= TWO_64
  {
    (BitAnd(addr, TWO_64 - 1 - (lineSize - 1)) + lineSize) % TWO_64
  }

  lemma PowerFits(p: nat)
    requires p <= 64
    ensures Pow2(p) <= TWO_64
  {
    Pow2Values();
    Pow2Monotone(p, 64);
  }

  /** The inverted low mask is a band of 64 - p ones above p zeros. */
  lemma HighMask(p: nat)
    requires p <= 64
    ensures Pow2(p) <= TWO_64 && Shl(Pow2(64 - p), p) == TWO_64
    ensures Shl(Pow2(64 - p) - 1, p) == TWO_64 - Pow2(p)
  {
    Pow2Values();
    PowerFits(p);
    Pow2Shl(64 - p, p);
    ShlSucc(Pow2(64 - p) - 1, p);
  }

  /** It rounds an address down to its line. */
  lemma AlignDown(addr: nat, p: nat)
    requires addr < TWO_64 && p <= 64 && Pow2(p) <= TWO_64
    ensures BitAnd(addr, TWO_64 - Pow2(p)) == Shl(Shr(addr, p), p)
  {
    hide BitAnd, Shl, Shr, Low, Pow2;
    HighMask(p);
    AndBand(addr, 64 - p, p);
    InSpace(addr, p);
    LowOfSmall(Shr(addr, p), 64 - p);
  }

  lemma InSpace(addr: nat, p: nat)
    requires addr < TWO_64 && p <= 64
    ensures Shr(addr, p) < Pow2(64 - p)
  {
    Pow2Values();
    ShrBound(addr, p, 64 - p);
  }

  lemma NextFromAligned(line: nat, p: nat)
    requires p <= 64 && line < Pow2(64 - p)
    ensures Shl(line + 1, p) == Shl(line, p) + Pow2(p) <= TWO_64
  {
    HighMask(p);
    ShlSucc(line, p);
    ShlMonotone(Pow2(64 - p), line + 1, p);
  }

  lemma NextAddrWhenAligned(addr: nat, d: nat, aligned: nat)
    requires 0 < d && aligned + d <= TWO_64 && BitAnd(addr, TWO_64 - d) == aligned
    ensures NextAddr(addr, d) == if aligned + d == TWO_64 then 0 else aligned + d
  {
    assert TWO_64 - 1 - (d - 1) == TWO_64 - d;
  }

  lemma AlignedFits(addr: nat, p: nat)
    requires addr < TWO_64 && p <= 64
    ensures Shl(Shr(addr, p), p) + Pow2(p) <= TWO_64
  {
    InSpace(addr, p);
    NextFromAligned(Shr(addr, p), p);
  }

  /** The loop adds a line size to the aligned address; past the top line that wraps to 0. */
  lemma NextAddrFromLine(addr: nat, p: nat)
    requires addr < TWO_64 && p <= 64 && Pow2(p) <= TWO_64
    ensures var next := Shl(Shr(addr, p), p) + Pow2(p);
            next <= TWO_64 && NextAddr(addr, Pow2(p)) == if next == TWO_64 then 0 else next
  {
    AlignDown(addr, p);
    AlignedFits(addr, p);
    NextAddrWhenAligned(addr, Pow2(p), Shl(Shr(addr, p), p));
  }

  lemma PowerIsItsLog(n: nat, p: nat)
    requires 0 < n < TWO_32 && IsPower2(n) && Pow2(p) <= n < Pow2(p + 1)
    ensures n == Pow2(p)
  {
    var k := PowerOf(n);
    if k < p {
      Pow2Monotone(k + 1, p);
    } else if k > p {
      Pow2Monotone(p + 1, k);
    }
  }

  /** Masking with a power of two less one picks the home set. */
  lemma MaskIsHome(a: nat, k: nat)
    ensures BitAnd(a, Pow2(k) - 1) == Home(a, Pow2(k))
  {
    AndLowMask(a, k);
    ShrIsDiv(a, k);
    HomeIsRemainder(a, Pow2(k));
  }

  /** The number of sets that the sizes ask for. */
  function SetCount(cacheSize: nat, lineSize: nat, associativity: nat): nat {
    if associativity * lineSize == 0 then 0 else cacheSize / (associativity * lineSize)
  }

  /** What the constructor asserts of the line size and of the number of sets, and that there is a set. */
  predicate Configurable(lineSize: nat, associativity: nat, numSets: nat, maxSets: nat) {
    && 0 < lineSize < TWO_32 && IsPower2(lineSize) && 0 < associativity
    && 0 < numSets < TWO_32 && IsPower2(numSets) && numSets <= maxSets
  }

  /** The set index mask as the constructor stores it, in 32 bits. */
  function SetMask(numSets: nat): nat {
    (numSets - 1) % TWO_32
  }

  /** The quotient is zero exactly below the divisor. */
  lemma ZeroQuotient(a: nat, d: nat)
    requires d > 0
    ensures a / d == 0 <==> a < d
  {
    if a < d {
      DivUnique(a, d, 0, a);
    }
  }

  /** A full 32-bit mask keeps every 32-bit line number. */
  lemma FullMask(line: nat)
    requires line < TWO_32
    ensures BitAnd(line, TWO_32 - 1) == line
  {
    Pow2Values();
    AndLowMask(line, 32);
    LowOfSmall(line, 32);
  }

  /**
   A cache has no set at all exactly when it is smaller than one line per way. The mask then
   wraps to all ones, the asserted test accepts it, and lines are sent to sets that do not exist.
   */
  lemma TooSmallCachePassesAsserts(cacheSize: nat, lineSize: nat, associativity: nat, line: nat)
    requires associativity * lineSize > 0
    ensures SetCount(cacheSize, lineSize, associativity) == 0 <==> cacheSize < associativity * lineSize
    ensures cacheSize < associativity * lineSize && line < TWO_32 ==>
      var mask := SetMask(SetCount(cacheSize, lineSize, associativity));
      IsPower2((mask + 1) % TWO_32) && BitAnd(line, mask) == line
  {
    hide BitAnd, IsPower2;
    ZeroQuotient(cacheSize, associativity * lineSize);
    if line < TWO_32 {
      IsPower2Exactly(0);
      FullMask(line);
    }
  }

  method ComputeGeometry(lineSize: nat, numSets: nat) returns (lineShift: nat, setIndexMask: nat, ghost setBits: nat)
    requires 0 < lineSize < TWO_32 && IsPower2(lineSize) && 0 < numSets < TWO_32 && IsPower2(numSets)
    ensures lineShift < 32 && lineSize == Pow2(lineShift)
    ensures setIndexMask + 1 == numSets == Pow2(setBits)
  {
    lineShift := FloorLog2(lineSize);
    PowerIsItsLog(lineSize, lineShift);
    setIndexMask := numSets - 1;
    setBits := PowerOf(numSets);
  }

  /** Below the top line the next address starts the next line. */
  lemma NextLineStarts(a: nat, p: nat)
    requires p <= 64 && Pow2(p) <= TWO_64 && a < TWO_64 - Pow2(p)
    ensures a < NextAddr(a, Pow2(p)) == Shl(Shr(a, p) + 1, p) && Shr(NextAddr(a, Pow2(p)), p) == Shr(a, p) + 1
  {
    NextAddrFromLine(a, p);
    LineStarts(a, Shr(a, p), p);
  }

  lemma LineStarts(a: nat, line: nat, p: nat)
    requires line == Shr(a, p)
    ensures Shl(line, p) <= a < Shl(line + 1, p) == Shl(line, p) + Pow2(p)
    ensures Shr(Shl(line + 1, p), p) == line + 1
  {
    ShrBlock(a, line, p);
    ShlSucc(line, p);
    ShrBlock(Shl(line + 1, p), line + 1, p);
  }

  // ----- When the access loop stops -----

  /** The loop's address after `n` turns. */
  function Iterate(addr: nat, p: nat, n: nat): nat
    requires Pow2(p) <= TWO_64
    decreases n
  {
    if n == 0 then addr else Iterate(NextAddr(addr, Pow2(p)), p, n - 1)
  }

  /** Start of the last line of the address space. */
  function TopLine(p: nat): nat
    requires Pow2(p) <= TWO_64
  {
    TWO_64 - Pow2(p)
  }

  lemma NextAddrIsAligned(addr: nat, p: nat) returns (line: nat)
    requires addr < TWO_64 && p <= 64 && Pow2(p) <= TWO_64
    ensures line < Pow2(64 - p) && NextAddr(addr, Pow2(p)) == Shl(line, p) <= TopLine(p)
    ensures Shr(addr, p) + 1 < Pow2(64 - p) ==> line == Shr(addr, p) + 1
  {
    NextAddrFromLine(addr, p);
    InSpace(addr, p);
    HighMask(p);
    ShlSucc(Shr(addr, p), p);
    ShlMonotone(Shr(addr, p) + 1, Pow2(64 - p), p);
    line := if Shr(addr, p) + 1 < Pow2(64 - p) then Shr(addr, p) + 1 else 0;
    ShlZero(0, p);
    ShlSucc(line, p);
    ShlMonotone(Pow2(64 - p), line + 1, p);
  }

  /** After its first turn the loop never gets beyond the start of the top line. */
  lemma {:induction false} IterateBound(addr: nat, p: nat, n: nat)
    requires addr < TWO_64 && p <= 64 && Pow2(p) <= TWO_64 && n > 0
    ensures Iterate(addr, p, n) <= TopLine(p)
    decreases n
  {
    var line := NextAddrIsAligned(addr, p);
    if n > 1 {
      IterateBound(NextAddr(addr, Pow2(p)), p, n - 1);
    } else {
      assert Iterate(addr, p, 1) == Iterate(NextAddr(addr, Pow2(p)), p, 0);
    }
  }

  lemma {:induction false} ReachTopFrom(a: nat, line: nat, p: nat) returns (n: nat)
    requires p <= 64 && Pow2(p) <= TWO_64 && line < Pow2(64 - p) && a == Shl(line, p) < TWO_64
    ensures Iterate(a, p, n) == TopLine(p)
    decreases Pow2(64 - p) - line
  {
    if line + 1 == Pow2(64 - p) {
      HighMask(p);
      n := 0;
    } else {
      ShrBlock(a, line, p);
      var next := NextAddrIsAligned(a, p);
      n := ReachTopFrom(NextAddr(a, Pow2(p)), next, p);
      n := n + 1;
    }
  }

  /** The do-while loop of an access stops exactly when its bound is not inside the top line. */
  lemma AccessLoopStopsIff(addr: nat, highAddr: nat, p: nat)
    requires addr < TWO_64 && p <= 64 && Pow2(p) <= TWO_64
    ensures (exists n: nat :: n > 0 && !(Iterate(addr, p, n) < highAddr)) <==> highAddr <= TopLine(p)
  {
    if n: nat :| n > 0 && !(Iterate(addr, p, n) < highAddr) {
      IterateBound(addr, p, n);
    }
    if highAddr <= TopLine(p) {
      var line := NextAddrIsAligned(addr, p);
      var n := ReachTopFrom(NextAddr(addr, Pow2(p)), line, p);
      assert Iterate(addr, p, n + 1) == TopLine(p);
    }
  }

  // ----- The lines that it looks up -----

  /** The end of an access as the loop tests it, in 64 bits. */
  function HighAddr(addr: nat, size: nat): nat {
    (addr + size) % TWO_64
  }

  /** The first line whatever the size, and then the lines from the next address up to the end. */
  function AccessLines(addr: nat, size: nat, p: nat): seq<nat>
    requires Pow2(p) <= TWO_64
  {
    var next, high := NextAddr(addr, Pow2(p)), HighAddr(addr, size);
    [Shr(addr, p)] + (if next < high then Consecutive(Shr(next, p), LineCount(next, high - next, p)) else [])
  }

  /** Nothing between an address and the next line start lies in another line. */
  lemma SameLine(a: nat, b: nat, p: nat)
    requires a <= b < Shl(Shr(a, p) + 1, p)
    ensures Shr(b, p) == Shr(a, p)
  {
    ShrMonotone(a, b, p);
    LineStarts(b, Shr(b, p), p);
    if Shr(b, p) > Shr(a, p) {
      ShlMonotone(Shr(b, p), Shr(a, p) + 1, p);
    }
  }

  /** Below the top line these are the lines of the access, once each and in ascending order. */
  lemma PlainLines(addr: nat, size: nat, p: nat)
    requires p <= 64 && Pow2(p) <= TWO_64 && addr + (if size == 0 then 1 else size) <= TWO_64 - Pow2(p)
    ensures AccessLines(addr, size, p) == Consecutive(Shr(addr, p), LineCount(addr, size, p))
  {
    hide Shr, Shl, Pow2, NextAddr;
    assert HighAddr(addr, size) == addr + size;
    NextLineStarts(addr, p);
    if NextAddr(addr, Pow2(p)) >= addr + size > addr {
      SameLine(addr, addr + size - 1, p);
    }
  }

  /** Some byte of the access lies in the line, with addresses wrapping around. */
  ghost predicate MeetsWrapped(addr: nat, size: nat, p: nat, line: nat) {
    exists a: nat :: addr <= a < addr + size && Shr(a % TWO_64, p) == line
  }

  /** The access looks up exactly the lines that hold a byte of it. */
  ghost predicate Complete(addr: nat, size: nat, p: nat)
    requires Pow2(p) <= TWO_64
  {
    forall line :: line in AccessLines(addr, size, p) <==> MeetsWrapped(addr, size, p, line)
  }

  lemma PlainIsComplete(addr: nat, size: nat, p: nat)
    requires p <= 64 && Pow2(p) <= TWO_64 && size > 0 && addr + size <= TWO_64 - Pow2(p)
    ensures Complete(addr, size, p)
  {
    hide Shr, AccessLines, LineCount, Consecutive;
    PlainLines(addr, size, p);
    forall line: nat
      ensures line in AccessLines(addr, size, p) <==> MeetsWrapped(addr, size, p, line)
    {
      ConsecutiveHolds(Shr(addr, p), LineCount(addr, size, p), line);
      LinesMeetAccess(addr, size, p, line);
      UnwrappedMeets(addr, size, p, line);
    }
  }

  lemma UnwrappedMeets(addr: nat, size: nat, p: nat, line: nat)
    requires addr + size <= TWO_64
    ensures MeetsWrapped(addr, size, p, line) <==> Meets(addr, size, p, line)
  {
    hide Shr;
    if a: nat :| addr <= a < addr + size && Shr(a % TWO_64, p) == line {
      assert Shr(a, p) == line;
    }
    if a: nat :| addr <= a < addr + size && Shr(a, p) == line {
      assert Shr(a % TWO_64, p) == line;
    }
  }

  /** From the top line the access goes on at address 0. */
  lemma WrappedIsComplete(addr: nat, size: nat, p: nat)
    requires p <= 64 && Pow2(p) <= TWO_64 && addr < TWO_64 <= addr + size < 2 * TWO_64 && Shr(addr, p) + 1 == Pow2(64 - p)
    ensures Complete(addr, size, p)
  {
    hide Shr, Shl, Pow2, LineCount, Consecutive, NextAddr, AccessLines;
    var high := addr + size - TWO_64;
    WrappedLines(addr, size, p);
    forall line: nat
      ensures line in AccessLines(addr, size, p) <==> MeetsWrapped(addr, size, p, line)
    {
      WrappedMeets(addr, size, p, line);
      if high > 0 {
        ConsecutiveHolds(0, LineCount(0, high, p), line);
        LinesMeetAccess(0, high, p, line);
        ShrZero(p);
      }
    }
  }

  lemma ShrZero(p: nat)
    ensures Shr(0, p) == 0
  {
    ShlZero(0, p);
    ShrBlock(0, 0, p);
  }

  lemma WrappedLines(addr: nat, size: nat, p: nat)
    requires p <= 64 && Pow2(p) <= TWO_64 && addr < TWO_64 <= addr + size < 2 * TWO_64 && Shr(addr, p) + 1 == Pow2(64 - p)
    ensures var high := addr + size - TWO_64;
      AccessLines(addr, size, p) == [Shr(addr, p)] + (if high > 0 then Consecutive(0, LineCount(0, high, p)) else [])
  {
    hide Shr, Shl, Pow2, LineCount, Consecutive, NextAddr;
    assert HighAddr(addr, size) == addr + size - TWO_64;
    HighMask(p);
    ShlSucc(Shr(addr, p), p);
    NextAddrFromLine(addr, p);
    ShrZero(p);
  }

  lemma WrappedMeets(addr: nat, size: nat, p: nat, line: nat)
    requires p <= 64 && Pow2(p) <= TWO_64 && addr < TWO_64 <= addr + size < 2 * TWO_64 && Shr(addr, p) + 1 == Pow2(64 - p)
    ensures MeetsWrapped(addr, size, p, line) <==> line == Shr(addr, p) || Meets(0, addr + size - TWO_64, p, line)
  {
    hide Shr, Shl, Pow2;
    if a: nat :| addr <= a < addr + size && Shr(a % TWO_64, p) == line {
      if a < TWO_64 {
        HighMask(p);
        SameLine(addr, a, p);
      } else {
        assert Shr(a - TWO_64, p) == line;
      }
    }
    if line == Shr(addr, p) {
      assert Shr(addr % TWO_64, p) == line;
    }
    if Meets(0, addr + size - TWO_64, p, line) {
      MeetsBeyond(addr, size, p, line);
    }
  }

  lemma MeetsBeyond(addr: nat, size: nat, p: nat, line: nat)
    requires addr < TWO_64 <= addr + size < 2 * TWO_64 && Meets(0, addr + size - TWO_64, p, line)
    ensures MeetsWrapped(addr, size, p, line)
  {
    hide Shr;
    var a: nat :| 0 <= a < addr + size - TWO_64 && Shr(a, p) == line;
    assert Shr((a + TWO_64) % TWO_64, p) == line;
  }

  /** The last byte of the address space lies in the top line. */
  lemma LastByte(p: nat)
    requires p <= 64 && Pow2(p) <= TWO_64
    ensures Shr(TWO_64 - 1, p) + 1 == Pow2(64 - p)
  {
    hide Shr, Shl, Pow2;
    HighMask(p);
    ShrBlock(TWO_64 - 1, Pow2(64 - p) - 1, p);
    PowerIsPositive(p);
  }

  lemma PowerIsPositive(p: nat)
    ensures Pow2(p) > 0
  {
  }

  /** From a lower line an access that wraps looks up its first line and no other. */
  lemma WrappedIsIncomplete(addr: nat, size: nat, p: nat)
    requires p <= 64 && Pow2(p) <= TWO_64 && addr < TWO_64 <= addr + size && size < TWO_64 && Shr(addr, p) + 1 != Pow2(64 - p)
    ensures AccessLines(addr, size, p) == [Shr(addr, p)] && !Complete(addr, size, p)
  {
    hide Shr, Shl, Pow2, LineCount, Consecutive, NextAddr;
    NextIsBeyond(addr, p);
    assert HighAddr(addr, size) == addr + size - TWO_64 < addr;
    LastByte(p);
    var last := Shr(TWO_64 - 1, p);
    assert MeetsWrapped(addr, size, p, last) by {
      assert Shr((TWO_64 - 1) % TWO_64, p) == last;
    }
    assert last !in AccessLines(addr, size, p);
  }

  lemma NextIsBeyond(addr: nat, p: nat)
    requires p <= 64 && Pow2(p) <= TWO_64 && addr < TWO_64 && Shr(addr, p) + 1 != Pow2(64 - p)
    ensures addr < NextAddr(addr, Pow2(p))
  {
    hide Shr, Shl, Pow2, NextAddr;
    InSpace(addr, p);
    HighMask(p);
    LineStarts(addr, Shr(addr, p), p);
    ShlMonotone(Pow2(64 - p) - 1, Shr(addr, p) + 1, p);
    NextAddrFromLine(addr, p);
    PowerIsPositive(p);
  }

  /**
   Whenever the loop ends, it has looked up exactly the lines that hold a byte of the access
   unless the access wraps around the address space from a line below the top one.
   */
  lemma CompleteIff(addr: nat, size: nat, p: nat)
    requires p <= 64 && Pow2(p) <= TWO_64 && addr < TWO_64 && 0 < size < TWO_64 && HighAddr(addr, size) <= TopLine(p)
    ensures Complete(addr, size, p) <==> addr + size < TWO_64 || Shr(addr, p) + 1 == Pow2(64 - p)
  {
    hide Shr, Pow2, Complete;
    if addr + size < TWO_64 {
      PlainIsComplete(addr, size, p);
    } else if Shr(addr, p) + 1 == Pow2(64 - p) {
      WrappedIsComplete(addr, size, p);
    } else {
      WrappedIsIncomplete(addr, size, p);
    }
  }

  lemma AccessStartsAt(addr: nat, size: nat, p: nat)
    requires Pow2(p) <= TWO_64
    ensures AccessLines(addr, size, p) != [] && AccessLines(addr, size, p)[0] == Shr(addr, p)
  {
  }

  class Cache {
    const cacheSize: nat
    const lineSize: nat
    const associativity: nat
    const storeAllocate: bool
    const lineShift: nat
    const setIndexMask: nat
    ghost const setBits: nat
    const sets: seq<RoundRobin>
    var loads: Counters
    var stores: Counters
    var numberOfFlushes: nat
    var numberOfResets: nat

    function NumSets(): nat {
      setIndexMask + 1
    }

    /** The set objects and their tag arrays, each with the index of its set. */
    ghost const slot: map<object, nat>
    ghost const Repr: set<object> := slot.Keys

    /** The abstract state: the queue of each set in use. */
    ghost var contents: Queues

    /** The lookups and flushes since construction. */
    ghost var ops: seq<Op>

    ghost predicate SetsValid()
      reads this`contents, Repr
    {
      && NumSets() <= |sets| && associativity > 0 && this !in Repr
      && |contents| == NumSets() && Usable(contents)
      && (forall i :: 0 <= i < |sets| ==> sets[i] in slot && sets[i].tags in slot && sets[i].Valid())
      && (forall i :: 0 <= i < |sets| ==> slot[sets[i]] == i && slot[sets[i].tags] == i)
      && (forall i :: 0 <= i < NumSets() ==> sets[i].GetAssociativity() == associativity && contents[i] == sets[i].queue)
    }

    /** Line size and number of sets are powers of two, known to the shift and the mask. */
    ghost predicate GeometryValid() {
      lineShift < 32 && lineSize == Pow2(lineShift) <= TWO_64 && NumSets() == Pow2(setBits)
    }

    /** The sets hold what the whole history makes them hold. */
    ghost predicate Valid()
      reads this, Repr
    {
      SetsValid() && GeometryValid() && contents == Run(NumSets(), associativity, ops)
    }

    /** Whatever was accessed, each nonzero line sits once, and in its home set. */
    lemma NoLineTwice()
      requires Valid()
      ensures Clean(contents)
    {
      ReachableIsClean(NumSets(), associativity, ops);
    }

    /** The queue of a set holds the last lines that the history allocated to it. */
    lemma SetHoldsLastAllocated(s: nat)
      requires Valid() && s < NumSets()
      ensures sets[s].queue == LastOf(Zeros(associativity) + Allocated(NumSets(), associativity, ops, s), associativity)
    {
      QueueHoldsLastAllocated(NumSets(), associativity, ops, s);
    }

    function Of(accessType: AccessType): Counters
      reads this
    {
      match accessType
      case Load => loads
      case Store => stores
    }

    /** Loads and stores together. */
    function Hits(): nat
      reads this
    {
      loads.hits + stores.hits
    }

    function Misses(): nat
      reads this
    {
      loads.misses + stores.misses
    }

    method Count(accessType: AccessType, hit: bool)
      modifies this`loads, this`stores
      ensures Of(accessType) == old(Of(accessType)).Add(hit)
      ensures forall t :: t != accessType ==> Of(t) == old(Of(t))
      ensures accessType.Load? ==> stores == old(stores)
      ensures accessType.Store? ==> loads == old(loads)
      ensures Hits() == old(Hits()) + (if hit then 1 else 0) && Misses() == old(Misses()) + (if hit then 0 else 1)
      ensures Hits() + Misses() == old(Hits() + Misses()) + 1
    {
      match accessType
      case Load => loads := loads.Add(hit);
      case Store => stores := stores.Add(hit);
    }

    constructor (cacheSize: nat, lineSize: nat, associativity: nat, maxSets: nat, maxAssociativity: nat, storeAllocate: bool)
      requires Configurable(lineSize, associativity, SetCount(cacheSize, lineSize, associativity), maxSets)
      requires associativity <= maxAssociativity
      ensures Valid() && fresh(Repr)
      ensures this.lineSize == lineSize && this.associativity == associativity && this.storeAllocate == storeAllocate
      ensures NumSets() == SetCount(cacheSize, lineSize, associativity) && |sets| == maxSets
      ensures contents == Cold(NumSets(), associativity) && ops == []
      ensures Hits() + Misses() == 0 && numberOfFlushes == 0 && numberOfResets == 0
    {
      var numSets := SetCount(cacheSize, lineSize, associativity);
      ghost var bits;
      var shift, mask;
      shift, mask, bits := ComputeGeometry(lineSize, numSets);
      PowerFits(shift);
      var all, repr := BuildSets(maxSets, maxAssociativity, numSets, associativity);
      this.cacheSize := cacheSize;
      this.lineSize := lineSize;
      this.associativity := associativity;
      this.storeAllocate := storeAllocate;
      lineShift := shift;
      setIndexMask := mask;
      setBits := bits;
      sets := all;
      slot := repr;
      contents := Cold(numSets, associativity);
      ops := [];
      loads, stores := Counters(0, 0), Counters(0, 0);
      numberOfFlushes := 0;
      numberOfResets := 0;
    }

    /** All sets are built with the maximal associativity; those in use are then narrowed. */
    static method BuildSets(maxSets: nat, maxAssociativity: nat, numSets: nat, associativity: nat)
      returns (all: seq<RoundRobin>, ghost repr: map<object, nat>)
      requires 0 < associativity <= maxAssociativity && numSets <= maxSets
      ensures |all| == maxSets && fresh(repr.Keys)
      ensures forall i :: 0 <= i < maxSets ==> all[i] in repr && all[i].tags in repr && all[i].Valid()
      ensures forall i :: 0 <= i < maxSets ==> repr[all[i]] == i && repr[all[i].tags] == i
      ensures forall i :: 0 <= i < numSets ==>
        all[i].GetAssociativity() == associativity && all[i].queue == Zeros(associativity)
    {
      all, repr := [], map[];
      while |all| < maxSets
        invariant |all| <= maxSets && fresh(repr.Keys)
        invariant forall i :: 0 <= i < |all| ==> all[i] in repr && all[i].tags in repr && all[i].Valid()
        invariant forall i :: 0 <= i < |all| ==> repr[all[i]] == i && repr[all[i].tags] == i
        invariant forall i :: 0 <= i < |all| && i < numSets ==>
          all[i].GetAssociativity() == associativity && all[i].queue == Zeros(associativity)
      {
        var s := new RoundRobin(maxAssociativity, maxAssociativity);
        if |all| < numSets {
          s.SetAssociativity(associativity);
          assert s.queue == Zeros(associativity);
        }
        all, repr := all + [s], repr[s := |all|][s.tags := |all|];
      }
    }

    /** The line of an address. */
    function LineOf(addr: nat): nat {
      Shr(addr, lineShift)
    }

    /** Line, set and offset are the quotient and remainders that the sizes suggest. */
    lemma SplitIsDivision(addr: nat)
      requires GeometryValid()
      ensures LineOf(addr) == addr / lineSize
      ensures Home(LineOf(addr), NumSets()) == LineOf(addr) % NumSets() == BitAnd(LineOf(addr), setIndexMask)
      ensures BitAnd(addr, lineSize - 1) == addr % lineSize
    {
      AndLowMask(addr, lineShift);
      ShrIsDiv(addr, lineShift);
      MaskIsHome(LineOf(addr), setBits);
      HomeIsRemainder(LineOf(addr), NumSets());
    }

    /** Line number and set number. */
    method SplitAddress(addr: nat) returns (tag: nat, setIndex: nat)
      requires GeometryValid()
      ensures tag == LineOf(addr) && setIndex == Home(tag, NumSets())
    {
      tag := Shr(addr, lineShift);
      setIndex := BitAnd(tag, setIndexMask);
      MaskIsHome(tag, setBits);
    }

    /** Line number, set number and offset within the line. */
    method SplitAddressInLine(addr: nat) returns (tag: nat, setIndex: nat, lineIndex: nat)
      requires GeometryValid()
      ensures tag == LineOf(addr) && setIndex == Home(tag, NumSets()) && lineIndex == addr % lineSize
    {
      lineIndex := BitAnd(addr, lineSize - 1);
      tag, setIndex := SplitAddress(addr);
      AndLowMask(addr, lineShift);
      ShrIsDiv(addr, lineShift);
    }

    function Allocates(accessType: AccessType): bool {
      accessType == Load || storeAllocate
    }

    method ReplaceIn(setIndex: nat, tag: nat)
      requires SetsValid() && setIndex < NumSets()
      modifies this`contents, sets[setIndex], sets[setIndex].tags
      ensures SetsValid()
      ensures contents == old(contents)[setIndex := old(contents)[setIndex][1..] + [tag]]
    {
      sets[setIndex].Replace(tag);
      contents := contents[setIndex := contents[setIndex][1..] + [tag]];
    }

    /** One line: find it in its set, and on a miss allocate if the access type does. */
    method TouchLine(addr: nat, accessType: AccessType) returns (hit: bool)
      requires SetsValid() && GeometryValid()
      modifies this`contents, Repr
      ensures SetsValid()
      ensures hit <==> Resident(old(contents), LineOf(addr))
      ensures contents == Lookup(old(contents), LineOf(addr), Allocates(accessType))
    {
      var tag, setIndex := SplitAddress(addr);
      hit := sets[setIndex].Find(tag);
      if !hit && Allocates(accessType) {
        ReplaceIn(setIndex, tag);
      }
    }

    /** One turn of the access loop: looks up the line of `a` after those done, and moves on. */
    method TouchAndStep(a: nat, accessType: AccessType, soFar: bool, ghost qs: Queues, ghost done: seq<nat>)
      returns (allHit: bool, next: nat)
      requires SetsValid() && GeometryValid() && Usable(qs)
      requires contents == LookupAll(qs, done, Allocates(accessType)) && soFar == AllHit(qs, done, Allocates(accessType))
      modifies this`contents, Repr
      ensures SetsValid()
      ensures contents == LookupAll(qs, done + [LineOf(a)], Allocates(accessType))
      ensures allHit == AllHit(qs, done + [LineOf(a)], Allocates(accessType))
      ensures next == NextAddr(a, lineSize)
    {
      OneMoreLine(qs, done, LineOf(a), Allocates(accessType));
      var localHit := TouchLine(a, accessType);
      allHit := soFar && localHit;
      next := NextAddr(a, lineSize);
    }

    /** Where the loop is after `n` lines from the second address on: below the end exactly while lines are left. */
    ghost predicate LeftAt(a: nat, second: nat, n: nat, high: nat)
      requires lineShift <= 64
    {
      && LineOf(a) == LineOf(second) + n
      && if second < high then
           var count := LineCount(second, high - second, lineShift);
           if a < high then n < count else n == count
         else a == second && n == 0
    }

    lemma LeftAfterTurn(a: nat, second: nat, n: nat, high: nat)
      requires GeometryValid() && high <= TWO_64 - lineSize
      requires a < high && LeftAt(a, second, n, high)
      ensures a < NextAddr(a, lineSize) && LeftAt(NextAddr(a, lineSize), second, n + 1, high)
    {
      hide Shr, Shl, Pow2, LineCount, NextAddr;
      NextLineStarts(a, lineShift);
      if second < high {
        if NextAddr(a, lineSize) < high {
          LinesLeft(second, high - second, lineShift, n + 1);
        } else {
          LinesDone(second, high - second, lineShift, n + 1);
        }
      }
    }

    /** The loop over the lines of an access. */
    method TouchLines(addr: nat, size: nat, accessType: AccessType) returns (allHit: bool)
      requires SetsValid() && GeometryValid()
      requires addr < TWO_64 && HighAddr(addr, size) <= TWO_64 - lineSize
      modifies this`contents, Repr
      ensures SetsValid()
      ensures contents == LookupAll(old(contents), AccessLines(addr, size, lineShift), Allocates(accessType))
      ensures allHit == AllHit(old(contents), AccessLines(addr, size, lineShift), Allocates(accessType))
    {
      hide LookupAll, AllHit, Shr, Shl, Pow2, LineCount, NextAddr;
      var highAddr := (addr + size) % TWO_64;
      ghost var qs, n: nat := contents, 0;
      NothingLookedUp(qs, Allocates(accessType));
      // The first line is looked up whatever the size; the loop then tests the next address.
      var a: nat;
      allHit, a := TouchAndStep(addr, accessType, true, qs, []);
      ghost var second := a;
      ghost var done := [LineOf(addr)];
      assert [] + done == done && done + Consecutive(LineOf(second), 0) == done;
      while a < highAddr
        invariant SetsValid() && LeftAt(a, second, n, highAddr)
        invariant contents == LookupAll(qs, done + Consecutive(LineOf(second), n), Allocates(accessType))
        invariant allHit == AllHit(qs, done + Consecutive(LineOf(second), n), Allocates(accessType))
        decreases highAddr - a
      {
        LeftAfterTurn(a, second, n, highAddr);
        ConsecutiveSnoc(done, LineOf(second), n);
        allHit, a := TouchAndStep(a, accessType, allHit, qs, done + Consecutive(LineOf(second), n));
        n := n + 1;
      }
      assert n == 0 ==> done + Consecutive(LineOf(second), n) == done + [];
    }

    lemma NothingLookedUp(qs: Queues, allocate: bool)
      requires Usable(qs)
      ensures LookupAll(qs, [], allocate) == qs && AllHit(qs, [], allocate)
    {
    }

    /** The loop, with the whole history: each line hits iff it was, at its turn, recently allocated. */
    method TouchAll(addr: nat, size: nat, accessType: AccessType) returns (allHit: bool)
      requires Valid() && addr < TWO_64 && HighAddr(addr, size) <= TWO_64 - lineSize
      modifies this`contents, this`ops, Repr
      ensures Valid()
      ensures ops == old(ops) + Touches(AccessLines(addr, size, lineShift), Allocates(accessType))
      ensures allHit <==> AllRecent(NumSets(), associativity, old(ops), AccessLines(addr, size, lineShift), Allocates(accessType))
      ensures contents == LookupAll(old(contents), AccessLines(addr, size, lineShift), Allocates(accessType))
      ensures allHit == AllHit(old(contents), AccessLines(addr, size, lineShift), Allocates(accessType))
    {
      hide LookupAll, AllHit, AllRecent, AccessLines, Run, Shr, Pow2, Touches;
      allHit := TouchLines(addr, size, accessType);
      ghost var lines, allocate := AccessLines(addr, size, lineShift), Allocates(accessType);
      RunOfTouches(NumSets(), associativity, ops, lines, allocate);
      AllHitIffAllRecent(NumSets(), associativity, ops, lines, allocate);
      ops := ops + Touches(lines, allocate);
    }

    /**
     Access from addr to addr + size - 1, whenever the loop ends. It looks up the lines given by
     `AccessLines` in order, and returns whether every lookup hit at its turn: whether each line
     was, at its turn, among the last lines allocated to its set in the whole history. Below the
     top line these are the lines that meet the range, once each and ascending. A load always
     allocates, a store only if the cache is built so.
     */
    method Access(addr: nat, size: nat, accessType: AccessType) returns (allHit: bool)
      requires Valid()
      requires addr < TWO_64 && size < TWO_32 && HighAddr(addr, size) <= TWO_64 - lineSize
      modifies this`loads, this`stores, this`contents, this`ops, Repr
      ensures Valid()
      ensures ops == old(ops) + Touches(AccessLines(addr, size, lineShift), Allocates(accessType))
      ensures allHit <==> AllRecent(NumSets(), associativity, old(ops), AccessLines(addr, size, lineShift), Allocates(accessType))
      ensures contents == LookupAll(old(contents), AccessLines(addr, size, lineShift), Allocates(accessType))
      ensures allHit == AllHit(old(contents), AccessLines(addr, size, lineShift), Allocates(accessType))
      ensures addr + (if size == 0 then 1 else size) <= TWO_64 - lineSize ==>
        AccessLines(addr, size, lineShift) == Consecutive(LineOf(addr), LineCount(addr, size, lineShift))
      ensures AccessLines(addr, size, lineShift) != [] && AccessLines(addr, size, lineShift)[0] == LineOf(addr)
      ensures accessType.Load? || storeAllocate ==> Resident(contents, Last(AccessLines(addr, size, lineShift)))
      ensures accessType.Store? && !storeAllocate ==> contents == old(contents)
      ensures Of(accessType) == old(Of(accessType)).Add(allHit) && forall t :: t != accessType ==> Of(t) == old(Of(t))
      ensures accessType.Load? ==> stores == old(stores)
      ensures accessType.Store? ==> loads == old(loads)
      ensures Hits() == old(Hits()) + (if allHit then 1 else 0) && Misses() == old(Misses()) + (if allHit then 0 else 1)
      ensures Hits() + Misses() == old(Hits() + Misses()) + 1
    {
      hide LookupAll, AllHit, AllRecent, AccessLines, Run, LineCount, Consecutive, Shr, Pow2, Resident, Touches, HighAddr;
      ghost var qs, lines := contents, AccessLines(addr, size, lineShift);
      AccessStartsAt(addr, size, lineShift);
      LastLineAllocated(qs, lines);
      NothingAllocated(qs, lines);
      if addr + (if size == 0 then 1 else size) <= TWO_64 - lineSize {
        PlainLines(addr, size, lineShift);
      }
      allHit := TouchAll(addr, size, accessType);
      Count(accessType, allHit);
    }

    /** Access at addr that does not span lines. */
    method AccessSingleLine(addr: nat, accessType: AccessType) returns (hit: bool)
      requires Valid()
      modifies this`loads, this`stores, this`contents, this`ops, Repr
      ensures Valid()
      ensures ops == old(ops) + [Touch(LineOf(addr), Allocates(accessType))]
      ensures hit <==> Recent(NumSets(), associativity, old(ops), LineOf(addr))
      ensures hit <==> Resident(old(contents), LineOf(addr))
      ensures contents == Lookup(old(contents), LineOf(addr), Allocates(accessType))
      ensures accessType.Load? || storeAllocate ==> Resident(contents, LineOf(addr))
      ensures accessType.Store? && !storeAllocate ==> contents == old(contents)
      ensures Of(accessType) == old(Of(accessType)).Add(hit) && forall t :: t != accessType ==> Of(t) == old(Of(t))
      ensures accessType.Load? ==> stores == old(stores)
      ensures accessType.Store? ==> loads == old(loads)
      ensures Hits() == old(Hits()) + (if hit then 1 else 0) && Misses() == old(Misses()) + (if hit then 0 else 1)
      ensures Hits() + Misses() == old(Hits() + Misses()) + 1
    {
      hit := TouchLine(addr, accessType);
      LookupAllocates(old(contents), LineOf(addr));
      HitIffRecentlyAllocated(NumSets(), associativity, ops, LineOf(addr));
      RunSnoc(NumSets(), associativity, ops, Touch(LineOf(addr), Allocates(accessType)));
      ops := ops + [Touch(LineOf(addr), Allocates(accessType))];
      Count(accessType, hit);
    }

    method FlushSet(index: nat)
      requires SetsValid() && index <= NumSets() && index < |sets|
      modifies this`contents, sets[index], sets[index].tags
      ensures SetsValid()
      ensures contents == if index < NumSets() then old(contents)[index := Zeros(associativity)] else old(contents)
    {
      sets[index].Flush();
      if index < NumSets() {
        contents := contents[index := Zeros(associativity)];
      }
    }

    /** Empties every set; the loop also flushes the set just past the last one in use. */
    method Flush()
      requires Valid() && NumSets() < |sets|
      modifies this`numberOfFlushes, this`contents, this`ops, Repr
      ensures Valid() && contents == Cold(NumSets(), associativity) && ops == old(ops) + [FlushAll]
      ensures numberOfFlushes == old(numberOfFlushes) + 1
    {
      hide Run, Zeros;
      var index: int := NumSets();
      while index >= 0
        invariant -1 <= index <= NumSets()
        invariant SetsValid()
        invariant forall i :: index < i < NumSets() ==> contents[i] == Zeros(associativity)
        modifies this`contents, Repr
      {
        FlushSet(index);
        index := index - 1;
      }
      RunFlush(NumSets(), associativity, ops);
      ops := ops + [FlushAll];
      numberOfFlushes := numberOfFlushes + 1;
    }

    method ResetStats()
      requires Valid()
      modifies this`loads, this`stores, this`numberOfResets
      ensures Valid() && contents == old(contents) && ops == old(ops)
      ensures Hits() + Misses() == 0 && numberOfResets == old(numberOfResets) + 1
    {
      loads, stores := Counters(0, 0), Counters(0, 0);
      numberOfResets := numberOfResets + 1;
    }
  }
}
