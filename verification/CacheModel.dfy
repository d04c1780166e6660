/**
 Reference model of the cache: one FIFO queue of line numbers per set, oldest first. The
 queues start out filled with line 0, because a cold way holds tag 0.
 */
module CacheModel {
  import opened Bits

  /** Queues of all sets; set i serves the lines congruent to i. */
  type Queues = seq<seq<nat>>

  /** The set that serves a line, by casting out whole rounds of sets. */
  function Home(line: nat, sets: nat): (h: nat)
    requires sets > 0
    ensures h < sets
    decreases line
  {
    if line < sets then line else Home(line - sets, sets)
  }

  /** It is the remainder of the line number by the number of sets. */
  lemma {:induction false} HomeIsRemainder(line: nat, sets: nat)
    requires sets > 0
    ensures Home(line, sets) == line % sets
    decreases line
  {
    if line < sets {
      DivUnique(line, sets, 0, line);
    } else {
      HomeIsRemainder(line - sets, sets);
      var q, r := (line - sets) / sets, (line - sets) % sets;
      assert sets * (q + 1) == sets * q + sets;
      DivUnique(line, sets, q + 1, r);
    }
  }

  function Zeros(n: nat): seq<nat> {
    seq(n, i => 0)
  }

  function Cold(sets: nat, ways: nat): Queues {
    seq(sets, i => Zeros(ways))
  }

  ghost predicate Shaped(qs: Queues, ways: nat) {
    |qs| > 0 && ways > 0 && forall i :: 0 <= i < |qs| ==> |qs[i]| == ways
  }

  predicate Resident(qs: Queues, line: nat)
    requires |qs| > 0
  {
    line in qs[Home(line, |qs|)]
  }

  /** At least one set, and no set without ways. */
  ghost predicate Usable(qs: Queues) {
    |qs| > 0 && forall i :: 0 <= i < |qs| ==> qs[i] != []
  }

  /** Drops the oldest line of the set and appends the new one. */
  function Allocate(qs: Queues, line: nat): Queues
    requires |qs| > 0 && qs[Home(line, |qs|)] != []
  {
    qs[Home(line, |qs|) := qs[Home(line, |qs|)][1..] + [line]]
  }

  /** One lookup: a miss allocates when `allocate` is set. */
  function Lookup(qs: Queues, line: nat, allocate: bool): (r: Queues)
    requires Usable(qs)
    ensures Usable(r) && |r| == |qs|
  {
    if Resident(qs, line) || !allocate then qs else Allocate(qs, line)
  }

  /** Lookups of lines in the order given. */
  function LookupAll(qs: Queues, lines: seq<nat>, allocate: bool): (r: Queues)
    requires Usable(qs)
    ensures Usable(r) && |r| == |qs|
    decreases |lines|
  {
    if lines == [] then qs
    else Lookup(LookupAll(qs, lines[..|lines| - 1], allocate), lines[|lines| - 1], allocate)
  }

  /** Whether each of these lookups hit when its turn came. */
  predicate AllHit(qs: Queues, lines: seq<nat>, allocate: bool)
    requires Usable(qs)
    decreases |lines|
  {
    lines == []
    || (AllHit(qs, lines[..|lines| - 1], allocate)
        && Resident(LookupAll(qs, lines[..|lines| - 1], allocate), lines[|lines| - 1]))
  }

  lemma OneMoreLine(qs: Queues, lines: seq<nat>, line: nat, allocate: bool)
    requires Usable(qs)
    ensures LookupAll(qs, lines + [line], allocate) == Lookup(LookupAll(qs, lines, allocate), line, allocate)
    ensures AllHit(qs, lines + [line], allocate)
       <==> AllHit(qs, lines, allocate) && Resident(LookupAll(qs, lines, allocate), line)
  {
    assert (lines + [line])[..|lines|] == lines;
  }

  /** A lookup that allocates leaves its line resident, hit or miss. */
  lemma LookupAllocates(qs: Queues, line: nat)
    requires Usable(qs)
    ensures Resident(Lookup(qs, line, true), line)
  {
    var h := Home(line, |qs|);
    if !Resident(qs, line) {
      assert Allocate(qs, line)[h][|qs[h]| - 1] == line;
    }
  }

  function Last(lines: seq<nat>): nat
    requires lines != []
  {
    lines[|lines| - 1]
  }

  /** Of lookups that allocate the last line is resident afterwards. */
  lemma LastLineAllocated(qs: Queues, lines: seq<nat>)
    requires Usable(qs) && lines != []
    ensures Resident(LookupAll(qs, lines, true), Last(lines))
  {
    LookupAllocates(LookupAll(qs, lines[..|lines| - 1], true), lines[|lines| - 1]);
  }

  /** Lookups that do not allocate change nothing. */
  lemma {:induction false} NothingAllocated(qs: Queues, lines: seq<nat>)
    requires Usable(qs)
    ensures LookupAll(qs, lines, false) == qs
    decreases |lines|
  {
    if lines != [] {
      NothingAllocated(qs, lines[..|lines| - 1]);
    }
  }

  lemma LookupKeepsShape(qs: Queues, ways: nat, line: nat, allocate: bool)
    requires Shaped(qs, ways) && Usable(qs)
    ensures Shaped(Lookup(qs, line, allocate), ways)
  {
  }

  // ----- Whole runs -----

  datatype Op = Touch(line: nat, allocate: bool) | FlushAll

  function Step(qs: Queues, ways: nat, op: Op): (r: Queues)
    requires Shaped(qs, ways)
    ensures Shaped(r, ways) && |r| == |qs|
  {
    match op
    case Touch(line, allocate) =>
      assert Usable(qs);
      LookupKeepsShape(qs, ways, line, allocate);
      Lookup(qs, line, allocate)
    case FlushAll => Cold(|qs|, ways)
  }

  /** The queues of a fresh cache after the operations. */
  function Run(sets: nat, ways: nat, ops: seq<Op>): (r: Queues)
    requires sets > 0 && ways > 0
    ensures Shaped(r, ways) && |r| == sets
  {
    if ops == [] then Cold(sets, ways)
    else Step(Run(sets, ways, ops[..|ops| - 1]), ways, ops[|ops| - 1])
  }

  /** The lines allocated to `set` since the last flush, oldest first. */
  function Allocated(sets: nat, ways: nat, ops: seq<Op>, set': nat): seq<nat>
    requires sets > 0 && ways > 0
  {
    if ops == [] then []
    else
      var before := ops[..|ops| - 1];
      match ops[|ops| - 1]
      case FlushAll => []
      case Touch(line, allocate) =>
        Allocated(sets, ways, before, set')
        + (if Home(line, sets) == set' && allocate && !Resident(Run(sets, ways, before), line) then [line] else [])
  }

  function LastOf(s: seq<nat>, n: nat): seq<nat>
    requires n <= |s|
  {
    s[|s| - n..]
  }

  lemma LastOfSnoc(z: seq<nat>, a: seq<nat>, line: nat)
    requires |z| > 0
    ensures LastOf(z + (a + [line]), |z|) == LastOf(z + a, |z|)[1..] + [line]
  {
    assert z + (a + [line]) == (z + a) + [line];
  }

  /** Each queue holds exactly the last `ways` lines allocated to its set, padded with line 0. */
  lemma {:induction false} QueueHoldsLastAllocated(sets: nat, ways: nat, ops: seq<Op>, s: nat)
    requires sets > 0 && ways > 0 && s < sets
    ensures Run(sets, ways, ops)[s] == LastOf(Zeros(ways) + Allocated(sets, ways, ops, s), ways)
    decreases |ops|
  {
    if ops == [] {
      assert Zeros(ways) + [] == Zeros(ways);
    } else {
      var before, op := ops[..|ops| - 1], ops[|ops| - 1];
      QueueHoldsLastAllocated(sets, ways, before, s);
      match op
      case FlushAll =>
        assert Zeros(ways) + [] == Zeros(ways);
      case Touch(line, allocate) =>
        var q, a := Run(sets, ways, before), Allocated(sets, ways, before, s);
        if Home(line, sets) == s && allocate && !Resident(q, line) {
          LastOfSnoc(Zeros(ways), a, line);
        } else {
          assert a + [] == a;
        }
    }
  }

  /** The line is among the last `ways` lines allocated to its set, the cold ways counting as line 0. */
  predicate Recent(sets: nat, ways: nat, ops: seq<Op>, line: nat)
    requires sets > 0 && ways > 0
  {
    line in LastOf(Zeros(ways) + Allocated(sets, ways, ops, Home(line, sets)), ways)
  }

  /**
   The refinement: after any run a line hits exactly when it is among the last `ways` lines
   allocated to set (line mod sets), the cold ways counting as line 0.
   */
  lemma HitIffRecentlyAllocated(sets: nat, ways: nat, ops: seq<Op>, line: nat)
    requires sets > 0 && ways > 0
    ensures Resident(Run(sets, ways, ops), line) <==> Recent(sets, ways, ops, line)
  {
    QueueHoldsLastAllocated(sets, ways, ops, Home(line, sets));
  }

  /** The single lookups of one access, in the order of its lines. */
  function Touches(lines: seq<nat>, allocate: bool): (ops: seq<Op>)
    ensures |ops| == |lines| && forall i :: 0 <= i < |lines| ==> ops[i] == Touch(lines[i], allocate)
  {
    seq(|lines|, i requires 0 <= i < |lines| => Touch(lines[i], allocate))
  }

  lemma RunSnoc(sets: nat, ways: nat, ops: seq<Op>, op: Op)
    requires sets > 0 && ways > 0
    ensures Run(sets, ways, ops + [op]) == Step(Run(sets, ways, ops), ways, op)
  {
    assert (ops + [op])[..|ops|] == ops;
  }

  lemma RunFlush(sets: nat, ways: nat, ops: seq<Op>)
    requires sets > 0 && ways > 0
    ensures Run(sets, ways, ops + [FlushAll]) == Cold(sets, ways)
  {
    RunSnoc(sets, ways, ops, FlushAll);
  }

  lemma TouchesSnoc(ops: seq<Op>, lines: seq<nat>, allocate: bool)
    requires lines != []
    ensures var before, line := lines[..|lines| - 1], lines[|lines| - 1];
      ops + Touches(lines, allocate) == ops + Touches(before, allocate) + [Touch(line, allocate)]
  {
  }

  /** An access of several lines does what its single lookups do one after another. */
  lemma {:induction false} RunOfTouches(sets: nat, ways: nat, ops: seq<Op>, lines: seq<nat>, allocate: bool)
    requires sets > 0 && ways > 0
    ensures Usable(Run(sets, ways, ops))
    ensures Run(sets, ways, ops + Touches(lines, allocate)) == LookupAll(Run(sets, ways, ops), lines, allocate)
    decreases |lines|
  {
    hide Run, Resident;
    if lines == [] {
      assert ops + Touches([], allocate) == ops;
    } else {
      var before, line := lines[..|lines| - 1], lines[|lines| - 1];
      RunOfTouches(sets, ways, ops, before, allocate);
      TouchesSnoc(ops, lines, allocate);
      RunSnoc(sets, ways, ops + Touches(before, allocate), Touch(line, allocate));
    }
  }

  /** Each line of an access was recent when its turn came, after the run and the lines before it. */
  ghost predicate AllRecent(sets: nat, ways: nat, ops: seq<Op>, lines: seq<nat>, allocate: bool)
    requires sets > 0 && ways > 0
  {
    forall i :: 0 <= i < |lines| ==> Recent(sets, ways, ops + Touches(lines[..i], allocate), lines[i])
  }

  lemma AllRecentSnoc(sets: nat, ways: nat, ops: seq<Op>, lines: seq<nat>, allocate: bool)
    requires sets > 0 && ways > 0 && lines != []
    ensures var before, line := lines[..|lines| - 1], lines[|lines| - 1];
      AllRecent(sets, ways, ops, lines, allocate)
      <==> AllRecent(sets, ways, ops, before, allocate) && Recent(sets, ways, ops + Touches(before, allocate), line)
  {
    hide Recent, Touches;
    var before := lines[..|lines| - 1];
    assert forall i :: 0 <= i < |before| ==> before[..i] == lines[..i] && before[i] == lines[i];
  }

  /**
   Every line of an access hits exactly when each is, at its turn, among the last lines
   allocated to its set by the operations before the access and the lines before it.
   */
  lemma {:induction false} AllHitIffAllRecent(sets: nat, ways: nat, ops: seq<Op>, lines: seq<nat>, allocate: bool)
    requires sets > 0 && ways > 0
    ensures Usable(Run(sets, ways, ops))
    ensures AllHit(Run(sets, ways, ops), lines, allocate) <==> AllRecent(sets, ways, ops, lines, allocate)
    decreases |lines|
  {
    hide Recent, Run, Touches, LookupAll, Resident;
    if lines != [] {
      var before, line := lines[..|lines| - 1], lines[|lines| - 1];
      AllHitIffAllRecent(sets, ways, ops, before, allocate);
      RunOfTouches(sets, ways, ops, before, allocate);
      HitIffRecentlyAllocated(sets, ways, ops + Touches(before, allocate), line);
      AllRecentSnoc(sets, ways, ops, lines, allocate);
    }
  }

  /** Nonzero lines sit in their home set, once each. */
  ghost predicate Clean(qs: Queues) {
    forall s, i :: 0 <= s < |qs| && 0 <= i < |qs[s]| && qs[s][i] != 0 ==>
      Home(qs[s][i], |qs|) == s && forall j :: 0 <= j < |qs[s]| && qs[s][j] == qs[s][i] ==> j == i
  }

  lemma LookupKeepsClean(qs: Queues, ways: nat, line: nat, allocate: bool)
    requires Shaped(qs, ways) && Usable(qs) && Clean(qs)
    ensures Clean(Lookup(qs, line, allocate))
  {
    if !Resident(qs, line) && allocate {
      var h := Home(line, |qs|);
      var r := Allocate(qs, line);
      assert r[h] == qs[h][1..] + [line];
      assert forall o :: 0 <= o < ways - 1 ==> r[h][o] == qs[h][o + 1] && qs[h][o + 1] in qs[h];
      forall s, i | 0 <= s < |r| && 0 <= i < |r[s]| && r[s][i] != 0
        ensures Home(r[s][i], |r|) == s && forall j :: 0 <= j < |r[s]| && r[s][j] == r[s][i] ==> j == i
      {
        if s == h {
          forall j | 0 <= j < |r[s]| && r[s][j] == r[s][i]
            ensures j == i
          {
            if i < ways - 1 && j < ways - 1 {
              assert qs[h][i + 1] == qs[h][j + 1];
            }
          }
        }
      }
    }
  }

  /** In every reachable state the resident nonzero lines are unique and in their home set. */
  lemma {:induction false} ReachableIsClean(sets: nat, ways: nat, ops: seq<Op>)
    requires sets > 0 && ways > 0
    ensures Clean(Run(sets, ways, ops))
    decreases |ops|
  {
    if ops != [] {
      var before := ops[..|ops| - 1];
      ReachableIsClean(sets, ways, before);
      match ops[|ops| - 1]
      case FlushAll =>
      case Touch(line, allocate) => LookupKeepsClean(Run(sets, ways, before), ways, line, allocate);
    }
  }

  /** Line 0 hits in a cold cache; every other line misses. */
  lemma ColdHitsOnlyLineZero(sets: nat, ways: nat, line: nat)
    requires sets > 0 && ways > 0
    ensures Resident(Cold(sets, ways), line) <==> line == 0
  {
    var q := Cold(sets, ways)[Home(line, sets)];
    assert q[0] == 0;
  }

  // ----- Lines of an access -----

  /** `n` lines from `first`, in ascending order. */
  function Consecutive(first: nat, n: nat): (lines: seq<nat>)
    ensures |lines| == n && forall i :: 0 <= i < n ==> lines[i] == first + i
  {
    seq(n, i requires 0 <= i => first + i)
  }

  lemma ConsecutiveHolds(first: nat, n: nat, line: nat)
    ensures line in Consecutive(first, n) <==> first <= line < first + n
  {
    if first <= line < first + n {
      assert Consecutive(first, n)[line - first] == line;
    }
  }

  lemma ConsecutiveSnoc(lines: seq<nat>, first: nat, n: nat)
    ensures lines + Consecutive(first, n + 1) == lines + Consecutive(first, n) + [first + n]
  {
  }

  /** Number of lines of 2^p bytes that an access of `size` bytes looks up; an empty access looks up one. */
  function LineCount(addr: nat, size: nat, p: nat): (n: nat)
    ensures n > 0
  {
    if size == 0 then 1
    else
      ShrMonotone(addr, addr + size - 1, p);
      Shr(addr + size - 1, p) - Shr(addr, p) + 1
  }

  /** A line between the first and the last one touched holds a byte of the access. */
  lemma ByteInLine(addr: nat, size: nat, p: nat, line: nat) returns (a: nat)
    requires size > 0 && Shr(addr, p) <= line <= Shr(addr + size - 1, p)
    ensures addr <= a < addr + size && Shr(a, p) == line
  {
    var first, last := Shr(addr, p), Shr(addr + size - 1, p);
    ShrBlock(addr, first, p);
    ShrBlock(addr + size - 1, last, p);
    if line == first {
      a := addr;
    } else {
      a := Shl(line, p);
      ShlSucc(first, p);
      ShlMonotone(line, first + 1, p);
      ShlMonotone(last, line, p);
      ShrBlock(a, line, p);
    }
  }

  /** Some byte of [addr, addr + size) lies in the line. */
  ghost predicate Meets(addr: nat, size: nat, p: nat, line: nat) {
    exists a: nat :: addr <= a < addr + size && Shr(a, p) == line
  }

  lemma MeetsWithin(addr: nat, size: nat, p: nat, line: nat)
    requires Meets(addr, size, p, line)
    ensures size > 0 && Shr(addr, p) <= line <= Shr(addr + size - 1, p)
  {
    var a: nat :| addr <= a < addr + size && Shr(a, p) == line;
    ShrMonotone(addr, a, p);
    ShrMonotone(a, addr + size - 1, p);
  }

  /** The lines looked up are exactly those that contain a byte of [addr, addr + size). */
  lemma LinesMeetAccess(addr: nat, size: nat, p: nat, line: nat)
    requires size > 0
    ensures Shr(addr, p) <= line < Shr(addr, p) + LineCount(addr, size, p) <==> Meets(addr, size, p, line)
  {
    if Meets(addr, size, p, line) {
      MeetsWithin(addr, size, p, line);
    } else if Shr(addr, p) <= line <= Shr(addr + size - 1, p) {
      var a := ByteInLine(addr, size, p, line);
    }
  }

  /** The loop goes on while the next line starts below the end of the access. */
  lemma LinesLeft(addr: nat, size: nat, p: nat, n: nat)
    requires n > 0 && Shl(Shr(addr, p) + n, p) < addr + size
    ensures n < LineCount(addr, size, p)
  {
    var first := Shr(addr, p);
    ShrBlock(addr, first, p);
    ShlSucc(first, p);
    ShlMonotone(first + n, first + 1, p);
    if size > 0 {
      var last := Shr(addr + size - 1, p);
      ShrBlock(addr + size - 1, last, p);
      ShlSucc(last, p);
      ShlMonotone(first + n, last + 1, p);
    }
  }

  lemma LinesDone(addr: nat, size: nat, p: nat, n: nat)
    requires 0 < n <= LineCount(addr, size, p)
    requires addr + size <= Shl(Shr(addr, p) + n, p)
    ensures n == LineCount(addr, size, p)
  {
    if size > 0 {
      var last := Shr(addr + size - 1, p);
      ShrBlock(addr + size - 1, last, p);
      ShlMonotone(last, Shr(addr, p) + n, p);
    }
  }
}
