/**
 Counting alarms: a countdown and an armed flag for each thread, decreased by blocks of
 instructions. Runs are interleavings of the threads' blocks, each block one atomic step.
 */
module Alarm {

  /** The thread number that means every thread. */
  const ALL_THREADS: nat := 0xFFFF

  datatype AlarmState = AlarmState(count: seq<int>, armed: seq<bool>, origCount: int, rearm: bool, alwaysArmed: bool, tid: nat)

  /** `thread` executes a basic block of `insts` instructions. */
  datatype Block = Block(thread: nat, insts: nat)

  ghost predicate WellShaped(a: AlarmState) {
    |a.count| == |a.armed| <= ALL_THREADS && (a.tid == ALL_THREADS || a.tid < |a.count|)
  }

  predicate Watches(a: AlarmState, t: nat) {
    a.tid == ALL_THREADS || a.tid == t
  }

  /** A countdown that only the executing thread's count decides. */
  predicate FiresAlone(a: AlarmState, b: Block)
    requires b.thread < |a.count| == |a.armed|
  {
    Watches(a, b.thread) && a.armed[b.thread] && (a.alwaysArmed || a.count[b.thread] - b.insts <= 0)
  }

  /** A countdown that all threads from `low` to `high` must have completed. */
  predicate FiresTogether(a: AlarmState, b: Block, low: nat, high: nat)
    requires b.thread < |a.count| == |a.armed| && high < |a.count|
  {
    && Watches(a, b.thread) && a.armed[b.thread]
    && (a.alwaysArmed || forall i :: low <= i <= high ==> (if i == b.thread then a.count[i] - b.insts else a.count[i]) <= 0)
  }

  /** Whether the alarm fires at this block; a `high` of 0 selects the first kind of countdown. */
  predicate Fires(a: AlarmState, b: Block, low: nat, high: nat)
    requires b.thread < |a.count| == |a.armed| && high < |a.count|
  {
    if high == 0 then FiresAlone(a, b) else FiresTogether(a, b, low, high)
  }

  function CountDown(a: AlarmState, b: Block): AlarmState
    requires b.thread < |a.count|
  {
    a.(count := a.count[b.thread := a.count[b.thread] - b.insts])
  }

  function Filled<T>(n: nat, x: T): seq<T> {
    seq(n, i => x)
  }

  /** The alarm after a block: a fired alarm starts over or is disarmed, for this thread or for all. */
  function Advance(a: AlarmState, b: Block, low: nat, high: nat): (r: AlarmState)
    requires b.thread < |a.count| == |a.armed| && high < |a.count|
    ensures |r.count| == |a.count| && |r.armed| == |a.armed|
  {
    if !Watches(a, b.thread) || !a.armed[b.thread] then a
    else
      var c := if a.alwaysArmed then a else CountDown(a, b);
      if !Fires(a, b, low, high) then c
      else if a.rearm then c.(count := c.count[b.thread := a.origCount])
      else if high == 0 then c.(armed := c.armed[b.thread := false])
      else c.(armed := Filled(|c.armed|, false))
  }

  /** The alarm set on `count` for thread `tid`, or for every thread. */
  function SetOn(a: AlarmState, count: int, rearm: bool, alwaysArmed: bool, tid: nat): (r: AlarmState)
    requires |a.count| == |a.armed| && (tid == ALL_THREADS || tid < |a.count|)
    ensures |r.count| == |a.count| && |r.armed| == |a.armed|
  {
    if tid == ALL_THREADS then
      AlarmState(Filled(|a.count|, count), Filled(|a.armed|, true), count, rearm, alwaysArmed, tid)
    else
      AlarmState(a.count[tid := count], a.armed[tid := true], count, rearm, alwaysArmed, tid)
  }

  // ----- Runs -----

  ghost predicate BlocksWithin(blocks: seq<Block>, threads: nat) {
    forall i :: 0 <= i < |blocks| ==> blocks[i].thread < threads
  }

  function After(a: AlarmState, blocks: seq<Block>, low: nat, high: nat): (r: AlarmState)
    requires |a.count| == |a.armed| && high < |a.count| && BlocksWithin(blocks, |a.count|)
    ensures |r.count| == |a.count| && |r.armed| == |a.armed|
    decreases |blocks|
  {
    if blocks == [] then a
    else Advance(After(a, blocks[..|blocks| - 1], low, high), blocks[|blocks| - 1], low, high)
  }

  /** Instructions that thread `t` has executed. */
  function Executed(blocks: seq<Block>, t: nat): nat
    decreases |blocks|
  {
    if blocks == [] then 0
    else
      var b := blocks[|blocks| - 1];
      Executed(blocks[..|blocks| - 1], t) + (if b.thread == t then b.insts else 0)
  }

  /** A one-shot alarm just set on `count` instructions of thread `a.tid`, or of every thread. */
  ghost predicate JustSet(a: AlarmState, count: int) {
    && WellShaped(a) && !a.rearm && !a.alwaysArmed
    && forall t :: 0 <= t < |a.count| && Watches(a, t) ==> a.armed[t] && a.count[t] == count
  }

  /** Each watched thread is armed, with what is left of its count, until it has executed the count. */
  ghost predicate EachCounting(a: AlarmState, b: AlarmState, blocks: seq<Block>, count: int) {
    && |b.count| == |b.armed| == |a.count| && b.tid == a.tid && !b.rearm && !b.alwaysArmed
    && forall t :: 0 <= t < |b.count| && Watches(a, t) ==>
      && (b.armed[t] <==> Executed(blocks, t) < count)
      && (b.armed[t] ==> b.count[t] == count - Executed(blocks, t))
  }

  lemma {:induction false} EachThreadCounts(a: AlarmState, blocks: seq<Block>, low: nat, count: int)
    requires JustSet(a, count) && count > 0 && 0 < |a.count| && BlocksWithin(blocks, |a.count|)
    ensures EachCounting(a, After(a, blocks, low, 0), blocks, count)
    decreases |blocks|
  {
    if blocks != [] {
      EachThreadCounts(a, blocks[..|blocks| - 1], low, count);
    }
  }

  /**
   Without a thread range, a one-shot alarm fires for each watched thread on its own: at the
   block with which that thread completes the count, and at no other block.
   */
  lemma EachThreadFiresOnce(a: AlarmState, blocks: seq<Block>, b: Block, low: nat, count: int)
    requires JustSet(a, count) && count > 0 && 0 < |a.count| && BlocksWithin(blocks, |a.count|) && b.thread < |a.count|
    ensures Fires(After(a, blocks, low, 0), b, low, 0) <==>
      Watches(a, b.thread) && Executed(blocks, b.thread) < count <= Executed(blocks + [b], b.thread)
  {
    assert (blocks + [b])[..|blocks|] == blocks;
    EachThreadCounts(a, blocks, low, count);
  }

  /** Every thread of the range has executed its count. */
  ghost predicate RangeDone(blocks: seq<Block>, low: nat, high: nat, count: int) {
    forall t :: low <= t <= high ==> Executed(blocks, t) >= count
  }

  /** All threads count down until the range is done, and all are disarmed from then on. */
  ghost predicate AllCounting(a: AlarmState, b: AlarmState, blocks: seq<Block>, low: nat, high: nat, count: int) {
    && |b.count| == |b.armed| == |a.count| && b.tid == a.tid && !b.rearm && !b.alwaysArmed
    && (forall t :: 0 <= t < |b.armed| ==> (b.armed[t] <==> !RangeDone(blocks, low, high, count)))
    && (!RangeDone(blocks, low, high, count) ==> forall t :: 0 <= t < |b.count| ==> b.count[t] == count - Executed(blocks, t))
  }

  lemma TogetherIsDone(a: AlarmState, c: AlarmState, blocks: seq<Block>, b: Block, low: nat, high: nat, count: int)
    requires AllCounting(a, c, blocks, low, high, count) && a.tid == ALL_THREADS
    requires low <= high < |a.count| && 0 < high && b.thread < |a.count|
    ensures Fires(c, b, low, high) <==> !RangeDone(blocks, low, high, count) && RangeDone(blocks + [b], low, high, count)
    ensures RangeDone(blocks, low, high, count) ==> RangeDone(blocks + [b], low, high, count)
  {
    assert (blocks + [b])[..|blocks|] == blocks;
    assert forall t :: low <= t <= high ==>
      Executed(blocks + [b], t) == Executed(blocks, t) + (if b.thread == t then b.insts else 0);
  }

  lemma {:induction false} ThreadsCountTogether(a: AlarmState, blocks: seq<Block>, low: nat, high: nat, count: int)
    requires JustSet(a, count) && a.tid == ALL_THREADS && count > 0 && BlocksWithin(blocks, |a.count|)
    requires low <= high < |a.count| && 0 < high
    ensures AllCounting(a, After(a, blocks, low, high), blocks, low, high, count)
    decreases |blocks|
  {
    if blocks == [] {
      assert Executed(blocks, low) == 0;
    } else {
      var before, b := blocks[..|blocks| - 1], blocks[|blocks| - 1];
      assert before + [b] == blocks;
      ThreadsCountTogether(a, before, low, high, count);
      TogetherIsDone(a, After(a, before, low, high), before, b, low, high, count);
    }
  }

  /**
   With a thread range, a one-shot alarm on every thread fires exactly at the block after which
   each thread of the range has executed the count for the first time, and a thread outside the
   range never triggers it.
   */
  lemma RangeFiresOnce(a: AlarmState, blocks: seq<Block>, b: Block, low: nat, high: nat, count: int)
    requires JustSet(a, count) && a.tid == ALL_THREADS && count > 0 && BlocksWithin(blocks, |a.count|) && b.thread < |a.count|
    requires low <= high < |a.count| && 0 < high
    ensures Fires(After(a, blocks, low, high), b, low, high) <==>
      !RangeDone(blocks, low, high, count) && RangeDone(blocks + [b], low, high, count)
    ensures RangeDone(blocks, low, high, count) ==> RangeDone(blocks + [b], low, high, count)
    ensures Fires(After(a, blocks, low, high), b, low, high) ==> low <= b.thread <= high
  {
    assert (blocks + [b])[..|blocks|] == blocks;
    ThreadsCountTogether(a, blocks, low, high, count);
    TogetherIsDone(a, After(a, blocks, low, high), blocks, b, low, high, count);
    if !(low <= b.thread <= high) {
      assert forall t :: low <= t <= high ==> Executed(blocks + [b], t) == Executed(blocks, t);
    }
  }

  /** How often the alarm has fired in a run. */
  function Firings(a: AlarmState, blocks: seq<Block>, low: nat, high: nat): nat
    requires |a.count| == |a.armed| && high < |a.count| && BlocksWithin(blocks, |a.count|)
    decreases |blocks|
  {
    if blocks == [] then 0
    else
      var before, b := blocks[..|blocks| - 1], blocks[|blocks| - 1];
      Firings(a, before, low, high) + (if Fires(After(a, before, low, high), b, low, high) then 1 else 0)
  }

  /** So in every interleaving it fires once if the range gets done, and never otherwise. */
  lemma {:induction false} RangeFiresAtMostOnce(a: AlarmState, blocks: seq<Block>, low: nat, high: nat, count: int)
    requires JustSet(a, count) && a.tid == ALL_THREADS && count > 0 && BlocksWithin(blocks, |a.count|)
    requires low <= high < |a.count| && 0 < high
    ensures Firings(a, blocks, low, high) == if RangeDone(blocks, low, high, count) then 1 else 0
    decreases |blocks|
  {
    if blocks == [] {
      assert Executed(blocks, low) == 0;
    } else {
      var before, b := blocks[..|blocks| - 1], blocks[|blocks| - 1];
      assert before + [b] == blocks;
      RangeFiresAtMostOnce(a, before, low, high, count);
      RangeFiresOnce(a, before, b, low, high, count);
    }
  }

  /** A count that asks for nothing is complete with the first block of any watched thread, in the range or not. */
  lemma EmptyCountFiresAtOnce(a: AlarmState, b: Block, low: nat, high: nat, count: int)
    requires JustSet(a, count) && a.tid == ALL_THREADS && count <= 0
    requires b.thread < |a.count| && low <= high < |a.count|
    ensures Fires(a, b, low, high)
  {
    assert forall i :: low <= i <= high ==> a.count[i] == count;
  }

  // ----- Alarms that stay armed -----

  /** How often the alarm has fired at a block of thread `t`. */
  function FiringsOf(a: AlarmState, blocks: seq<Block>, low: nat, t: nat): nat
    requires |a.count| == |a.armed| > 0 && BlocksWithin(blocks, |a.count|)
    decreases |blocks|
  {
    if blocks == [] then 0
    else
      var before, b := blocks[..|blocks| - 1], blocks[|blocks| - 1];
      FiringsOf(a, before, low, t) + (if b.thread == t && Fires(After(a, before, low, 0), b, low, 0) then 1 else 0)
  }

  function BlocksOfThread(blocks: seq<Block>, t: nat): nat
    decreases |blocks|
  {
    if blocks == [] then 0
    else BlocksOfThread(blocks[..|blocks| - 1], t) + (if blocks[|blocks| - 1].thread == t then 1 else 0)
  }

  /** Thread `t` is watched and armed. */
  ghost predicate ArmedOn(a: AlarmState, t: nat) {
    WellShaped(a) && t < |a.count| && Watches(a, t) && a.armed[t]
  }

  /** After `k` firings the total lies between `k` counts and `k` times a count and the rest of a block. */
  ghost predicate Around(k: nat, count: int, most: nat, total: int) {
    k * count <= total <= k * (count + most - 1)
  }

  lemma AroundNext(k: nat, count: int, most: nat, total: int, gap: int)
    requires Around(k, count, most, total) && count <= gap <= count + most - 1
    ensures Around(k + 1, count, most, total + gap)
  {
    assert (k + 1) * count == k * count + count;
    assert (k + 1) * (count + most - 1) == k * (count + most - 1) + (count + most - 1);
  }

  /** The countdown of an alarm that was set again after its k-th firing. */
  ghost predicate SetAgain(a: AlarmState, b: AlarmState, t: nat, k: nat, most: nat, executed: nat) {
    && |b.count| == |b.armed| == |a.count| && b.tid == a.tid && b.rearm && !b.alwaysArmed && b.origCount == a.origCount
    && t < |b.count| && b.armed[t] && 1 <= b.count[t] <= a.origCount
    && Around(k, a.origCount, most, executed + b.count[t] - a.origCount)
  }

  lemma SetAgainStep(a: AlarmState, c: AlarmState, t: nat, k: nat, most: nat, executed: nat, b: Block, low: nat)
    requires SetAgain(a, c, t, k, most, executed) && Watches(a, t) && b.thread < |a.count| && b.insts <= most
    ensures SetAgain(a, Advance(c, b, low, 0), t, k + (if b.thread == t && Fires(c, b, low, 0) then 1 else 0), most,
                     executed + (if b.thread == t then b.insts else 0))
  {
    hide Around;
    if b.thread == t && Fires(c, b, low, 0) {
      var gap := a.origCount + b.insts - c.count[t];
      AroundNext(k, a.origCount, most, executed + c.count[t] - a.origCount, gap);
    }
  }

  lemma {:induction false} SetAgainRun(a: AlarmState, blocks: seq<Block>, low: nat, most: nat, t: nat)
    requires ArmedOn(a, t) && a.rearm && !a.alwaysArmed && a.count[t] == a.origCount > 0
    requires BlocksWithin(blocks, |a.count|) && forall i :: 0 <= i < |blocks| ==> blocks[i].insts <= most
    ensures SetAgain(a, After(a, blocks, low, 0), t, FiringsOf(a, blocks, low, t), most, Executed(blocks, t))
    decreases |blocks|
  {
    hide Advance, Fires;
    if blocks != [] {
      var before, b := blocks[..|blocks| - 1], blocks[|blocks| - 1];
      SetAgainRun(a, before, low, most, t);
      SetAgainStep(a, After(a, before, low, 0), t, FiringsOf(a, before, low, t), most, Executed(before, t), b, low);
    }
  }

  /**
   A rearmed alarm keeps time up to the rest of a block that each firing drops: k firings take at
   least k counts and at most k times (count + longest block - 1), and the next is not overdue.
   With blocks of one instruction it fires at every multiple of the count.
   */
  lemma {:induction false} RearmedAlarmKeepsTime(a: AlarmState, blocks: seq<Block>, low: nat, most: nat, t: nat)
    requires ArmedOn(a, t) && a.rearm && !a.alwaysArmed && a.count[t] == a.origCount > 0
    requires BlocksWithin(blocks, |a.count|) && forall i :: 0 <= i < |blocks| ==> blocks[i].insts <= most
    ensures var k := FiringsOf(a, blocks, low, t);
      k * a.origCount <= Executed(blocks, t) < k * (a.origCount + most - 1) + a.origCount
  {
    SetAgainRun(a, blocks, low, most, t);
  }

  /**
   An alarm that needs no count fires at every block of a watched thread if it is rearmed, and
   only at the thread's first block if it is not.
   */
  lemma {:induction false} AlwaysArmedFires(a: AlarmState, blocks: seq<Block>, low: nat, t: nat)
    requires ArmedOn(a, t) && a.alwaysArmed && BlocksWithin(blocks, |a.count|)
    ensures var n, c := BlocksOfThread(blocks, t), After(a, blocks, low, 0);
      && FiringsOf(a, blocks, low, t) == (if a.rearm || n == 0 then n else 1)
      && c.alwaysArmed && c.rearm == a.rearm && c.tid == a.tid && (c.armed[t] <==> a.rearm || n == 0)
    decreases |blocks|
  {
    if blocks != [] {
      AlwaysArmedFires(a, blocks[..|blocks| - 1], low, t);
    }
  }

  // ----- Rearmed over a thread range -----

  /** A rearming alarm on every thread, just set. */
  ghost predicate JustRearmed(a: AlarmState) {
    && WellShaped(a) && a.tid == ALL_THREADS && a.rearm && !a.alwaysArmed && a.origCount > 0
    && forall t :: 0 <= t < |a.count| ==> a.armed[t] && a.count[t] == a.origCount
  }

  /** The same alarm after some blocks: no thread is ever disarmed. */
  ghost predicate StaysArmed(a: AlarmState, c: AlarmState) {
    && |c.count| == |c.armed| == |a.count| && c.tid == a.tid && c.rearm && !c.alwaysArmed && c.origCount == a.origCount
    && forall t :: 0 <= t < |c.armed| ==> c.armed[t]
  }

  /** Until the range is done every thread counts its own blocks. */
  ghost predicate FirstRound(a: AlarmState, c: AlarmState, blocks: seq<Block>) {
    StaysArmed(a, c) && forall t :: 0 <= t < |c.count| ==> c.count[t] == a.origCount - Executed(blocks, t)
  }

  lemma FirstRoundStep(a: AlarmState, c: AlarmState, blocks: seq<Block>, b: Block, low: nat, high: nat)
    requires FirstRound(a, c, blocks) && a.tid == ALL_THREADS
    requires low <= high < |a.count| && 0 < high && b.thread < |a.count|
    ensures Fires(c, b, low, high) <==> RangeDone(blocks + [b], low, high, a.origCount)
    ensures !Fires(c, b, low, high) ==> FirstRound(a, Advance(c, b, low, high), blocks + [b])
    ensures RangeDone(blocks, low, high, a.origCount) ==> RangeDone(blocks + [b], low, high, a.origCount)
  {
    assert (blocks + [b])[..|blocks|] == blocks;
    assert forall t :: 0 <= t < |a.count| ==>
      Executed(blocks + [b], t) == Executed(blocks, t) + (if b.thread == t then b.insts else 0);
  }

  lemma {:induction false} FirstRoundRun(a: AlarmState, blocks: seq<Block>, low: nat, high: nat)
    requires JustRearmed(a) && BlocksWithin(blocks, |a.count|) && low <= high < |a.count| && 0 < high
    requires !RangeDone(blocks, low, high, a.origCount)
    ensures FirstRound(a, After(a, blocks, low, high), blocks) && Firings(a, blocks, low, high) == 0
    decreases |blocks|
  {
    hide Advance, Fires, RangeDone;
    if blocks != [] {
      var before, b := blocks[..|blocks| - 1], blocks[|blocks| - 1];
      assert before + [b] == blocks;
      if RangeDone(before, low, high, a.origCount) {
        DoneStaysDone(before, b, low, high, a.origCount);
      }
      FirstRoundRun(a, before, low, high);
      FirstRoundStep(a, After(a, before, low, high), before, b, low, high);
    }
  }

  lemma DoneStaysDone(blocks: seq<Block>, b: Block, low: nat, high: nat, count: int)
    requires RangeDone(blocks, low, high, count)
    ensures RangeDone(blocks + [b], low, high, count)
  {
    assert (blocks + [b])[..|blocks|] == blocks;
    assert forall t :: Executed(blocks + [b], t) == Executed(blocks, t) + (if b.thread == t then b.insts else 0);
  }

  /** After the first round thread `x` counts on, and nobody else in the range has anything left. */
  ghost predicate LaterRound(a: AlarmState, c: AlarmState, low: nat, high: nat, x: nat, k: nat, most: nat, executed: nat) {
    && StaysArmed(a, c) && low <= x <= high < |c.count|
    && (forall t :: low <= t <= high && t != x ==> c.count[t] <= 0)
    && 1 <= c.count[x] <= a.origCount
    && Around(k, a.origCount, most, executed + c.count[x] - a.origCount)
  }

  lemma LaterRoundStep(a: AlarmState, c: AlarmState, low: nat, high: nat, x: nat, k: nat, most: nat, executed: nat, b: Block)
    requires LaterRound(a, c, low, high, x, k, most, executed) && a.tid == ALL_THREADS && a.origCount > 0 && 0 < high
    requires b.thread < |a.count| && b.insts <= most
    ensures Fires(c, b, low, high) <==> b.thread == x && c.count[x] <= b.insts
    ensures LaterRound(a, Advance(c, b, low, high), low, high, x, k + (if Fires(c, b, low, high) then 1 else 0), most,
                       executed + (if b.thread == x then b.insts else 0))
  {
    hide Around;
    if b.thread == x && c.count[x] <= b.insts {
      AroundNext(k, a.origCount, most, executed + c.count[x] - a.origCount, a.origCount + b.insts - c.count[x]);
    }
  }

  lemma {:induction false} LaterRoundRun(a: AlarmState, c: AlarmState, low: nat, high: nat, x: nat, blocks: seq<Block>, most: nat)
    requires LaterRound(a, c, low, high, x, 0, most, 0) && a.tid == ALL_THREADS && a.origCount > 0 && 0 < high
    requires BlocksWithin(blocks, |a.count|) && forall i :: 0 <= i < |blocks| ==> blocks[i].insts <= most
    ensures LaterRound(a, After(c, blocks, low, high), low, high, x, Firings(c, blocks, low, high), most, Executed(blocks, x))
    decreases |blocks|
  {
    hide Advance, Fires, LaterRound;
    LaterShape(a, c, low, high, x, 0, most, 0);
    if blocks != [] {
      var before, b := blocks[..|blocks| - 1], blocks[|blocks| - 1];
      LaterRoundRun(a, c, low, high, x, before, most);
      var d := After(c, before, low, high);
      LaterShape(a, d, low, high, x, Firings(c, before, low, high), most, Executed(before, x));
      LaterRoundStep(a, d, low, high, x, Firings(c, before, low, high), most, Executed(before, x), b);
    }
  }

  lemma LaterShape(a: AlarmState, c: AlarmState, low: nat, high: nat, x: nat, k: nat, most: nat, executed: nat)
    requires LaterRound(a, c, low, high, x, k, most, executed)
    ensures |c.count| == |c.armed| == |a.count| && low <= x <= high < |a.count|
  {
  }

  lemma RoundOver(a: AlarmState, blocks: seq<Block>, b: Block, low: nat, high: nat, most: nat)
    requires JustRearmed(a) && BlocksWithin(blocks, |a.count|) && b.thread < |a.count| && low <= high < |a.count| && 0 < high
    requires !RangeDone(blocks, low, high, a.origCount) && RangeDone(blocks + [b], low, high, a.origCount)
    ensures var c := After(a, blocks, low, high);
      Firings(a, blocks, low, high) == 0 && Fires(c, b, low, high)
      && LaterRound(a, Advance(c, b, low, high), low, high, b.thread, 0, most, 0)
  {
    FirstRoundRun(a, blocks, low, high);
    FirstRoundStep(a, After(a, blocks, low, high), blocks, b, low, high);
    assert (blocks + [b])[..|blocks|] == blocks;
    assert forall t :: Executed(blocks + [b], t) == Executed(blocks, t) + (if b.thread == t then b.insts else 0);
  }

  /**
   A rearmed alarm over a thread range, in every interleaving. It first fires at the block that
   completes the range. Only the thread of that block starts over, and from then on the alarm is
   that thread's alone: no other thread fires it, and k further firings take at least k counts
   and at most k times (count + longest block - 1) of that thread.
   */
  lemma RearmedRangeFollowsOne(a: AlarmState, blocks: seq<Block>, b: Block, more: seq<Block>, y: Block, low: nat, high: nat, most: nat)
    requires JustRearmed(a) && low <= high < |a.count| && 0 < high && b.thread < |a.count| && y.thread < |a.count|
    requires BlocksWithin(blocks, |a.count|) && BlocksWithin(more, |a.count|)
    requires !RangeDone(blocks, low, high, a.origCount) && RangeDone(blocks + [b], low, high, a.origCount)
    requires forall i :: 0 <= i < |more| ==> more[i].insts <= most
    ensures Firings(a, blocks, low, high) == 0 && low <= b.thread <= high
    ensures var c := After(a, blocks, low, high);
      && Fires(c, b, low, high)
      && var d, k := Advance(c, b, low, high), Firings(Advance(c, b, low, high), more, low, high);
         && (Fires(After(d, more, low, high), y, low, high) ==> y.thread == b.thread)
         && k * a.origCount <= Executed(more, b.thread) < k * (a.origCount + most - 1) + a.origCount
  {
    hide Advance, Fires, RangeDone;
    RoundOver(a, blocks, b, low, high, most);
    var d := Advance(After(a, blocks, low, high), b, low, high);
    LaterRoundRun(a, d, low, high, b.thread, more, most);
    var k, executed := Firings(d, more, low, high), Executed(more, b.thread);
    var bound := if y.insts > most then y.insts else most;
    LooserBound(a, After(d, more, low, high), low, high, b.thread, k, most, executed, bound);
    LaterRoundStep(a, After(d, more, low, high), low, high, b.thread, k, bound, executed, y);
  }

  /** A larger bound on the blocks only widens the window. */
  lemma LooserBound(a: AlarmState, c: AlarmState, low: nat, high: nat, x: nat, k: nat, most: nat, executed: nat, bound: nat)
    requires LaterRound(a, c, low, high, x, k, most, executed) && most <= bound
    ensures LaterRound(a, c, low, high, x, k, bound, executed)
  {
    assert k * (a.origCount + bound - 1) == k * (a.origCount + most - 1) + k * (bound - most);
  }

  /** How many blocks the alarm watches. */
  function WatchedBlocks(a: AlarmState, blocks: seq<Block>): nat
    decreases |blocks|
  {
    if blocks == [] then 0
    else WatchedBlocks(a, blocks[..|blocks| - 1]) + (if Watches(a, blocks[|blocks| - 1].thread) then 1 else 0)
  }

  /**
   Over a thread range, an alarm that needs no count fires at every watched block if it is rearmed,
   and if not only at the first one, which disarms it for all threads.
   */
  lemma {:induction false} AlwaysArmedRangeFires(a: AlarmState, blocks: seq<Block>, low: nat, high: nat)
    requires WellShaped(a) && a.alwaysArmed && 0 < high < |a.count| && BlocksWithin(blocks, |a.count|)
    requires forall t :: 0 <= t < |a.count| && Watches(a, t) ==> a.armed[t]
    ensures var n, c := WatchedBlocks(a, blocks), After(a, blocks, low, high);
      && Firings(a, blocks, low, high) == (if a.rearm || n == 0 then n else 1)
      && c.alwaysArmed && c.rearm == a.rearm && c.tid == a.tid
      && forall t :: 0 <= t < |a.count| && Watches(a, t) ==> (c.armed[t] <==> a.rearm || n == 0)
    decreases |blocks|
  {
    if blocks != [] {
      AlwaysArmedRangeFires(a, blocks[..|blocks| - 1], low, high);
    }
  }

  // ----- The counters themselves -----

  class ArmedCount {
    var origCount: int
    var active: bool
    var rearm: bool
    var alwaysArmed: bool
    var tid: nat
    const maxThreads: nat
    const count: array<int>
    const armed: array<bool>

    ghost predicate Valid()
      reads this
    {
      && count.Length == armed.Length == maxThreads <= ALL_THREADS
      && (tid == ALL_THREADS || tid < maxThreads)
    }

    ghost function View(): AlarmState
      reads this, count, armed
    {
      AlarmState(count[..], armed[..], origCount, rearm, alwaysArmed, tid)
    }

    constructor (maxThreads: nat, tid: nat)
      requires maxThreads <= ALL_THREADS && (tid == ALL_THREADS || tid < maxThreads)
      ensures Valid() && fresh(count) && fresh(armed) && this.maxThreads == maxThreads && !active
      ensures View() == AlarmState(Filled(maxThreads, 0), Filled(maxThreads, false), 0, false, false, tid)
    {
      this.maxThreads, this.tid := maxThreads, tid;
      origCount, active, rearm, alwaysArmed := 0, false, false, false;
      var cs, flags := new int[maxThreads], new bool[maxThreads];
      for i := 0 to maxThreads
        invariant cs[..i] == Filled(i, 0) && flags[..i] == Filled(i, false)
      {
        cs[i], flags[i] := 0, false;
      }
      assert cs[..] == cs[..maxThreads] && flags[..] == flags[..maxThreads];
      count, armed := cs, flags;
    }

    method ActivateCommon()
      requires !active
      modifies `active
      ensures active
    {
      active := true;
    }

    method SetArmed(t: nat)
      requires Valid() && (t == ALL_THREADS || t < maxThreads)
      modifies armed
      ensures armed[..] == if t == ALL_THREADS then Filled(maxThreads, true) else old(armed[..])[t := true]
    {
      if t == ALL_THREADS {
        for i := 0 to maxThreads
          invariant armed[..i] == Filled(i, true)
        {
          armed[i] := true;
        }
        assert armed[..] == armed[..maxThreads];
      } else {
        armed[t] := true;
      }
    }

    method SetCount(t: nat, c: int)
      requires Valid() && (t == ALL_THREADS || t < maxThreads)
      modifies count
      ensures count[..] == if t == ALL_THREADS then Filled(maxThreads, c) else old(count[..])[t := c]
    {
      if t == ALL_THREADS {
        for i := 0 to maxThreads
          invariant count[..i] == Filled(i, c)
        {
          count[i] := c;
        }
        assert count[..] == count[..maxThreads];
      } else {
        count[t] := c;
      }
    }

    method Disarm(t: nat)
      requires Valid() && (t == ALL_THREADS || t < maxThreads)
      modifies armed
      ensures armed[..] == if t == ALL_THREADS then Filled(maxThreads, false) else old(armed[..])[t := false]
    {
      if t == ALL_THREADS {
        for i := 0 to maxThreads
          invariant armed[..i] == Filled(i, false)
        {
          armed[i] := false;
        }
        assert armed[..] == armed[..maxThreads];
      } else {
        armed[t] := false;
      }
    }

    method ResetCount(t: nat)
      requires Valid() && t < maxThreads
      modifies count
      ensures count[..] == old(count[..])[t := origCount]
    {
      count[t] := origCount;
    }

    /** Sets the alarm; threads that it does not name keep their countdown. */
    method Set(origCount: int, rearm: bool, alwaysArmed: bool, t: nat)
      requires Valid() && active && (t == ALL_THREADS || t < maxThreads)
      modifies this, count, armed
      ensures Valid() && active
      ensures View() == SetOn(old(View()), origCount, rearm, alwaysArmed, t)
      ensures !rearm && !alwaysArmed ==> JustSet(View(), origCount)
    {
      this.origCount, this.rearm, this.alwaysArmed, tid := origCount, rearm, alwaysArmed, t;
      SetCount(t, origCount);
      SetArmed(t);
    }

    method CounterAdvance(t: nat, ninst: nat) returns (fires: bool)
      requires Valid() && t < maxThreads
      modifies count, armed
      ensures fires == FiresAlone(old(View()), Block(t, ninst))
      ensures View() == Advance(old(View()), Block(t, ninst), 0, 0)
    {
      if tid != ALL_THREADS && tid != t {
        return false;
      }
      if !armed[t] {
        return false;
      }
      var fire := alwaysArmed;
      if !fire {
        count[t] := count[t] - ninst;
        if count[t] <= 0 {
          fire := true;
        }
      }
      if fire {
        if rearm {
          ResetCount(t);
        } else {
          Disarm(t);
        }
        return true;
      }
      return false;
    }

    method CounterAdvanceCheckNThreads(t: nat, low: nat, high: nat, ninst: nat) returns (fires: bool)
      requires Valid() && t < maxThreads && high < maxThreads && 0 < high
      modifies count, armed
      ensures fires == FiresTogether(old(View()), Block(t, ninst), low, high)
      ensures View() == Advance(old(View()), Block(t, ninst), low, high)
    {
      ghost var a := View();
      if tid != ALL_THREADS && tid != t {
        return false;
      }
      if !armed[t] {
        return false;
      }
      var fire := alwaysArmed;
      if !fire {
        count[t] := count[t] - ninst;
        fire := true;
        var i := low;
        while i <= high
          invariant low <= i && fire
          invariant forall j :: low <= j <= high && j < i ==> count[j] <= 0
        {
          if count[i] > 0 {
            fire := false;
            break;
          }
          i := i + 1;
        }
        assert forall j :: low <= j <= high ==> count[j] == if j == t then a.count[j] - ninst else a.count[j];
      }
      if fire {
        if rearm {
          ResetCount(t);
        } else {
          Disarm(ALL_THREADS);
        }
        return true;
      }
      return false;
    }

    /** The instrumentation of a block: the thread range, if there is one, decides which countdown. */
    method AdvanceBlock(t: nat, low: nat, high: nat, ninst: nat) returns (fires: bool)
      requires Valid() && t < maxThreads && high < maxThreads
      modifies count, armed
      ensures fires == Fires(old(View()), Block(t, ninst), low, high)
      ensures View() == Advance(old(View()), Block(t, ninst), low, high)
    {
      if high == 0 {
        fires := CounterAdvance(t, ninst);
      } else {
        fires := CounterAdvanceCheckNThreads(t, low, high, ninst);
      }
    }
  }
}
