/**
 The uniform sampler: a period alarm that starts a sample and sets itself again, a length alarm
 that stops the sample, and an alarm that skips a first stretch. Each block of instructions
 advances them in this order.
 */
module Uniform {
  import opened Options

  /** `skip` is what the skip knob gives, if it is set; `count` bounds the number of samples. */
  datatype Config = Config(period: nat, length: nat, skip: Option<nat>, count: nat)

  /** A one-shot alarm of the watched thread. */
  datatype Timer = Timer(left: int, armed: bool)

  datatype Call = START | STOP

  datatype Sampler = Sampler(period: Timer, length: Timer, skip: Timer, skipActive: bool, samples: nat, calls: seq<Call>)

  /** The knobs are rejected unless the period is longer than the sample. */
  predicate Accepted(c: Config) {
    c.period > c.length
  }

  predicate Expires(t: Timer, n: nat) {
    t.armed && t.left - n <= 0
  }

  function Tick(t: Timer, n: nat): Timer {
    if t.armed then Timer(t.left - n, t.left - n > 0) else t
  }

  /** The handler of the period and skip alarms. */
  function OnStart(c: Config, s: Sampler): Sampler {
    if s.samples >= c.count then s
    else if s.skipActive then s.(period := Timer(c.period, true), skipActive := false)
    else s.(period := Timer(c.period, true), length := Timer(c.length, true), calls := s.calls + [START])
  }

  /** The handler of the length alarm. */
  function OnStop(s: Sampler): Sampler {
    s.(samples := s.samples + 1, calls := s.calls + [STOP])
  }

  function AdvancePeriod(c: Config, s: Sampler, n: nat): Sampler {
    var t := s.(period := Tick(s.period, n));
    if Expires(s.period, n) then OnStart(c, t) else t
  }

  function AdvanceLength(s: Sampler, n: nat): Sampler {
    var t := s.(length := Tick(s.length, n));
    if Expires(s.length, n) then OnStop(t) else t
  }

  function AdvanceSkip(c: Config, s: Sampler, n: nat): Sampler {
    var t := s.(skip := Tick(s.skip, n));
    if Expires(s.skip, n) then OnStart(c, t) else t
  }

  /** One block of `n` instructions. */
  function Step(c: Config, s: Sampler, n: nat): Sampler {
    AdvanceSkip(c, AdvanceLength(AdvancePeriod(c, s, n), n), n)
  }

  const OFF := Timer(0, false)

  function Armed(c: Config): Sampler {
    match c.skip
    case Some(n) => Sampler(OFF, OFF, Timer(n, true), true, 0, [])
    case None => Sampler(Timer(c.period, true), OFF, OFF, false, 0, [])
  }

  function Run(c: Config, blocks: seq<nat>): Sampler
    decreases |blocks|
  {
    if blocks == [] then Armed(c) else Step(c, Run(c, blocks[..|blocks| - 1]), blocks[|blocks| - 1])
  }

  /** Every block has between 1 and `most` instructions. */
  ghost predicate BlocksUpTo(blocks: seq<nat>, most: nat) {
    forall i :: 0 <= i < |blocks| ==> 1 <= blocks[i] <= most
  }

  function Total(blocks: seq<nat>): nat
    decreases |blocks|
  {
    if blocks == [] then 0 else Total(blocks[..|blocks| - 1]) + blocks[|blocks| - 1]
  }

  function Number(calls: seq<Call>, x: Call): nat
    decreases |calls|
  {
    if calls == [] then 0 else Number(calls[..|calls| - 1], x) + (if calls[|calls| - 1] == x then 1 else 0)
  }

  lemma RunSnoc(c: Config, blocks: seq<nat>, n: nat)
    ensures Run(c, blocks + [n]) == Step(c, Run(c, blocks), n)
    ensures Total(blocks + [n]) == Total(blocks) + n
  {
    assert (blocks + [n])[..|blocks|] == blocks;
  }

  // ----- Samples alternate -----

  /** START, STOP, START, STOP, ... */
  ghost predicate Alternates(calls: seq<Call>) {
    forall i :: 0 <= i < |calls| ==> calls[i] == if i % 2 == 0 then START else STOP
  }

  /** No block can outrun a running sample. */
  predicate Roomy(c: Config, most: nat) {
    c.length <= 1 || most <= c.period - c.length + 1
  }

  lemma AlternatesSnoc(calls: seq<Call>, x: Call)
    requires Alternates(calls) && x == if |calls| % 2 == 0 then START else STOP
    ensures Alternates(calls + [x])
  {
  }

  lemma {:induction false} AlternatesCounts(calls: seq<Call>)
    requires Alternates(calls)
    ensures Number(calls, STOP) == |calls| / 2 && Number(calls, START) == (|calls| + 1) / 2
    decreases |calls|
  {
    if calls != [] {
      AlternatesCounts(calls[..|calls| - 1]);
    }
  }

  /** Between samples the length alarm is off; within one it is due before the period alarm. */
  ghost predicate Regular(c: Config, most: nat, s: Sampler) {
    && Alternates(s.calls)
    && |s.calls| == 2 * s.samples + (if s.length.armed then 1 else 0) <= 2 * c.count
    && (s.length.armed ==>
          s.length.left >= 1 && s.period.armed && most <= s.period.left - s.length.left && !s.skip.armed)
    && (s.skipActive ==> !s.period.armed && s.calls == [])
    && (s.skip.armed ==> s.skipActive)
  }

  lemma StepWithinSample(c: Config, most: nat, s: Sampler, n: nat)
    requires 1 <= n <= most && Regular(c, most, s) && s.length.armed
    ensures Regular(c, most, Step(c, s, n))
  {
    hide Alternates;
    AlternatesSnoc(s.calls, STOP);
  }

  lemma StepWhileSkipping(c: Config, most: nat, s: Sampler, n: nat)
    requires 1 <= n <= most && Regular(c, most, s) && s.skipActive
    ensures Regular(c, most, Step(c, s, n))
  {
    hide Alternates;
  }

  lemma StepBetweenSamples(c: Config, most: nat, s: Sampler, n: nat)
    requires Accepted(c) && Roomy(c, most) && 1 <= n <= most && Regular(c, most, s) && !s.length.armed && !s.skipActive
    ensures Regular(c, most, Step(c, s, n))
  {
    hide Alternates;
    AlternatesSnoc(s.calls, START);
    AlternatesSnoc(s.calls + [START], STOP);
  }

  lemma {:induction false} RegularRun(c: Config, most: nat, blocks: seq<nat>)
    requires Accepted(c) && Roomy(c, most) && BlocksUpTo(blocks, most)
    ensures Regular(c, most, Run(c, blocks))
    decreases |blocks|
  {
    hide Step, Regular, Alternates, Roomy;
    if blocks == [] {
      RegularInitially(c, most);
    } else {
      var s, n := Run(c, blocks[..|blocks| - 1]), blocks[|blocks| - 1];
      RegularRun(c, most, blocks[..|blocks| - 1]);
      if s.length.armed {
        StepWithinSample(c, most, s, n);
      } else if s.skipActive {
        StepWhileSkipping(c, most, s, n);
      } else {
        StepBetweenSamples(c, most, s, n);
      }
    }
  }

  lemma RegularInitially(c: Config, most: nat)
    ensures Regular(c, most, Armed(c))
  {
  }

  /**
   When no block can outrun a sample, every run strictly alternates START and STOP, counts its
   STOPs, and starts no more samples than asked for.
   */
  lemma SamplesAlternate(c: Config, most: nat, blocks: seq<nat>)
    requires Accepted(c) && Roomy(c, most) && BlocksUpTo(blocks, most)
    ensures var s := Run(c, blocks);
      && Alternates(s.calls)
      && s.samples == Number(s.calls, STOP)
      && s.samples <= Number(s.calls, START) <= s.samples + 1
      && Number(s.calls, START) <= c.count
  {
    hide Run, Roomy, Alternates;
    RegularRun(c, most, blocks);
    AlternatesCounts(Run(c, blocks).calls);
  }

  /** `k` blocks of one instruction. */
  function Ones(k: nat): seq<nat>
    decreases k
  {
    if k == 0 then [] else Ones(k - 1) + [1]
  }

  lemma {:induction false} OnesAreBlocks(k: nat, most: nat)
    requires most >= 1
    ensures BlocksUpTo(Ones(k), most)
    decreases k
  {
    if k > 0 {
      OnesAreBlocks(k - 1, most);
    }
  }

  /** What `k` instructions leave of an alarm that is not yet due. */
  function Elapse(t: Timer, k: nat): Timer {
    if t.armed then Timer(t.left - k, true) else t
  }

  function ElapseAll(s: Sampler, k: nat): Sampler {
    s.(period := Elapse(s.period, k), length := Elapse(s.length, k), skip := Elapse(s.skip, k))
  }

  predicate Pending(t: Timer, k: nat) {
    t.armed ==> k < t.left
  }

  lemma NothingElapses(s: Sampler)
    ensures ElapseAll(s, 0) == s
  {
  }

  lemma OneMoreElapses(c: Config, s: Sampler, k: nat)
    requires Pending(s.period, k + 1) && Pending(s.length, k + 1) && Pending(s.skip, k + 1)
    ensures Step(c, ElapseAll(s, k), 1) == ElapseAll(s, k + 1)
  {
  }

  /** Blocks of one instruction only count the alarms down until one is due. */
  lemma {:induction false} OnesCountDown(c: Config, before: seq<nat>, k: nat)
    requires var s := Run(c, before); Pending(s.period, k) && Pending(s.length, k) && Pending(s.skip, k)
    ensures Run(c, before + Ones(k)) == ElapseAll(Run(c, before), k)
    decreases k
  {
    hide Run, Step, ElapseAll, Total;
    if k == 0 {
      assert before + Ones(0) == before;
      NothingElapses(Run(c, before));
    } else {
      OnesCountDown(c, before, k - 1);
      OneMoreElapses(c, Run(c, before), k - 1);
      assert before + Ones(k) == (before + Ones(k - 1)) + [1];
      RunSnoc(c, before + Ones(k - 1), 1);
    }
  }

  /** No sample yet, no skipping, and the period alarm set on `left` instructions. */
  ghost predicate Fresh(s: Sampler, left: int) {
    s.period == Timer(left, true) && !s.length.armed && !s.skip.armed && !s.skipActive && s.samples == 0 && s.calls == []
  }

  lemma SkipEnds(c: Config, s: Sampler)
    requires Accepted(c) && c.count >= 1 && s.skipActive && s.samples == 0 && s.calls == []
    requires !s.period.armed && !s.length.armed && s.skip.armed && s.skip.left <= 1
    ensures Fresh(Step(c, s, 1), c.period)
  {
  }

  /** The least total at which the counting of periods can begin. */
  function Lead(c: Config): nat {
    match c.skip
    case None => 0
    case Some(n) => if n == 0 then 1 else n
  }

  /** All but the last instruction of the skip leave only the skip alarm, due with the next one. */
  lemma SkipNearlyOver(c: Config, k: nat)
    requires c.skip.Some? && k == if c.skip.value == 0 then 0 else c.skip.value - 1
    ensures var s := Run(c, Ones(k));
      s.skipActive && s.samples == 0 && s.calls == [] && !s.period.armed && !s.length.armed && s.skip.armed && s.skip.left <= 1
  {
    hide Step, Ones;
    assert Run(c, []) == Armed(c);
    assert [] + Ones(k) == Ones(k);
    if k > 0 {
      OnesCountDown(c, [], k);
    } else {
      NoOnes();
    }
  }

  /** Blocks that end the skipping, if there is any, and leave the period alarm just set. */
  lemma EndSkipping(c: Config, most: nat) returns (blocks: seq<nat>)
    requires Accepted(c) && c.count >= 1 && most >= 1
    ensures BlocksUpTo(blocks, most) && Fresh(Run(c, blocks), c.period) && blocks == Ones(Lead(c))
  {
    match c.skip
    case None => blocks := [];
    case Some(n) =>
      hide Run, Step, Fresh;
      var k: nat := if n == 0 then 0 else n - 1;
      OnesAreBlocks(k, most);
      SkipNearlyOver(c, k);
      RunSnoc(c, Ones(k), 1);
      SkipEnds(c, Run(c, Ones(k)));
      blocks := Ones(k) + [1];
  }

  lemma NoOnes()
    ensures Ones(0) == []
  {
  }

  /** Inside the first sample, with so much left of it and of the period. */
  ghost predicate Sampling(s: Sampler, period: int, length: int) {
    && s.period == Timer(period, true) && s.length == Timer(length, true) && !s.skip.armed && !s.skipActive
    && s.samples == 0 && s.calls == [START]
  }

  lemma SampleStarts(c: Config, s: Sampler)
    requires Accepted(c) && c.count >= 1 && c.length >= 2 && Fresh(s, 1)
    ensures Sampling(Step(c, s, 1), c.period, c.length - 1)
  {
  }

  lemma StopIsLost(c: Config, s: Sampler, n: nat)
    requires c.count >= 1 && n >= 1 && Sampling(s, n, 1)
    ensures var calls := Step(c, s, n).calls; |calls| >= 2 && calls[0] == calls[1] == START && !Alternates(calls)
    ensures Step(c, s, n).samples <= 1
  {
    assert Step(c, s, n).calls[1] != STOP;
  }

  /** Blocks of one instruction up to the last but one instruction of the first sample. */
  lemma NearlySampled(c: Config, most: nat) returns (blocks: seq<nat>)
    requires Accepted(c) && c.count >= 1 && c.length >= 2 && most >= 1
    ensures BlocksUpTo(blocks, most) && Sampling(Run(c, blocks), c.period - c.length + 2, 1)
  {
    hide Run, Step, Ones;
    var before := EndSkipping(c, most);
    OnesAreBlocks(c.period - 1, most);
    OnesAreBlocks(c.length - 2, most);
    // The period alarm starts a sample at a block of one instruction, ...
    OnesCountDown(c, before, c.period - 1);
    var b1 := before + Ones(c.period - 1);
    RunSnoc(c, b1, 1);
    SampleStarts(c, Run(c, b1));
    // ... and all but the last instruction of the sample follow.
    OnesCountDown(c, b1 + [1], c.length - 2);
    blocks := (b1 + [1]) + Ones(c.length - 2);
  }

  /** With room for more, some run starts a second sample inside the first one. */
  lemma LosingRun(c: Config, most: nat) returns (blocks: seq<nat>)
    requires Accepted(c) && c.count >= 1 && !Roomy(c, most)
    ensures BlocksUpTo(blocks, most)
    ensures var calls := Run(c, blocks).calls; |calls| >= 2 && calls[0] == calls[1] == START && !Alternates(calls)
    ensures Run(c, blocks).samples <= 1
  {
    hide Run, Step, Sampling;
    var before := NearlySampled(c, most);
    // The next block reaches the end of the period.
    var n := c.period - c.length + 2;
    RunSnoc(c, before, n);
    StopIsLost(c, Run(c, before), n);
    blocks := before + [n];
  }

  lemma {:induction false} NoSamplesWanted(c: Config, blocks: seq<nat>)
    requires c.count == 0
    ensures Run(c, blocks).calls == [] && !Run(c, blocks).length.armed
    decreases |blocks|
  {
    if blocks != [] {
      NoSamplesWanted(c, blocks[..|blocks| - 1]);
    }
  }

  /** The sampler alternates in all runs with such blocks exactly when there is room for them, or no sample is wanted. */
  lemma AlternatesIffRoomy(c: Config, most: nat)
    requires Accepted(c)
    ensures Roomy(c, most) || c.count == 0 <==> forall blocks :: BlocksUpTo(blocks, most) ==> Alternates(Run(c, blocks).calls)
  {
    hide Run;
    if Roomy(c, most) || c.count == 0 {
      forall blocks | BlocksUpTo(blocks, most)
        ensures Alternates(Run(c, blocks).calls)
      {
        if c.count == 0 {
          NoSamplesWanted(c, blocks);
        } else {
          SamplesAlternate(c, most, blocks);
        }
      }
    } else {
      var blocks := LosingRun(c, most);
    }
  }

  // ----- When samples start -----

  /** The skipping is over. */
  predicate Counting(s: Sampler) {
    !s.skipActive
  }

  /** Instructions executed when the last sample started, or else when the skipping ended, or 0. */
  function LastMark(c: Config, blocks: seq<nat>): nat
    decreases |blocks|
  {
    if blocks == [] then 0
    else
      var before := blocks[..|blocks| - 1];
      var s, t := Run(c, before), Run(c, blocks);
      if Number(t.calls, START) > Number(s.calls, START) || (Counting(t) && !Counting(s)) then Total(blocks)
      else LastMark(c, before)
  }

  lemma NumberSnoc(calls: seq<Call>, y: Call, x: Call)
    ensures Number(calls + [y], x) == Number(calls, x) + (if y == x then 1 else 0)
  {
    assert (calls + [y])[..|calls|] == calls;
  }

  /** The period alarm counts from the last mark; it is off only when there are samples enough. */
  ghost predicate Periodic(c: Config, s: Sampler, since: int) {
    && !s.skipActive && !s.skip.armed
    && s.samples + (if s.length.armed then 1 else 0) <= Number(s.calls, START)
    && (s.length.armed ==> 1 <= s.length.left < c.length - since)
    && (if s.period.armed then s.period.left == c.period - since >= 1 else s.samples >= c.count)
  }

  /** Only the skip alarm counts, and without samples to start its end changes nothing. */
  ghost predicate Skipping(c: Config, s: Sampler, total: int) {
    && c.skip.Some? && s.skipActive && !s.period.armed && !s.length.armed && s.samples == 0 && s.calls == []
    && (if s.skip.armed then s.skip.left == c.skip.value - total && (total > 0 ==> s.skip.left >= 1) else c.count == 0)
  }

  lemma PeriodicStep(c: Config, s: Sampler, since: int, n: nat)
    requires Accepted(c) && Periodic(c, s, since) && n >= 1
    ensures var t := Step(c, s, n); var starts := Expires(s.period, n) && s.samples < c.count;
      && Number(t.calls, START) == Number(s.calls, START) + (if starts then 1 else 0)
      && Periodic(c, t, if starts then 0 else since + n)
  {
    hide Number;
    NumberSnoc(s.calls, START, START);
    NumberSnoc(s.calls, STOP, START);
    NumberSnoc(s.calls + [START], STOP, START);
  }

  lemma SkippingStep(c: Config, s: Sampler, total: nat, n: nat)
    requires Accepted(c) && Skipping(c, s, total) && n >= 1
    ensures var t := Step(c, s, n); var ends := Expires(s.skip, n) && c.count > 0;
      t.calls == [] && (if ends then Periodic(c, t, 0) else Skipping(c, t, total + n))
  {
  }

  /** Mark number `k` lies between these totals; a skip may end late by the rest of a block. */
  ghost predicate InWindow(c: Config, most: nat, k: nat, total: int) {
    Lead(c) + k * c.period <= total <= Lead(c) + (if c.skip.Some? then most - 1 else 0) + k * (c.period + most - 1)
  }

  lemma InNextWindow(c: Config, most: nat, k: nat, total: nat, gap: nat)
    requires InWindow(c, most, k, total) && c.period <= gap <= c.period + most - 1
    ensures InWindow(c, most, k + 1, total + gap)
  {
    assert (k + 1) * c.period == k * c.period + c.period;
    assert (k + 1) * (c.period + most - 1) == k * (c.period + most - 1) + (c.period + most - 1);
  }

  /** Either still skipping, or counting from the last mark, which lies in its window. */
  ghost predicate OnTime(c: Config, most: nat, s: Sampler, total: nat, mark: nat) {
    if Counting(s) then
      && mark <= total && Periodic(c, s, total - mark) && InWindow(c, most, Number(s.calls, START), mark)
    else Skipping(c, s, total)
  }

  lemma {:induction false} PeriodicRun(c: Config, most: nat, blocks: seq<nat>)
    requires Accepted(c) && BlocksUpTo(blocks, most)
    ensures OnTime(c, most, Run(c, blocks), Total(blocks), LastMark(c, blocks))
    decreases |blocks|
  {
    hide Step, Number, InWindow, Expires, OnTime;
    if blocks == [] {
      OnTimeInitially(c, most);
    } else {
      var before, n := blocks[..|blocks| - 1], blocks[|blocks| - 1];
      PeriodicRun(c, most, before);
      OnTimeStep(c, most, Run(c, before), Total(before), LastMark(c, before), n);
    }
  }

  lemma OnTimeStep(c: Config, most: nat, s: Sampler, total: nat, mark: nat, n: nat)
    requires Accepted(c) && OnTime(c, most, s, total, mark) && 1 <= n <= most
    ensures var t := Step(c, s, n);
      var marks := Number(t.calls, START) > Number(s.calls, START) || (Counting(t) && !Counting(s));
      OnTime(c, most, t, total + n, if marks then total + n else mark)
  {
    hide Step, InWindow;
    if Counting(s) {
      PeriodicStep(c, s, total - mark, n);
      if Expires(s.period, n) && s.samples < c.count {
        InNextWindow(c, most, Number(s.calls, START), mark, total - mark + n);
      }
    } else {
      SkippingStep(c, s, total, n);
      if Expires(s.skip, n) && c.count > 0 {
        FirstWindow(c, most, total + n);
      }
    }
  }

  lemma FirstWindow(c: Config, most: nat, total: nat)
    requires c.skip.Some? && Lead(c) <= total <= Lead(c) + most - 1
    ensures InWindow(c, most, 0, total)
  {
  }

  lemma OnTimeInitially(c: Config, most: nat)
    requires Accepted(c)
    ensures OnTime(c, most, Armed(c), 0, 0)
  {
  }

  /**
   The k-th START comes with the block after which the total, less the skip, lies between
   k periods and k times (period + longest block - 1), whatever the blocks.
   */
  lemma StartsOnTime(c: Config, most: nat, blocks: seq<nat>, n: nat)
    requires Accepted(c) && BlocksUpTo(blocks + [n], most)
    requires Number(Run(c, blocks + [n]).calls, START) > Number(Run(c, blocks).calls, START)
    ensures InWindow(c, most, Number(Run(c, blocks + [n]).calls, START), Total(blocks + [n]))
  {
    hide Run, InWindow;
    assert (blocks + [n])[..|blocks|] == blocks;
    PeriodicRun(c, most, blocks + [n]);
  }

  /** And it does come: with k samples started so far, fewer than asked for, the total is not beyond the next window. */
  lemma StartsHappen(c: Config, most: nat, blocks: seq<nat>)
    requires Accepted(c) && BlocksUpTo(blocks, most)
    requires Number(Run(c, blocks).calls, START) < c.count
    ensures var k := Number(Run(c, blocks).calls, START);
      Total(blocks) < Lead(c) + (if c.skip.Some? && most > 0 then most - 1 else 0) + k * (c.period + most - 1) + c.period
  {
    hide Run;
    PeriodicRun(c, most, blocks);
  }

  // ----- Sampling to the end -----

  lemma {:induction false} TotalOfOnes(k: nat)
    ensures Total(Ones(k)) == k
    decreases k
  {
    if k > 0 {
      TotalOfOnes(k - 1);
    }
  }

  lemma FewerPeriods(j: nat, k: nat, p: nat)
    requires j < k
    ensures j * p + p <= k * p
  {
    assert (k - 1 - j) * p >= 0;
    assert k * p == (j + 1) * p + (k - 1 - j) * p;
  }

  /** Blocks of one instruction that take all the samples asked for. */
  lemma AllSamplesTaken(c: Config) returns (k: nat)
    requires Accepted(c)
    ensures var s := Run(c, Ones(k)); Alternates(s.calls) && s.samples == c.count && |s.calls| == 2 * c.count
  {
    k := Lead(c) + c.count * c.period + c.length;
    OnesAreBlocks(k, 1);
    TotalOfOnes(k);
    RegularRun(c, 1, Ones(k));
    PeriodicRun(c, 1, Ones(k));
    SamplesAlternate(c, 1, Ones(k));
    AlternatesCounts(Run(c, Ones(k)).calls);
    NothingLeftToSample(c, Run(c, Ones(k)), LastMark(c, Ones(k)));
  }

  lemma NothingLeftToSample(c: Config, s: Sampler, mark: nat)
    requires Accepted(c) && Regular(c, 1, s) && OnTime(c, 1, s, Lead(c) + c.count * c.period + c.length, mark)
    requires s.samples + (if s.length.armed then 1 else 0) == Number(s.calls, START) <= c.count
    ensures s.samples == c.count && |s.calls| == 2 * c.count
  {
    hide Number, Alternates;
    var starts := Number(s.calls, START);
    if c.count > 0 {
      FewerPeriods(0, c.count, c.period);
      if Counting(s) && starts < c.count {
        FewerPeriods(starts, c.count, c.period);
      }
    }
  }
}
