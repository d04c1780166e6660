/** When samples start, counted over the blocks of all threads. */
module UniformTiming {
  import opened Options
  import opened Alarm
  import opened Uniform
  import opened UniformThreads

  // ----- One thread decides -----

  lemma OnlySnoc(bs: seq<Block>, b: Block, t: nat)
    ensures Only(bs + [b], t) == if b.thread == t then Only(bs, t) + [b.insts] else Only(bs, t)
  {
    assert (bs + [b])[..|bs|] == bs;
  }

  /**
   With one named thread, or one executing alone, the k-th START comes with the block after which
   that thread's total lies in window k; blocks of other threads start nothing.
   */
  lemma StartsOnTimeOfThread(c: Config, w: Tids, n: nat, bs: seq<Block>, b: Block, t: nat, threads: set<nat>, most: nat)
    requires Accepted(c) && AllName(w, n) && BlocksOf(bs + [b], threads, n, most) && t < n && Alone(bs + [b], w, t)
    requires BlocksWithin(bs, n)
    requires var s, r := RunOnThreads(c, w, n, bs), RunOnThreads(c, w, n, bs + [b]);
      Number(r.calls, START) > Number(s.calls, START)
    ensures b.thread == t
    ensures InWindow(c, most, Number(RunOnThreads(c, w, n, bs + [b]).calls, START), Total(Only(bs + [b], t)))
  {
    hide RunOnThreads, Run, Number, InWindow;
    assert Alone(bs, w, t) by {
      assert forall i :: 0 <= i < |bs| ==> bs[i] == (bs + [b])[i];
    }
    RunIsThatOfThread(c, w, n, bs, t);
    RunIsThatOfThread(c, w, n, bs + [b], t);
    OnlyKeepsSizes(bs + [b], threads, n, most, t);
    OnlySnoc(bs, b, t);
    StartsOnTime(c, most, Only(bs, t), b.insts);
  }

  /** And while fewer samples have started than asked for, that thread's total is not beyond the next window. */
  lemma StartsHappenOnThread(c: Config, w: Tids, n: nat, bs: seq<Block>, t: nat, threads: set<nat>, most: nat)
    requires Accepted(c) && AllName(w, n) && BlocksOf(bs, threads, n, most) && t < n && Alone(bs, w, t)
    requires Number(RunOnThreads(c, w, n, bs).calls, START) < c.count
    ensures var k := Number(RunOnThreads(c, w, n, bs).calls, START);
      Total(Only(bs, t)) < Lead(c) + (if c.skip.Some? && most > 0 then most - 1 else 0) + k * (c.period + most - 1) + c.period
  {
    hide RunOnThreads, Run, Number;
    RunIsThatOfThread(c, w, n, bs, t);
    OnlyKeepsSizes(bs, threads, n, most, t);
    StartsHappen(c, most, Only(bs, t));
  }

  // ----- All threads -----

  /** Instructions of all blocks. */
  function TotalOf(bs: seq<Block>): nat
    decreases |bs|
  {
    if bs == [] then 0 else TotalOf(bs[..|bs| - 1]) + bs[|bs| - 1].insts
  }

  /** What the first `m` threads have used of their periods. */
  function Spent(counts: seq<int>, period: int, m: nat): int
    requires m <= |counts|
    decreases m
  {
    if m == 0 then 0 else Spent(counts, period, m - 1) + (period - counts[m - 1])
  }

  lemma {:induction false} SpentMore(counts: seq<int>, period: int, m: nat, t: nat, k: int)
    requires m <= |counts| && t < |counts|
    ensures Spent(counts[t := counts[t] - k], period, m) == Spent(counts, period, m) + (if t < m then k else 0)
    decreases m
  {
    if m > 0 {
      SpentMore(counts, period, m - 1, t, k);
    }
  }

  lemma {:induction false} NothingSpent(n: nat, period: int, m: nat)
    requires m <= n
    ensures Spent(Filled(n, period), period, m) == 0
    decreases m
  {
    if m > 0 {
      NothingSpent(n, period, m - 1);
    }
  }

  /** No thread has used up its period. */
  ghost predicate AllLeft(counts: seq<int>, period: int, m: nat)
    requires m <= |counts|
  {
    forall t :: 0 <= t < m ==> 1 <= counts[t] <= period
  }

  lemma {:induction false} SpentBounds(counts: seq<int>, period: int, m: nat, t: nat)
    requires t < m <= |counts| && AllLeft(counts, period, m)
    ensures period - counts[t] <= Spent(counts, period, m) <= m * (period - 1)
    decreases m
  {
    assert m * (period - 1) == (m - 1) * (period - 1) + (period - 1);
    if m == 1 {
      assert Spent(counts, period, 0) == 0;
    } else {
      SpentBounds(counts, period, m - 1, if t < m - 1 then t else 0);
    }
  }

  /** Instructions executed when the last sample started, or 0. */
  function LastStart(c: Config, n: nat, bs: seq<Block>): nat
    requires n <= ALL_THREADS && BlocksWithin(bs, n)
    decreases |bs|
  {
    if bs == [] then 0
    else
      var before := bs[..|bs| - 1];
      var s, t := RunOnThreads(c, Same(ALL_THREADS), n, before), RunOnThreads(c, Same(ALL_THREADS), n, bs);
      if Number(t.calls, START) > Number(s.calls, START) then TotalOf(bs) else LastStart(c, n, before)
  }

  /** Until enough samples have stopped, each thread's period alarm counts from the last start. */
  ghost predicate CountingAll(c: Config, n: nat, m: nat, s: Threads, since: int)
    requires Sized(s, n) && m <= n
  {
    && !s.skipActive && s.skip == Unset(n) && AllArmNamed(s, Same(ALL_THREADS))
    && (s.samples < c.count ==>
          && s.period.tid == ALL_THREADS && (forall t :: 0 <= t < n ==> s.period.armed[t])
          && AllLeft(s.period.count, c.period, m) && since == Spent(s.period.count, c.period, m))
  }

  lemma CountingAllInitially(c: Config, n: nat, m: nat)
    requires Accepted(c) && c.skip.None? && n <= ALL_THREADS && m <= n
    ensures CountingAll(c, n, m, ArmedOnThreads(c, Same(ALL_THREADS), n), 0)
  {
    NothingSpent(n, c.period, m);
  }

  /** Whether this block starts a sample. */
  ghost predicate StartsNow(c: Config, s: Threads, b: Block)
    requires b.thread < |s.period.count| == |s.period.armed|
  {
    s.samples < c.count && s.period.count[b.thread] - b.insts <= 0
  }

  lemma PeriodStageCounts(c: Config, n: nat, m: nat, s: Threads, b: Block, since: int)
    requires Accepted(c) && n <= ALL_THREADS && m <= n && Sized(s, n) && CountingAll(c, n, m, s, since) && b.thread < m
    ensures var r := PeriodOnThreads(c, Same(ALL_THREADS), n, s, b); var starts := StartsNow(c, s, b);
      && r.samples == s.samples && r.calls == s.calls + (if starts then [START] else [])
      && CountingAll(c, n, m, r, if starts then 0 else since + b.insts)
  {
    SpentMore(s.period.count, c.period, m, b.thread, b.insts);
    NothingSpent(n, c.period, m);
    OwnPeriod(c, Same(ALL_THREADS), n, s, b);
  }

  lemma LengthStageCounts(c: Config, n: nat, m: nat, s: Threads, b: Block, since: int)
    requires n <= ALL_THREADS && m <= n && Sized(s, n) && CountingAll(c, n, m, s, since) && b.thread < n
    ensures var r := LengthOnThreads(n, s, b);
      (r.calls == s.calls || r.calls == s.calls + [STOP]) && CountingAll(c, n, m, r, since)
  {
    hide Advance, Fires, ArmsNamed;
    OwnLength(Same(ALL_THREADS), n, s, b);
  }

  lemma SkipStageIdle(c: Config, n: nat, s: Threads, b: Block)
    requires n <= ALL_THREADS && Sized(s, n) && s.skip == Unset(n) && b.thread < n
    ensures SkipOnThreads(c, Same(ALL_THREADS), n, s, b) == s
  {
  }

  lemma CountingAllStep(c: Config, n: nat, m: nat, s: Threads, b: Block, since: int)
    requires Accepted(c) && n <= ALL_THREADS && m <= n && Sized(s, n) && CountingAll(c, n, m, s, since) && b.thread < m
    ensures var r := StepOnThreads(c, Same(ALL_THREADS), n, s, b); var starts := StartsNow(c, s, b);
      && Number(r.calls, START) == Number(s.calls, START) + (if starts then 1 else 0)
      && CountingAll(c, n, m, r, if starts then 0 else since + b.insts)
  {
    hide PeriodOnThreads, LengthOnThreads, SkipOnThreads, Number, StartsNow, AllArmNamed;
    var p := PeriodOnThreads(c, Same(ALL_THREADS), n, s, b);
    PeriodStageCounts(c, n, m, s, b, since);
    LengthStageCounts(c, n, m, p, b, if StartsNow(c, s, b) then 0 else since + b.insts);
    SkipStageIdle(c, n, LengthOnThreads(n, p, b), b);
    NumberSnoc(s.calls, START, START);
    NumberSnoc(p.calls, STOP, START);
    assert s.calls + [] == s.calls;
  }

  /** START number `k`, when `m` threads execute, lies between these totals. */
  ghost predicate InWideWindow(c: Config, m: nat, most: nat, k: nat, total: int) {
    k * c.period <= total <= k * (m * (c.period - 1) + most)
  }

  lemma InNextWideWindow(c: Config, m: nat, most: nat, k: nat, total: nat, gap: nat)
    requires Accepted(c) && InWideWindow(c, m, most, k, total) && c.period <= gap <= m * (c.period - 1) + most
    ensures InWideWindow(c, m, most, k + 1, total + gap)
  {
    var width := m * (c.period - 1) + most;
    assert (k + 1) * c.period == k * c.period + c.period;
    assert (k + 1) * width == k * width + width;
  }

  lemma GapOfStart(c: Config, n: nat, m: nat, s: Threads, b: Block, since: int, most: nat)
    requires Accepted(c) && m <= n && Sized(s, n) && CountingAll(c, n, m, s, since) && b.thread < m
    requires StartsNow(c, s, b) && b.insts <= most
    ensures c.period <= since + b.insts <= m * (c.period - 1) + most
  {
    SpentBounds(s.period.count, c.period, m, b.thread);
  }

  lemma {:induction false} AllThreadsCount(c: Config, n: nat, m: nat, bs: seq<Block>, threads: set<nat>, most: nat)
    requires Accepted(c) && c.skip.None? && n <= ALL_THREADS && m <= n && BlocksOf(bs, threads, n, most) && BlocksWithin(bs, m)
    ensures var s, mark := RunOnThreads(c, Same(ALL_THREADS), n, bs), LastStart(c, n, bs);
      && mark <= TotalOf(bs) && CountingAll(c, n, m, s, TotalOf(bs) - mark)
      && InWideWindow(c, m, most, Number(s.calls, START), mark)
    decreases |bs|
  {
    hide StepOnThreads, Number, CountingAll, StartsNow, InWideWindow;
    if bs == [] {
      CountingAllInitially(c, n, m);
      NoneStarted(c, n, m, most);
    } else {
      var before, b := bs[..|bs| - 1], bs[|bs| - 1];
      AllThreadsCount(c, n, m, before, threads, most);
      var s, mark := RunOnThreads(c, Same(ALL_THREADS), n, before), LastStart(c, n, before);
      var since := TotalOf(before) - mark;
      CountingAllStep(c, n, m, s, b, since);
      if StartsNow(c, s, b) {
        GapOfStart(c, n, m, s, b, since, most);
        InNextWideWindow(c, m, most, Number(s.calls, START), mark, since + b.insts);
      }
    }
  }

  lemma NoneStarted(c: Config, n: nat, m: nat, most: nat)
    requires c.skip.None? && n <= ALL_THREADS
    ensures InWideWindow(c, m, most, Number(ArmedOnThreads(c, Same(ALL_THREADS), n).calls, START), 0)
  {
  }

  /**
   With the default and without skip, while `m` threads execute in any interleaving, the k-th
   START comes with the block after which their common total lies between k periods and
   k (m (period - 1) + longest block).
   */
  lemma StartsOnTimeOfAll(c: Config, n: nat, m: nat, bs: seq<Block>, b: Block, threads: set<nat>, most: nat)
    requires Accepted(c) && c.skip.None? && n <= ALL_THREADS && m <= n
    requires BlocksOf(bs + [b], threads, n, most) && BlocksWithin(bs + [b], m) && BlocksWithin(bs, n)
    requires var s, r := RunOnThreads(c, Same(ALL_THREADS), n, bs), RunOnThreads(c, Same(ALL_THREADS), n, bs + [b]);
      Number(r.calls, START) > Number(s.calls, START)
    ensures InWideWindow(c, m, most, Number(RunOnThreads(c, Same(ALL_THREADS), n, bs + [b]).calls, START), TotalOf(bs + [b]))
  {
    hide RunOnThreads, Number, InWideWindow, CountingAll;
    assert (bs + [b])[..|bs|] == bs;
    AllThreadsCount(c, n, m, bs + [b], threads, most);
  }

  /** And it does come: until enough samples have stopped, the total is not beyond the next window. */
  lemma StartsHappenOnAll(c: Config, n: nat, m: nat, bs: seq<Block>, threads: set<nat>, most: nat)
    requires Accepted(c) && c.skip.None? && n <= ALL_THREADS && 0 < m <= n && BlocksOf(bs, threads, n, most) && BlocksWithin(bs, m)
    requires RunOnThreads(c, Same(ALL_THREADS), n, bs).samples < c.count
    ensures var k := Number(RunOnThreads(c, Same(ALL_THREADS), n, bs).calls, START);
      TotalOf(bs) <= k * (m * (c.period - 1) + most) + m * (c.period - 1)
  {
    hide RunOnThreads, Number, AllArmNamed;
    AllThreadsCount(c, n, m, bs, threads, most);
    SpentBounds(RunOnThreads(c, Same(ALL_THREADS), n, bs).period.count, c.period, m, 0);
  }

  // ----- A skip with all threads -----

  lemma ByOneMore(t: nat, j: nat)
    requires j > 0
    ensures By(t, Ones(j)) == By(t, Ones(j - 1)) + [Block(t, 1)]
  {
  }

  /** Before the first sample, a thread that does not execute has its whole skip and period ahead. */
  ghost predicate Waits(c: Config, s: Threads, b: nat, n: nat, k: nat)
    requires Sized(s, n) && b < n
  {
    && s.calls == [] && s.samples == 0 && s.length == Unset(n) && TimerAt(s.skip, b) == Timer(k, true)
    && (if s.skipActive then s.period == Unset(n) else TimerAt(s.period, b) == Timer(c.period, true))
  }

  lemma WaitsStep(c: Config, n: nat, s: Threads, x: Block, b: nat, k: nat)
    requires n <= ALL_THREADS && Sized(s, n) && AllArmNamed(s, Same(ALL_THREADS)) && x.thread < n && b < n && x.thread != b
    requires c.count > 0 && Waits(c, s, b, n, k) && StepOnThreads(c, Same(ALL_THREADS), n, s, x).calls == []
    ensures Waits(c, StepOnThreads(c, Same(ALL_THREADS), n, s, x), b, n, k)
  {
    hide ArmsNamed;
    AdvanceSeen(s.period, ALL_THREADS, x, b);
    var p := PeriodOnThreads(c, Same(ALL_THREADS), n, s, x);
    assert p.calls == [] && Waits(c, p, b, n, k);
    assert LengthOnThreads(n, p, x) == p;
    AdvanceSeen(p.skip, ALL_THREADS, x, b);
  }

  lemma StepOnlyAdds(c: Config, w: Tids, n: nat, s: Threads, x: Block)
    requires AllName(w, n) && Sized(s, n) && x.thread < n
    ensures StepOnThreads(c, w, n, s, x).calls == [] ==> s.calls == []
  {
    hide Advance, Fires;
  }

  lemma {:induction false} WaitsRun(c: Config, n: nat, bs: seq<Block>, b: nat, k: nat)
    requires n <= ALL_THREADS && c.skip == Some(k) && c.count > 0 && BlocksWithin(bs, n) && b < n
    requires (forall i :: 0 <= i < |bs| ==> bs[i].thread != b) && RunOnThreads(c, Same(ALL_THREADS), n, bs).calls == []
    ensures Waits(c, RunOnThreads(c, Same(ALL_THREADS), n, bs), b, n, k)
    decreases |bs|
  {
    hide StepOnThreads, AllArmNamed;
    if bs != [] {
      var before, x := bs[..|bs| - 1], bs[|bs| - 1];
      StepOnlyAdds(c, Same(ALL_THREADS), n, RunOnThreads(c, Same(ALL_THREADS), n, before), x);
      WaitsRun(c, n, before, b, k);
      RunArmsNamed(c, Same(ALL_THREADS), n, before);
      WaitsStep(c, n, RunOnThreads(c, Same(ALL_THREADS), n, before), x, b, k);
    }
  }

  /** Thread `a` ends the skipping; thread `b` still has its whole skip ahead. */
  lemma SkipEndsForOne(c: Config, n: nat, a: nat, b: nat, k: nat)
    requires Accepted(c) && c.skip == Some(k) && c.count > 0 && a < n <= ALL_THREADS && b < n && a != b
    ensures var s := RunOnThreads(c, Same(ALL_THREADS), n, By(a, Ones(Lead(c))));
      Seen(s, b, n) == Sampler(Timer(c.period, true), Timer(0, false), Timer(k, true), false, 0, [])
  {
    hide RunOnThreads, Run;
    var bs := By(a, Ones(Lead(c)));
    var ks := EndSkipping(c, 1);
    OnlyBy(a, Ones(Lead(c)));
    RunIsThatOfThread(c, Same(ALL_THREADS), n, bs, a);
    WaitsRun(c, n, bs, b, k);
  }

  lemma {:induction false} OnesOnThreads(c: Config, n: nat, bs: seq<Block>, b: nat, j: nat)
    requires n <= ALL_THREADS && BlocksWithin(bs, n) && b < n
    requires var s := Seen(RunOnThreads(c, Same(ALL_THREADS), n, bs), b, n);
      j > 0 ==> Pending(s.period, j) && Pending(s.length, j) && Pending(s.skip, j)
    ensures BlocksWithin(bs + By(b, Ones(j)), n)
    ensures Seen(RunOnThreads(c, Same(ALL_THREADS), n, bs + By(b, Ones(j))), b, n)
         == ElapseAll(Seen(RunOnThreads(c, Same(ALL_THREADS), n, bs), b, n), j)
    decreases j
  {
    hide RunOnThreads, StepOnThreads, Step, Seen, ElapseAll, AllArmNamed;
    if j == 0 {
      assert bs + By(b, Ones(0)) == bs;
      NothingElapses(Seen(RunOnThreads(c, Same(ALL_THREADS), n, bs), b, n));
    } else {
      OnesOnThreads(c, n, bs, b, j - 1);
      var before := bs + By(b, Ones(j - 1));
      OneMoreElapses(c, Seen(RunOnThreads(c, Same(ALL_THREADS), n, bs), b, n), j - 1);
      RunArmsNamed(c, Same(ALL_THREADS), n, before);
      OwnBlockIsStep(c, Same(ALL_THREADS), n, RunOnThreads(c, Same(ALL_THREADS), n, before), Block(b, 1));
      RunOnThreadsSnoc(c, Same(ALL_THREADS), n, before, Block(b, 1));
      ByOneMore(b, j);
      assert bs + By(b, Ones(j)) == before + [Block(b, 1)];
    }
  }

  /**
   With the default and a skip shorter than the period, a second thread that works off its own
   skip starts a sample at once, long before the first period is over.
   */
  lemma SecondSkipStarts(c: Config, n: nat, a: nat, b: nat, k: nat)
    requires Accepted(c) && c.skip == Some(k) && c.count > 0 && Lead(c) < c.period && a < n <= ALL_THREADS && b < n && a != b
    ensures var bs := By(a, Ones(Lead(c))) + By(b, Ones(Lead(c)));
      && BlocksWithin(bs, n) && |bs| == 2 * Lead(c) < Lead(c) + c.period
      && RunOnThreads(c, Same(ALL_THREADS), n, bs).calls == [START]
  {
    hide RunOnThreads, StepOnThreads, Step, AllArmNamed;
    var first, j := By(a, Ones(Lead(c))), Lead(c) - 1;
    OnesCount(Lead(c));
    SkipEndsForOne(c, n, a, b, k);
    OnesOnThreads(c, n, first, b, j);
    var before := first + By(b, Ones(j));
    RunArmsNamed(c, Same(ALL_THREADS), n, before);
    OwnBlockIsStep(c, Same(ALL_THREADS), n, RunOnThreads(c, Same(ALL_THREADS), n, before), Block(b, 1));
    SkipStarts(c, Seen(RunOnThreads(c, Same(ALL_THREADS), n, before), b, n));
    RunOnThreadsSnoc(c, Same(ALL_THREADS), n, before, Block(b, 1));
    ByOneMore(b, j + 1);
    assert first + By(b, Ones(j + 1)) == before + [Block(b, 1)];
  }

  lemma SkipStarts(c: Config, s: Sampler)
    requires s.samples < c.count && !s.skipActive && !s.length.armed && s.calls == []
    requires s.period.armed && s.period.left > 1 && s.skip.armed && s.skip.left <= 1
    ensures Step(c, s, 1).calls == [START]
  {
  }

  lemma {:induction false} OnesCount(k: nat)
    ensures |Ones(k)| == k
    decreases k
  {
    if k > 0 {
      OnesCount(k - 1);
    }
  }
}
