/**
 Which settings keep START and STOP in order, for alarms on named threads or on all, and for runs
 that reach the number of samples or not.
 */
module UniformOrder {
  import opened Options
  import opened Alarm
  import opened Uniform
  import opened UniformThreads

  // ----- One block seen by every thread -----

  /** What a thread sees of a step that only another thread's alarms took part in. */
  function Aside(v: Sampler, r: Threads): Sampler {
    v.(skipActive := r.skipActive, samples := r.samples, calls := r.calls)
  }

  /** Neither period nor skip alarm is due: the block counts down, and may stop a sample. */
  lemma NoStartStep(c: Config, w: Tids, n: nat, s: Threads, b: Block)
    requires AllName(w, n) && Sized(s, n) && AllArmNamed(s, w) && b.thread < n
    requires var v := Seen(s, b.thread, n); Pending(v.period, b.insts) && Pending(v.skip, b.insts)
    ensures var r := StepOnThreads(c, w, n, s, b);
      && r.skipActive == s.skipActive
      && forall t :: 0 <= t < n ==>
           Seen(r, t, n) == if t == b.thread then Step(c, Seen(s, t, n), b.insts) else Aside(Seen(s, t, n), r)
  {
    hide Advance, Fires, ArmsNamed, TimerAt, StartOnThreads, OnStart;
    var x := b.thread;
    AdvanceSeen(s.period, w.period, b, x);
    var p := PeriodOnThreads(c, w, n, s, b);
    AdvanceSeen(p.length, w.length, b, x);
    var l := LengthOnThreads(n, p, b);
    AdvanceSeen(l.skip, w.skip, b, x);
    forall t | 0 <= t < n
      ensures Seen(StepOnThreads(c, w, n, s, b), t, n)
           == if t == x then Step(c, Seen(s, t, n), b.insts) else Aside(Seen(s, t, n), StepOnThreads(c, w, n, s, b))
    {
      AdvanceSeen(s.period, w.period, b, t);
      AdvanceSeen(p.length, w.length, b, t);
      AdvanceSeen(l.skip, w.skip, b, t);
    }
  }

  /** The period alarm is due, and its handler sets both alarms for the threads that they name. */
  lemma StartStep(c: Config, w: Tids, n: nat, s: Threads, b: Block)
    requires AllName(w, n) && Sized(s, n) && AllArmNamed(s, w) && b.thread < n && BothCover(w, b.thread)
    requires !s.skipActive && s.samples < c.count
    requires var v := Seen(s, b.thread, n); Expires(v.period, b.insts) && Pending(v.skip, b.insts)
    ensures var r := StepOnThreads(c, w, n, s, b);
      && Seen(r, b.thread, n) == Step(c, Seen(s, b.thread, n), b.insts)
      && forall t :: 0 <= t < n && t != b.thread ==>
           var v := Seen(s, t, n);
           Seen(r, t, n) == Aside(v.(period := if Covers(w.period, t) then Timer(c.period, true) else v.period,
                                     length := if Covers(w.length, t) then Timer(c.length, true) else v.length), r)
  {
    hide Advance, Fires, ArmsNamed, TimerAt, SetOn, Step;
    var x := b.thread;
    OwnBlockIsStep(c, w, n, s, b);
    AdvanceSeen(s.period, w.period, b, x);
    var a := Advance(s.period, b, 0, 0);
    SetSeen(a, w.period, c.period, x);
    SetSeen(s.length, w.length, c.length, x);
    var p := PeriodOnThreads(c, w, n, s, b);
    AdvanceSeen(p.length, w.length, b, x);
    var l := LengthOnThreads(n, p, b);
    AdvanceSeen(l.skip, w.skip, b, x);
    forall t | 0 <= t < n && t != x
      ensures var v := Seen(s, t, n); var r := StepOnThreads(c, w, n, s, b);
        Seen(r, t, n) == Aside(v.(period := if Covers(w.period, t) then Timer(c.period, true) else v.period,
                                  length := if Covers(w.length, t) then Timer(c.length, true) else v.length), r)
    {
      AdvanceSeen(s.period, w.period, b, t);
      SetSeen(a, w.period, c.period, t);
      SetSeen(s.length, w.length, c.length, t);
      AdvanceSeen(p.length, w.length, b, t);
      AdvanceSeen(l.skip, w.skip, b, t);
    }
  }

  /** The skip alarm is due, with all alarms on every thread. */
  lemma SkipStep(c: Config, n: nat, s: Threads, b: Block)
    requires n <= ALL_THREADS && Sized(s, n) && AllArmNamed(s, Same(ALL_THREADS)) && b.thread < n && s.samples < c.count
    requires var v := Seen(s, b.thread, n); Pending(v.period, b.insts) && Pending(v.length, b.insts) && Expires(v.skip, b.insts)
    ensures var r := StepOnThreads(c, Same(ALL_THREADS), n, s, b);
      && Seen(r, b.thread, n) == Step(c, Seen(s, b.thread, n), b.insts)
      && forall t :: 0 <= t < n && t != b.thread ==>
           var v := Seen(s, t, n);
           Seen(r, t, n) == Aside(v.(period := Timer(c.period, true),
                                     length := if s.skipActive then v.length else Timer(c.length, true)), r)
  {
    hide Advance, Fires, ArmsNamed, TimerAt, SetOn, Step;
    var x := b.thread;
    OwnBlockIsStep(c, Same(ALL_THREADS), n, s, b);
    AdvanceSeen(s.period, ALL_THREADS, b, x);
    var p := PeriodOnThreads(c, Same(ALL_THREADS), n, s, b);
    AdvanceSeen(p.length, ALL_THREADS, b, x);
    var l := LengthOnThreads(n, p, b);
    AdvanceSeen(l.skip, ALL_THREADS, b, x);
    forall t | 0 <= t < n && t != x
      ensures var v := Seen(s, t, n); var r := StepOnThreads(c, Same(ALL_THREADS), n, s, b);
        Seen(r, t, n) == Aside(v.(period := Timer(c.period, true),
                                  length := if s.skipActive then v.length else Timer(c.length, true)), r)
    {
      AdvanceSeen(s.period, ALL_THREADS, b, t);
      AdvanceSeen(p.length, ALL_THREADS, b, t);
      AdvanceSeen(l.skip, ALL_THREADS, b, t);
      SetSeen(l.period, ALL_THREADS, c.period, t);
      SetSeen(l.length, ALL_THREADS, c.length, t);
    }
  }

  // ----- Stretches of one thread -----

  /** Thread `x` executes `k` blocks of one instruction and no alarm is due. */
  lemma {:induction false} IdleRun(c: Config, w: Tids, n: nat, bs: seq<Block>, x: nat, threads: set<nat>, k: nat)
    returns (more: seq<Block>)
    requires AllName(w, n) && BlocksOf(bs, threads, n, 1) && x < n && x in threads
    requires var v := Seen(RunOnThreads(c, w, n, bs), x, n);
      k > 0 ==> Pending(v.period, k) && Pending(v.length, k) && Pending(v.skip, k)
    ensures BlocksOf(more, threads, n, 1) && |more| == |bs| + k
    ensures forall t :: 0 <= t < n ==>
      var v := Seen(RunOnThreads(c, w, n, bs), t, n);
      Seen(RunOnThreads(c, w, n, more), t, n) == if t == x then ElapseAll(v, k) else v
    decreases k
  {
    hide StepOnThreads, Step, AllArmNamed;
    if k == 0 {
      more := bs;
    } else {
      var before := IdleRun(c, w, n, bs, x, threads, k - 1);
      var s := RunOnThreads(c, w, n, before);
      RunArmsNamed(c, w, n, before);
      RunOnThreadsSnoc(c, w, n, before, Block(x, 1));
      OneMoreElapses(c, Seen(RunOnThreads(c, w, n, bs), x, n), k - 1);
      NoStartStep(c, w, n, s, Block(x, 1));
      more := before + [Block(x, 1)];
    }
  }

  /** Instructions until an alarm is due. */
  function Due(t: Timer): nat {
    if t.left <= 1 then 1 else t.left
  }

  lemma PendingSooner(t: Timer, k: nat, j: nat)
    requires Pending(t, k) && j <= k
    ensures Pending(t, j)
  {
  }

  lemma StopStep(c: Config, v: Sampler)
    requires v.length.armed && Pending(v.period, Due(v.length)) && Pending(v.skip, Due(v.length))
    ensures var r := Step(c, v, 1);
      && r.skipActive == v.skipActive
      && if v.length.left <= 1 then r.calls == v.calls + [STOP] && r.samples == v.samples + 1
         else r.calls == v.calls && r.samples == v.samples && r.length == Timer(v.length.left - 1, true)
              && Pending(r.period, Due(r.length)) && Pending(r.skip, Due(r.length))
  {
  }

  /** Thread `x` executes until its length alarm is due, and stops a sample. */
  lemma {:induction false} StopBy(c: Config, w: Tids, n: nat, bs: seq<Block>, x: nat, threads: set<nat>) returns (more: seq<Block>)
    requires AllName(w, n) && BlocksOf(bs, threads, n, 1) && x < n && x in threads
    requires var v := Seen(RunOnThreads(c, w, n, bs), x, n);
      v.length.armed && Pending(v.period, Due(v.length)) && Pending(v.skip, Due(v.length))
    ensures BlocksOf(more, threads, n, 1) && |more| == |bs| + Due(Seen(RunOnThreads(c, w, n, bs), x, n).length)
    ensures var s, r := RunOnThreads(c, w, n, bs), RunOnThreads(c, w, n, more);
      && r.calls == s.calls + [STOP] && r.samples == s.samples + 1 && r.skipActive == s.skipActive
      && forall t :: 0 <= t < n && t != x ==> Seen(r, t, n) == Aside(Seen(s, t, n), r)
    decreases Due(Seen(RunOnThreads(c, w, n, bs), x, n).length)
  {
    hide StepOnThreads, AllArmNamed, Step, Pending, RunOnThreads, TimerAt;
    var s := RunOnThreads(c, w, n, bs);
    var v := Seen(s, x, n);
    RunArmsNamed(c, w, n, bs);
    RunOnThreadsSnoc(c, w, n, bs, Block(x, 1));
    PendingSooner(v.period, Due(v.length), 1);
    PendingSooner(v.skip, Due(v.length), 1);
    NoStartStep(c, w, n, s, Block(x, 1));
    StopStep(c, v);
    more := bs + [Block(x, 1)];
    if v.length.left > 1 {
      more := StopBy(c, w, n, more, x, threads);
    }
  }

  // ----- Two threads, without a skip -----

  /** Thread `a` executes its first period: a sample starts, and every thread is armed on its length. */
  lemma FirstStart(c: Config, w: Tids, n: nat, a: nat, b: nat, threads: set<nat>) returns (bs: seq<Block>)
    requires Accepted(c) && c.count > 0 && c.skip.None? && AllName(w, n) && a < n && b < n && a != b && a in threads
    requires Covers(w.period, a) && w.length == ALL_THREADS
    ensures BlocksOf(bs, threads, n, 1) && |bs| == c.period
    ensures var r := RunOnThreads(c, w, n, bs);
      var calls := if c.length <= 1 then [START, STOP] else [START];
      && Seen(r, a, n) == Sampler(Timer(c.period, true), Timer(c.length - 1, c.length > 1), OFF, false, |calls| - 1, calls)
      && Seen(r, b, n) == Sampler(if Covers(w.period, b) then Timer(c.period, true) else OFF, Timer(c.length, true), OFF, false,
                                  |calls| - 1, calls)
  {
    hide RunOnThreads, StepOnThreads, AllArmNamed, Step, ElapseAll, TimerAt;
    Unstarted(c, w, n, a);
    Unstarted(c, w, n, b);
    bs := IdleRun(c, w, n, [], a, threads, c.period - 1);
    RunArmsNamed(c, w, n, bs);
    RunOnThreadsSnoc(c, w, n, bs, Block(a, 1));
    FirstStartStep(c);
    StartStep(c, w, n, RunOnThreads(c, w, n, bs), Block(a, 1));
    bs := bs + [Block(a, 1)];
  }

  lemma FirstStartStep(c: Config)
    requires Accepted(c) && c.count > 0
    ensures var v := ElapseAll(Sampler(Timer(c.period, true), OFF, OFF, false, 0, []), c.period - 1);
      var calls := if c.length <= 1 then [START, STOP] else [START];
      && v == Sampler(Timer(1, true), OFF, OFF, false, 0, [])
      && Step(c, v, 1) == Sampler(Timer(c.period, true), Timer(c.length - 1, c.length > 1), OFF, false, |calls| - 1, calls)
  {
    assert [] + [START] == [START] && [START] + [STOP] == [START, STOP];
  }

  lemma Unstarted(c: Config, w: Tids, n: nat, t: nat)
    requires c.skip.None? && AllName(w, n) && t < n
    ensures Seen(RunOnThreads(c, w, n, []), t, n)
         == Sampler(if Covers(w.period, t) then Timer(c.period, true) else OFF, OFF, OFF, false, 0, [])
  {
  }

  /**
   Two threads are enough to lose the order when the length alarm is on every thread. One of them
   executes a period, the other a length, and the first the rest of its length: START, STOP, STOP.
   Only a period of one instruction on all threads escapes, where each block starts anew.
   */
  lemma TwoThreadsLose(c: Config, w: Tids, n: nat, a: nat, b: nat, threads: set<nat>) returns (bs: seq<Block>)
    requires Accepted(c) && c.count > 0 && c.skip.None? && AllName(w, n)
    requires a < n && b < n && a != b && a in threads && b in threads
    requires Covers(w.period, a) && w.length == ALL_THREADS && (c.period >= 2 || w.period != ALL_THREADS)
    ensures BlocksOf(bs, threads, n, 1) && |bs| <= c.period + 2 * c.length + 1
    ensures var s := RunOnThreads(c, w, n, bs); s.calls == [START, STOP, STOP] && s.samples == 2
  {
    hide RunOnThreads;
    bs := FirstStart(c, w, n, a, b, threads);
    assert Seen(RunOnThreads(c, w, n, bs), b, n).calls == RunOnThreads(c, w, n, bs).calls;
    bs := StopBy(c, w, n, bs, b, threads);
    if c.length > 1 {
      assert Seen(RunOnThreads(c, w, n, bs), a, n).length == Timer(c.length - 1, true);
      bs := StopBy(c, w, n, bs, a, threads);
    }
  }

  // ----- Two threads, with a skip -----

  /** Thread `a` has ended the skipping; the skip alarm of thread `b` is due with its next block. */
  lemma SkipOfTwo(c: Config, n: nat, a: nat, b: nat, threads: set<nat>) returns (bs: seq<Block>)
    requires Accepted(c) && c.count > 0 && c.skip.Some? && n <= ALL_THREADS
    requires a < n && b < n && a != b && a in threads && b in threads
    ensures BlocksOf(bs, threads, n, 1) && |bs| < 2 * Lead(c)
    ensures var r, left := RunOnThreads(c, Same(ALL_THREADS), n, bs), c.skip.value - (Lead(c) - 1);
      && left <= 1 && !Seen(r, a, n).skip.armed
      && Seen(r, a, n) == Sampler(Timer(c.period, true), OFF, Seen(r, a, n).skip, false, 0, [])
      && Seen(r, b, n) == Sampler(Timer(c.period, true), OFF, Timer(left, true), false, 0, [])
  {
    hide RunOnThreads, StepOnThreads, AllArmNamed;
    var w, k: nat := Same(ALL_THREADS), Lead(c) - 1;
    Unskipped(c, n, a);
    Unskipped(c, n, b);
    bs := IdleRun(c, w, n, [], b, threads, k);
    bs := IdleRun(c, w, n, bs, a, threads, k);
    RunArmsNamed(c, w, n, bs);
    RunOnThreadsSnoc(c, w, n, bs, Block(a, 1));
    SkipStep(c, n, RunOnThreads(c, w, n, bs), Block(a, 1));
    bs := bs + [Block(a, 1)];
  }

  lemma Unskipped(c: Config, n: nat, t: nat)
    requires c.skip.Some? && n <= ALL_THREADS && t < n
    ensures Seen(RunOnThreads(c, Same(ALL_THREADS), n, []), t, n)
         == Sampler(OFF, OFF, Timer(c.skip.value, true), true, 0, [])
  {
  }

  /** With the default, the second end of a skip starts a sample, which both threads stop. */
  lemma SkipLoses(c: Config, n: nat, a: nat, b: nat, threads: set<nat>) returns (bs: seq<Block>)
    requires Accepted(c) && c.count > 0 && c.skip.Some? && c.period >= 2 && n <= ALL_THREADS
    requires a < n && b < n && a != b && a in threads && b in threads
    ensures BlocksOf(bs, threads, n, 1) && |bs| <= 2 * Lead(c) + 2 * c.length + 2
    ensures var s := RunOnThreads(c, Same(ALL_THREADS), n, bs); s.calls == [START, STOP, STOP] && s.samples == 2
  {
    hide RunOnThreads, StepOnThreads, AllArmNamed;
    var w := Same(ALL_THREADS);
    bs := SkipOfTwo(c, n, a, b, threads);
    RunArmsNamed(c, w, n, bs);
    RunOnThreadsSnoc(c, w, n, bs, Block(b, 1));
    SkipStep(c, n, RunOnThreads(c, w, n, bs), Block(b, 1));
    bs := bs + [Block(b, 1)];
    assert Seen(RunOnThreads(c, w, n, bs), b, n).calls == [START] == RunOnThreads(c, w, n, bs).calls;
    bs := StopBy(c, w, n, bs, b, threads);
    assert Seen(RunOnThreads(c, w, n, bs), a, n).length == Timer(c.length, true);
    bs := StopBy(c, w, n, bs, a, threads);
  }

  /** The same with a period of one instruction: the start at the end of the skip is followed by the next one. */
  lemma ShortSkipLoses(c: Config, n: nat, a: nat, b: nat, threads: set<nat>) returns (bs: seq<Block>)
    requires Accepted(c) && c.count > 1 && c.skip.Some? && c.period == 1 && n <= ALL_THREADS
    requires a < n && b < n && a != b && a in threads && b in threads
    ensures BlocksOf(bs, threads, n, 1) && |bs| <= 2 * Lead(c) + 1
    ensures var s := RunOnThreads(c, Same(ALL_THREADS), n, bs); !Alternates(s.calls) && s.samples <= 2
  {
    hide RunOnThreads, StepOnThreads, AllArmNamed;
    var w := Same(ALL_THREADS);
    bs := SkipOfTwo(c, n, a, b, threads);
    var s := RunOnThreads(c, w, n, bs);
    RunArmsNamed(c, w, n, bs);
    RunOnThreadsSnoc(c, w, n, bs, Block(b, 1));
    OwnBlockIsStep(c, w, n, s, Block(b, 1));
    bs := bs + [Block(b, 1)];
    var r := RunOnThreads(c, w, n, bs);
    assert Seen(r, b, n).calls == [START, STOP, START] && Seen(r, b, n).samples == 1;
    RunArmsNamed(c, w, n, bs);
    RunOnThreadsSnoc(c, w, n, bs, Block(b, 1));
    OwnBlockIsStep(c, w, n, r, Block(b, 1));
    bs := bs + [Block(b, 1)];
    assert RunOnThreads(c, w, n, bs).calls[2] == RunOnThreads(c, w, n, bs).calls[3] == START;
  }

  // ----- Alarms on different threads -----

  /** One block of a thread that neither the length alarm covers nor the skip alarm still counts. */
  lemma PeriodOnly(c: Config, w: Tids, n: nat, s: Threads, t: nat)
    requires AllName(w, n) && Sized(s, n) && AllArmNamed(s, w) && t < n && Covers(w.period, t) && !Covers(w.length, t)
    requires !s.skipActive && !s.skip.armed[t] && s.samples < c.count && s.period.armed[t]
    ensures var r := StepOnThreads(c, w, n, s, Block(t, 1)); var fires := s.period.count[t] <= 1;
      && !r.skipActive && !r.skip.armed[t] && r.samples == s.samples
      && r.calls == s.calls + (if fires then [START] else [])
      && TimerAt(r.period, t) == Timer(if fires then c.period else s.period.count[t] - 1, true)
  {
    hide ArmsNamed;
    AdvanceSeen(s.period, w.period, Block(t, 1), t);
    SetSeen(Advance(s.period, Block(t, 1), 0, 0), w.period, c.period, t);
    var p := PeriodOnThreads(c, w, n, s, Block(t, 1));
    assert !p.length.armed[t] by {
      PeriodKeepsLengthOff(c, w, n, s, Block(t, 1));
    }
    assert LengthOnThreads(n, p, Block(t, 1)) == p;
  }

  lemma PeriodKeepsLengthOff(c: Config, w: Tids, n: nat, s: Threads, b: Block)
    requires AllName(w, n) && Sized(s, n) && AllArmNamed(s, w) && b.thread < n && !Covers(w.length, b.thread)
    ensures !PeriodOnThreads(c, w, n, s, b).length.armed[b.thread]
  {
    hide Advance, Fires;
  }

  /** Left alone, the thread of the period alarm starts a sample whenever the alarm is due. */
  lemma {:induction false} NextStart(c: Config, w: Tids, n: nat, bs: seq<Block>, t: nat, threads: set<nat>) returns (more: seq<Block>)
    requires AllName(w, n) && BlocksOf(bs, threads, n, 1) && t < n && t in threads && Covers(w.period, t) && !Covers(w.length, t)
    requires var s := RunOnThreads(c, w, n, bs); !s.skipActive && !s.skip.armed[t] && s.samples < c.count && s.period.armed[t]
    ensures BlocksOf(more, threads, n, 1)
    ensures var s, r := RunOnThreads(c, w, n, bs), RunOnThreads(c, w, n, more);
      && !r.skipActive && !r.skip.armed[t] && r.samples == s.samples && r.period.armed[t]
      && r.calls == s.calls + [START]
    decreases RunOnThreads(c, w, n, bs).period.count[t]
  {
    hide StepOnThreads, AllArmNamed;
    var s := RunOnThreads(c, w, n, bs);
    RunArmsNamed(c, w, n, bs);
    PeriodOnly(c, w, n, s, t);
    RunOnThreadsSnoc(c, w, n, bs, Block(t, 1));
    more := bs + [Block(t, 1)];
    if s.period.count[t] > 1 {
      assert s.calls + [] == s.calls;
      more := NextStart(c, w, n, more, t, threads);
    }
  }

  /** With a length alarm on another thread than the period alarm's, that thread can start a second sample inside the first. */
  lemma DifferentThreadsLose(c: Config, w: Tids, n: nat, t: nat, threads: set<nat>) returns (bs: seq<Block>)
    requires Accepted(c) && c.count > 0 && c.skip.None? && AllName(w, n) && t < n && t in threads
    requires Covers(w.period, t) && !Covers(w.length, t)
    ensures BlocksOf(bs, threads, n, 1)
    ensures var s := RunOnThreads(c, w, n, bs); s.calls == [START, START] && s.samples == 0
  {
    hide RunOnThreads;
    StartsArmed(c, w, n, t);
    bs := NextStart(c, w, n, [], t, threads);
    bs := NextStart(c, w, n, bs, t, threads);
  }

  lemma StartsArmed(c: Config, w: Tids, n: nat, t: nat)
    requires c.skip.None? && AllName(w, n) && t < n && Covers(w.period, t)
    ensures var s := RunOnThreads(c, w, n, []);
      !s.skipActive && !s.skip.armed[t] && s.samples == 0 && s.period.armed[t] && s.calls == []
  {
  }

  // ----- When the number of samples is reached -----

  /** While thread `b` does not execute, it is armed on a whole length from the first sample on. */
  ghost predicate Untouched(c: Config, s: Threads, b: nat, n: nat)
    requires Sized(s, n) && b < n
  {
    TimerAt(s.length, b) == Timer(c.length, true) || (s.calls == [] && s.length == Unset(n))
  }

  lemma UntouchedStart(c: Config, n: nat, s: Threads, b: nat)
    requires n <= ALL_THREADS && Sized(s, n) && AllArmNamed(s, Same(ALL_THREADS)) && b < n && Untouched(c, s, b, n)
    ensures Untouched(c, StartOnThreads(c, Same(ALL_THREADS), n, s), b, n)
  {
    hide SetOn, ArmsNamed, TimerAt;
    SetSeen(s.length, ALL_THREADS, c.length, b);
  }

  lemma UntouchedLength(c: Config, n: nat, s: Threads, x: Block, b: nat)
    requires n <= ALL_THREADS && Sized(s, n) && AllArmNamed(s, Same(ALL_THREADS)) && x.thread < n && b < n && x.thread != b
    requires Untouched(c, s, b, n)
    ensures Untouched(c, LengthOnThreads(n, s, x), b, n)
  {
    hide ArmsNamed;
    AdvanceSeen(s.length, ALL_THREADS, x, b);
  }

  lemma UntouchedStep(c: Config, n: nat, s: Threads, x: Block, b: nat)
    requires n <= ALL_THREADS && Sized(s, n) && AllArmNamed(s, Same(ALL_THREADS)) && x.thread < n && b < n && x.thread != b
    requires Untouched(c, s, b, n)
    ensures Untouched(c, StepOnThreads(c, Same(ALL_THREADS), n, s, x), b, n)
  {
    hide Advance, Fires, ArmsNamed, TimerAt, StartOnThreads, LengthOnThreads;
    AdvanceSeen(s.period, ALL_THREADS, x, x.thread);
    UntouchedStart(c, n, s.(period := Advance(s.period, x, 0, 0)), b);
    var p := PeriodOnThreads(c, Same(ALL_THREADS), n, s, x);
    OwnPeriod(c, Same(ALL_THREADS), n, s, x);
    UntouchedLength(c, n, p, x, b);
    var l := LengthOnThreads(n, p, x);
    OwnLength(Same(ALL_THREADS), n, p, x);
    AdvanceSeen(l.skip, ALL_THREADS, x, x.thread);
    UntouchedStart(c, n, l.(skip := Advance(l.skip, x, 0, 0)), b);
  }

  lemma {:induction false} UntouchedRun(c: Config, n: nat, bs: seq<Block>, b: nat)
    requires n <= ALL_THREADS && BlocksWithin(bs, n) && b < n && forall i :: 0 <= i < |bs| ==> bs[i].thread != b
    ensures Untouched(c, RunOnThreads(c, Same(ALL_THREADS), n, bs), b, n)
    decreases |bs|
  {
    hide StepOnThreads, AllArmNamed;
    if bs != [] {
      var before, x := bs[..|bs| - 1], bs[|bs| - 1];
      UntouchedRun(c, n, before, b);
      RunArmsNamed(c, Same(ALL_THREADS), n, before);
      UntouchedStep(c, n, RunOnThreads(c, Same(ALL_THREADS), n, before), x, b);
    }
  }

  /** With all samples taken, only the length alarm still does something: it stops once more when it is due. */
  lemma StepWhenDone(c: Config, s: Sampler)
    requires s.samples >= c.count && s.length.armed
    ensures var t := Step(c, s, 1);
      t.samples >= c.count
      && if s.length.left <= 1 then t.calls == s.calls + [STOP] && t.samples == s.samples + 1
         else t.calls == s.calls && t.samples == s.samples && t.length == Timer(s.length.left - 1, true)
  {
  }

  lemma {:induction false} StopsOnceMore(c: Config, n: nat, bs: seq<Block>, b: nat, threads: set<nat>, left: nat) returns (more: seq<Block>)
    requires n <= ALL_THREADS && BlocksOf(bs, threads, n, 1) && b < n && b in threads
    requires var s := RunOnThreads(c, Same(ALL_THREADS), n, bs); s.samples >= c.count && TimerAt(s.length, b) == Timer(left, true)
    ensures BlocksOf(more, threads, n, 1)
    ensures var s, t := RunOnThreads(c, Same(ALL_THREADS), n, bs), RunOnThreads(c, Same(ALL_THREADS), n, more);
      t.calls == s.calls + [STOP] && t.samples == s.samples + 1
    decreases left
  {
    hide StepOnThreads, Step, AllArmNamed;
    var s, x := RunOnThreads(c, Same(ALL_THREADS), n, bs), Block(b, 1);
    RunArmsNamed(c, Same(ALL_THREADS), n, bs);
    OwnBlockIsStep(c, Same(ALL_THREADS), n, s, x);
    StepWhenDone(c, Seen(s, b, n));
    RunOnThreadsSnoc(c, Same(ALL_THREADS), n, bs, x);
    more := bs + [x];
    if left > 1 {
      more := StopsOnceMore(c, n, more, b, threads, left - 1);
    }
  }

  /**
   With the default and a number of samples to reach, any two threads have a run in which one
   takes all the samples, and then the other, still armed from the last one, stops it a second
   time. The count of samples passes the number asked for.
   */
  lemma CountIsPassed(c: Config, n: nat, a: nat, b: nat, threads: set<nat>) returns (bs: seq<Block>)
    requires Accepted(c) && c.count > 0 && n <= ALL_THREADS && a < n && b < n && a != b && a in threads && b in threads
    ensures BlocksOf(bs, threads, n, 1) && !Alternates(RunOnThreads(c, Same(ALL_THREADS), n, bs).calls)
    ensures RunOnThreads(c, Same(ALL_THREADS), n, bs).samples == c.count + 1
  {
    hide RunOnThreads, Run, Untouched;
    var k := AllSamplesTaken(c);
    OnesAreBlocks(k, 1);
    bs := By(a, Ones(k));
    OnlyBy(a, Ones(k));
    RunIsThatOfThread(c, Same(ALL_THREADS), n, bs, a);
    UntouchedRun(c, n, bs, b);
    var s := RunOnThreads(c, Same(ALL_THREADS), n, bs);
    assert TimerAt(s.length, b) == Timer(c.length, true) by {
      UntouchedMeans(c, s, b, n);
    }
    bs := StopsOnceMore(c, n, bs, b, threads, c.length);
    assert RunOnThreads(c, Same(ALL_THREADS), n, bs).calls[2 * c.count] == STOP;
  }

  lemma UntouchedMeans(c: Config, s: Threads, b: nat, n: nat)
    requires Sized(s, n) && b < n && Untouched(c, s, b, n) && s.calls != []
    ensures TimerAt(s.length, b) == Timer(c.length, true)
  {
  }

  // ----- Which settings alternate -----

  /** No thread that executes is one of the period alarm's. */
  ghost predicate NeverStarts(w: Tids, threads: set<nat>) {
    forall t :: t in threads ==> !Covers(w.period, t)
  }

  /** One thread decides period and length, by name or by executing alone, and no block of it outruns a sample. */
  ghost predicate OneThreadFits(c: Config, w: Tids, threads: set<nat>, most: nat) {
    Roomy(c, most) && (w.period == w.length != ALL_THREADS || exists t :: threads == {t} && BothCover(w, t))
  }

  /** Every thread counts the period of one instruction, and there is no skip. */
  predicate StartsEachBlock(c: Config, w: Tids) {
    w.period == w.length == ALL_THREADS && c.period == 1 && c.skip.None?
  }

  /** There is no skip, or the three knobs name the same. */
  predicate Plain(c: Config, w: Tids) {
    c.skip.None? || w == Same(w.period)
  }

  lemma {:induction false} QuietRun(c: Config, w: Tids, n: nat, bs: seq<Block>, threads: set<nat>, most: nat)
    requires c.skip.None? && AllName(w, n) && BlocksOf(bs, threads, n, most) && NeverStarts(w, threads)
    ensures RunOnThreads(c, w, n, bs) == ArmedOnThreads(c, w, n)
    decreases |bs|
  {
    hide StepOnThreads;
    if bs != [] {
      var before, b := bs[..|bs| - 1], bs[|bs| - 1];
      assert b.thread in threads;
      QuietRun(c, w, n, before, threads, most);
      UnarmedBlockChangesNothing(c, w, n, RunOnThreads(c, w, n, before), b);
    }
  }

  /** Without a skip it does not matter what its knob names. */
  lemma {:induction false} SkipTidIsIdle(c: Config, w: Tids, n: nat, bs: seq<Block>, tid: nat)
    requires c.skip.None? && AllName(w, n) && Names(tid, n) && BlocksWithin(bs, n)
    ensures RunOnThreads(c, w, n, bs) == RunOnThreads(c, w.(skip := tid), n, bs)
    ensures RunOnThreads(c, w, n, bs).skip == Unset(n)
    decreases |bs|
  {
    hide PeriodOnThreads, LengthOnThreads;
    if bs != [] {
      var before, b := bs[..|bs| - 1], bs[|bs| - 1];
      SkipTidIsIdle(c, w, n, before, tid);
      PeriodIgnoresSkipTid(c, w, n, RunOnThreads(c, w, n, before), b, tid);
    }
  }

  lemma PeriodIgnoresSkipTid(c: Config, w: Tids, n: nat, s: Threads, b: Block, tid: nat)
    requires AllName(w, n) && Names(tid, n) && Sized(s, n) && b.thread < n && s.skip == Unset(n)
    ensures PeriodOnThreads(c, w, n, s, b) == PeriodOnThreads(c, w.(skip := tid), n, s, b)
    ensures PeriodOnThreads(c, w, n, s, b).skip == Unset(n)
    ensures LengthOnThreads(n, PeriodOnThreads(c, w, n, s, b), b).skip == Unset(n)
  {
    hide Advance, Fires, SetOn;
  }

  /** The knobs with one that covers thread `t` for the skip, where that makes no difference. */
  lemma CoveringTids(c: Config, w: Tids, n: nat, bs: seq<Block>, threads: set<nat>, most: nat, t: nat) returns (v: Tids)
    requires Plain(c, w) && AllName(w, n) && BlocksOf(bs, threads, n, most)
    requires w.period == w.length == t != ALL_THREADS || (threads == {t} && BothCover(w, t))
    ensures AllName(v, n) && Alone(bs, v, t) && RunOnThreads(c, v, n, bs) == RunOnThreads(c, w, n, bs)
  {
    v := w;
    if c.skip.None? {
      v := w.(skip := w.period);
      SkipTidIsIdle(c, w, n, bs, w.period);
    }
  }

  /** With a period of one on all threads every block starts and stops a sample, until there are enough. */
  lemma {:induction false} EachBlockSamples(c: Config, w: Tids, n: nat, bs: seq<Block>, threads: set<nat>, most: nat)
    requires Accepted(c) && AllName(w, n) && StartsEachBlock(c, w) && BlocksOf(bs, threads, n, most)
    requires RunOnThreads(c, w, n, bs).samples < c.count
    ensures var s := RunOnThreads(c, w, n, bs);
      && Alternates(s.calls) && |s.calls| == 2 * s.samples == 2 * |bs| && !s.skipActive
      && forall t :: 0 <= t < n ==> Seen(s, t, n).period == Timer(1, true) && !Seen(s, t, n).skip.armed
    decreases |bs|
  {
    hide StepOnThreads, AllArmNamed, Alternates;
    if bs == [] {
      Unsampled(c, w, n);
    } else {
      var before, b := bs[..|bs| - 1], bs[|bs| - 1];
      var s := RunOnThreads(c, w, n, before);
      SamplesGrow(c, w, n, s, b);
      EachBlockSamples(c, w, n, before, threads, most);
      RunArmsNamed(c, w, n, before);
      StartStep(c, w, n, s, b);
      OneSample(c, Seen(s, b.thread, n), b.insts);
    }
  }

  lemma Unsampled(c: Config, w: Tids, n: nat)
    requires c.skip.None? && AllName(w, n)
    ensures Alternates(RunOnThreads(c, w, n, []).calls)
    ensures forall t :: 0 <= t < n ==>
      Seen(RunOnThreads(c, w, n, []), t, n)
      == Sampler(if Covers(w.period, t) then Timer(c.period, true) else OFF, OFF, OFF, false, 0, [])
  {
    forall t | 0 <= t < n
      ensures Seen(RunOnThreads(c, w, n, []), t, n)
           == Sampler(if Covers(w.period, t) then Timer(c.period, true) else OFF, OFF, OFF, false, 0, [])
    {
      Unstarted(c, w, n, t);
    }
  }

  lemma OneSample(c: Config, v: Sampler, k: nat)
    requires Accepted(c) && c.period == 1 && k >= 1 && v.period == Timer(1, true) && !v.skip.armed && !v.skipActive
    requires v.samples < c.count && Alternates(v.calls) && |v.calls| == 2 * v.samples
    ensures var r := Step(c, v, k);
      && r.period == Timer(1, true) && !r.skip.armed && !r.skipActive && r.samples == v.samples + 1
      && Alternates(r.calls) && |r.calls| == 2 * r.samples
  {
    hide Alternates;
    AlternatesSnoc(v.calls, START);
    AlternatesSnoc(v.calls + [START], STOP);
  }

  lemma SamplesGrow(c: Config, w: Tids, n: nat, s: Threads, b: Block)
    requires AllName(w, n) && Sized(s, n) && b.thread < n
    ensures StepOnThreads(c, w, n, s, b).samples >= s.samples
  {
    hide Advance, Fires, SetOn;
  }

  /** Whether the sampler is sure to alternate in all runs of just these threads. */
  ghost predicate Sure(c: Config, w: Tids, threads: set<nat>, most: nat) {
    c.count == 0 || NeverStarts(w, threads) || OneThreadFits(c, w, threads, most)
  }

  /** Whether it is sure to as long as the number of samples asked for is not reached. */
  ghost predicate SureBeforeCount(c: Config, w: Tids, threads: set<nat>, most: nat) {
    NeverStarts(w, threads) || OneThreadFits(c, w, threads, most) || StartsEachBlock(c, w)
  }

  lemma SureAlternates(c: Config, w: Tids, n: nat, threads: set<nat>, most: nat, bs: seq<Block>)
    requires Accepted(c) && AllName(w, n) && Plain(c, w) && Sure(c, w, threads, most) && BlocksOf(bs, threads, n, most)
    ensures Alternates(RunOnThreads(c, w, n, bs).calls)
  {
    hide Run, RunOnThreads, Roomy, NeverStarts, OneThreadFits;
    if bs == [] {
      NothingExecuted(c, w, n);
    } else if c.count == 0 {
      NoSamplesOnThreads(c, w, n, bs);
    } else if NeverStarts(w, threads) {
      NoThreadAlternates(c, w, n, threads, most, bs);
    } else {
      OneThreadAlternates(c, w, n, threads, most, bs);
    }
  }

  lemma NoThreadAlternates(c: Config, w: Tids, n: nat, threads: set<nat>, most: nat, bs: seq<Block>)
    requires AllName(w, n) && Plain(c, w) && NeverStarts(w, threads) && bs != [] && BlocksOf(bs, threads, n, most)
    ensures RunOnThreads(c, w, n, bs).calls == []
  {
    hide RunOnThreads, Run;
    assert bs[0].thread in threads;
    if c.skip.None? {
      QuietRun(c, w, n, bs, threads, most);
    } else {
      RunIsThatOfThread(c, w, n, bs, w.period);
      OnlyKeepsSizes(bs, threads, n, most, w.period);
      NothingSampled(c);
    }
  }

  lemma OneThreadAlternates(c: Config, w: Tids, n: nat, threads: set<nat>, most: nat, bs: seq<Block>)
    requires Accepted(c) && AllName(w, n) && Plain(c, w) && OneThreadFits(c, w, threads, most)
    requires bs != [] && BlocksOf(bs, threads, n, most)
    ensures Alternates(RunOnThreads(c, w, n, bs).calls)
  {
    hide Run, RunOnThreads, Roomy;
    var t := w.period;
    if w.period != w.length || w.period == ALL_THREADS {
      t :| threads == {t} && BothCover(w, t);
      assert bs[0].thread == t;
    }
    var v := CoveringTids(c, w, n, bs, threads, most, t);
    RunIsThatOfThread(c, v, n, bs, t);
    OnlyKeepsSizes(bs, threads, n, most, t);
    SamplesAlternate(c, most, Only(bs, t));
  }

  lemma NothingExecuted(c: Config, w: Tids, n: nat)
    requires AllName(w, n)
    ensures RunOnThreads(c, w, n, []).calls == []
  {
  }

  lemma NothingSampled(c: Config)
    ensures Run(c, []).calls == []
  {
  }

  lemma {:induction false} NoSamplesOnThreads(c: Config, w: Tids, n: nat, bs: seq<Block>)
    requires c.count == 0 && AllName(w, n) && BlocksWithin(bs, n)
    ensures var s := RunOnThreads(c, w, n, bs); s.calls == [] && s.length == Unset(n)
    decreases |bs|
  {
    if bs != [] {
      NoSamplesOnThreads(c, w, n, bs[..|bs| - 1]);
    }
  }

  /** One thread that period and length cover, without room for its blocks. */
  lemma OneThreadLoses(c: Config, w: Tids, n: nat, threads: set<nat>, most: nat, t: nat) returns (bs: seq<Block>)
    requires Accepted(c) && c.count > 0 && AllName(w, n) && Plain(c, w) && !Roomy(c, most)
    requires t in threads && t < n && n <= ALL_THREADS
    requires w.period == w.length == t || (threads == {t} && BothCover(w, t))
    ensures BlocksOf(bs, threads, n, most)
    ensures var s := RunOnThreads(c, w, n, bs); !Alternates(s.calls) && s.samples <= 2
  {
    hide Run, RunOnThreads, Roomy, Alternates;
    var ks := LosingRun(c, most);
    bs := By(t, ks);
    OnlyBy(t, ks);
    var v := CoveringTids(c, w, n, bs, threads, most, t);
    RunIsThatOfThread(c, v, n, bs, t);
  }

  /** Two threads that execute, one of them counting the period, with the length alarm on all. */
  lemma TwoLose(c: Config, w: Tids, n: nat, a: nat, b: nat, threads: set<nat>) returns (bs: seq<Block>)
    requires Accepted(c) && c.count > 0 && AllName(w, n) && Plain(c, w)
    requires a < n && b < n && a != b && a in threads && b in threads
    requires Covers(w.period, a) && w.length == ALL_THREADS && !StartsEachBlock(c, w)
    requires c.period == 1 && c.skip.Some? ==> c.count > 1
    ensures BlocksOf(bs, threads, n, 1)
    ensures var s := RunOnThreads(c, w, n, bs); !Alternates(s.calls) && s.samples <= 2
  {
    hide RunOnThreads;
    if c.skip.None? {
      bs := TwoThreadsLose(c, w, n, a, b, threads);
      assert !Alternates([START, STOP, STOP]) by {
        assert [START, STOP, STOP][2] == STOP;
      }
    } else if c.period >= 2 {
      bs := SkipLoses(c, n, a, b, threads);
      assert !Alternates([START, STOP, STOP]) by {
        assert [START, STOP, STOP][2] == STOP;
      }
    } else {
      bs := ShortSkipLoses(c, n, a, b, threads);
    }
  }

  /** Every other setting has a run that loses the order within two samples. */
  lemma UnsureLoses(c: Config, w: Tids, n: nat, threads: set<nat>, most: nat) returns (bs: seq<Block>)
    requires Accepted(c) && c.count > 0 && AllName(w, n) && Plain(c, w) && (forall t :: t in threads ==> t < n) && most >= 1
    requires !SureBeforeCount(c, w, threads, most)
    requires w.period == w.length == ALL_THREADS && c.period == 1 ==> c.count > 1
    ensures BlocksOf(bs, threads, n, most)
    ensures var s := RunOnThreads(c, w, n, bs); !Alternates(s.calls) && s.samples <= 2
  {
    hide Run, RunOnThreads, Roomy, Alternates;
    var a :| a in threads && Covers(w.period, a);
    if x :| x in threads && Covers(w.period, x) && !Covers(w.length, x) {
      bs := DifferentThreadsLose(c, w, n, x, threads);
      TwoStarts();
    } else if b :| b in threads && b != a && w.length == ALL_THREADS {
      bs := TwoLose(c, w, n, a, b, threads);
    } else {
      assert BothCover(w, a);
      assert w.period == w.length == a || threads == {a};
      bs := OneThreadLoses(c, w, n, threads, most, a);
    }
  }

  lemma TwoStarts()
    ensures !Alternates([START, START])
  {
    assert [START, START][1] == START;
  }

  /**
   For runs of any length: they all alternate exactly when no sample is wanted, or the period
   alarm counts no thread that executes, or one thread decides and there is room for its blocks.
   */
  lemma AlternatesOnThreadsIff(c: Config, w: Tids, n: nat, threads: set<nat>, most: nat)
    requires Accepted(c) && AllName(w, n) && Plain(c, w) && (forall t :: t in threads ==> t < n) && most >= 1
    ensures Sure(c, w, threads, most) <==>
      forall bs :: BlocksOf(bs, threads, n, most) ==> Alternates(RunOnThreads(c, w, n, bs).calls)
  {
    hide Run, RunOnThreads, Roomy, Alternates;
    if Sure(c, w, threads, most) {
      forall bs | BlocksOf(bs, threads, n, most)
        ensures Alternates(RunOnThreads(c, w, n, bs).calls)
      {
        SureAlternates(c, w, n, threads, most, bs);
      }
    } else if w.period == w.length == ALL_THREADS && c.period == 1 {
      var bs := ShortPeriodLoses(c, w, n, threads, most);
    } else {
      var bs := UnsureLoses(c, w, n, threads, most);
    }
  }

  lemma ShortPeriodLoses(c: Config, w: Tids, n: nat, threads: set<nat>, most: nat) returns (bs: seq<Block>)
    requires Accepted(c) && AllName(w, n) && Plain(c, w) && (forall t :: t in threads ==> t < n) && most >= 1
    requires w.period == w.length == ALL_THREADS && c.period == 1 && !Sure(c, w, threads, most)
    ensures BlocksOf(bs, threads, n, most) && !Alternates(RunOnThreads(c, w, n, bs).calls)
  {
    hide RunOnThreads, Alternates;
    var a :| a in threads && Covers(w.period, a);
    assert threads != {a};
    var b :| b in threads && b != a;
    bs := CountIsPassed(c, n, a, b, threads);
    if c.skip.None? {
      SkipTidIsIdle(c, w, n, bs, ALL_THREADS);
    }
  }

  /**
   For runs that do not reach the number of samples asked for, as none does without the count
   knob: they all alternate exactly when the period alarm counts no thread that executes, or one
   thread decides and there is room for its blocks, or all threads count a period of one
   instruction and nothing is skipped.
   */
  lemma AlternatesBeforeCountIff(c: Config, w: Tids, n: nat, threads: set<nat>, most: nat)
    requires Accepted(c) && AllName(w, n) && Plain(c, w) && (forall t :: t in threads ==> t < n) && most >= 1
    requires c.count > 2
    ensures SureBeforeCount(c, w, threads, most) <==>
      forall bs :: BlocksOf(bs, threads, n, most) && RunOnThreads(c, w, n, bs).samples < c.count ==>
        Alternates(RunOnThreads(c, w, n, bs).calls)
  {
    hide Run, RunOnThreads, Roomy, Alternates;
    if SureBeforeCount(c, w, threads, most) {
      forall bs | BlocksOf(bs, threads, n, most) && RunOnThreads(c, w, n, bs).samples < c.count
        ensures Alternates(RunOnThreads(c, w, n, bs).calls)
      {
        if StartsEachBlock(c, w) {
          EachBlockSamples(c, w, n, bs, threads, most);
        } else {
          SureAlternates(c, w, n, threads, most, bs);
        }
      }
    } else {
      var bs := UnsureLoses(c, w, n, threads, most);
    }
  }
}
