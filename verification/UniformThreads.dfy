/**
 The sampler with its alarms on threads: each alarm names one thread, or every thread, which is
 the default. With one named thread this is the sampler of `Uniform`; with all threads it is not.
 */
module UniformThreads {
  import opened Options
  import opened Alarm
  import opened Uniform

  /** The three alarms with a countdown for each thread, and the sampler's own fields. */
  datatype Threads = Threads(period: AlarmState, length: AlarmState, skip: AlarmState, skipActive: bool, samples: nat, calls: seq<Call>)

  /** The thread, or ALL_THREADS, that each knob names. */
  datatype Tids = Tids(period: nat, length: nat, skip: nat)

  /** The same thread, or all threads, for every alarm. */
  function Same(tid: nat): Tids {
    Tids(tid, tid, tid)
  }

  predicate Names(tid: nat, n: nat) {
    (tid == ALL_THREADS || tid < n) && n <= ALL_THREADS
  }

  predicate AllName(w: Tids, n: nat) {
    Names(w.period, n) && Names(w.length, n) && Names(w.skip, n)
  }

  predicate Covers(tid: nat, t: nat) {
    tid == ALL_THREADS || tid == t
  }

  predicate BothCover(w: Tids, t: nat) {
    Covers(w.period, t) && Covers(w.length, t)
  }

  predicate AllCover(w: Tids, t: nat) {
    BothCover(w, t) && Covers(w.skip, t)
  }

  predicate Sized(s: Threads, n: nat) {
    && |s.period.count| == |s.period.armed| == n
    && |s.length.count| == |s.length.armed| == n
    && |s.skip.count| == |s.skip.armed| == n
  }

  /** The handler of the period and skip alarms; setting an alarm sets it for all the threads it names. */
  function StartOnThreads(c: Config, w: Tids, n: nat, s: Threads): (r: Threads)
    requires AllName(w, n) && Sized(s, n)
    ensures Sized(r, n)
  {
    if s.samples >= c.count then s
    else
      var t := s.(period := SetOn(s.period, c.period, false, false, w.period));
      if s.skipActive then t.(skipActive := false)
      else t.(length := SetOn(s.length, c.length, false, false, w.length), calls := s.calls + [START])
  }

  function StopOnThreads(s: Threads): Threads {
    s.(samples := s.samples + 1, calls := s.calls + [STOP])
  }

  function PeriodOnThreads(c: Config, w: Tids, n: nat, s: Threads, b: Block): (r: Threads)
    requires AllName(w, n) && Sized(s, n) && b.thread < n
    ensures Sized(r, n)
  {
    var t := s.(period := Advance(s.period, b, 0, 0));
    if Fires(s.period, b, 0, 0) then StartOnThreads(c, w, n, t) else t
  }

  function LengthOnThreads(n: nat, s: Threads, b: Block): (r: Threads)
    requires Sized(s, n) && b.thread < n
    ensures Sized(r, n)
  {
    var t := s.(length := Advance(s.length, b, 0, 0));
    if Fires(s.length, b, 0, 0) then StopOnThreads(t) else t
  }

  function SkipOnThreads(c: Config, w: Tids, n: nat, s: Threads, b: Block): (r: Threads)
    requires AllName(w, n) && Sized(s, n) && b.thread < n
    ensures Sized(r, n)
  {
    var t := s.(skip := Advance(s.skip, b, 0, 0));
    if Fires(s.skip, b, 0, 0) then StartOnThreads(c, w, n, t) else t
  }

  /** One block of one thread. */
  function StepOnThreads(c: Config, w: Tids, n: nat, s: Threads, b: Block): (r: Threads)
    requires AllName(w, n) && Sized(s, n) && b.thread < n
    ensures Sized(r, n)
  {
    SkipOnThreads(c, w, n, LengthOnThreads(n, PeriodOnThreads(c, w, n, s, b), b), b)
  }

  /** An alarm that was never set. */
  function Unset(n: nat): AlarmState {
    AlarmState(Filled(n, 0), Filled(n, false), 0, false, false, 0)
  }

  function ArmedOnThreads(c: Config, w: Tids, n: nat): (r: Threads)
    requires AllName(w, n)
    ensures Sized(r, n)
  {
    match c.skip
    case Some(k) => Threads(Unset(n), Unset(n), SetOn(Unset(n), k, false, false, w.skip), true, 0, [])
    case None => Threads(SetOn(Unset(n), c.period, false, false, w.period), Unset(n), Unset(n), false, 0, [])
  }

  function RunOnThreads(c: Config, w: Tids, n: nat, bs: seq<Block>): (r: Threads)
    requires AllName(w, n) && BlocksWithin(bs, n)
    ensures Sized(r, n)
    decreases |bs|
  {
    if bs == [] then ArmedOnThreads(c, w, n)
    else StepOnThreads(c, w, n, RunOnThreads(c, w, n, bs[..|bs| - 1]), bs[|bs| - 1])
  }

  // ----- Seen from one thread -----

  /** The alarm's countdown of thread `t`. */
  function TimerAt(a: AlarmState, t: nat): Timer
    requires t < |a.count| == |a.armed|
  {
    Timer(a.count[t], a.armed[t])
  }

  function Seen(s: Threads, t: nat, n: nat): Sampler
    requires Sized(s, n) && t < n
  {
    Sampler(TimerAt(s.period, t), TimerAt(s.length, t), TimerAt(s.skip, t), s.skipActive, s.samples, s.calls)
  }

  /** Only the threads named are ever armed, once at a time. */
  ghost predicate ArmsNamed(a: AlarmState, tid: nat) {
    && |a.count| == |a.armed| && !a.rearm && !a.alwaysArmed
    && forall t :: 0 <= t < |a.armed| && a.armed[t] ==> a.tid == tid && (tid == ALL_THREADS || tid == t)
  }

  ghost predicate AllArmNamed(s: Threads, w: Tids) {
    ArmsNamed(s.period, w.period) && ArmsNamed(s.length, w.length) && ArmsNamed(s.skip, w.skip)
  }

  lemma AdvanceSeen(a: AlarmState, tid: nat, b: Block, t: nat)
    requires ArmsNamed(a, tid) && b.thread < |a.count| && t < |a.count|
    ensures var r := Advance(a, b, 0, 0);
      && ArmsNamed(r, tid) && TimerAt(r, t) == (if t == b.thread then Tick(TimerAt(a, t), b.insts) else TimerAt(a, t))
      && Fires(a, b, 0, 0) == Expires(TimerAt(a, b.thread), b.insts)
  {
  }

  lemma SetSeen(a: AlarmState, tid: nat, k: int, t: nat)
    requires ArmsNamed(a, tid) && Names(tid, |a.count|) && t < |a.count|
    ensures var r := SetOn(a, k, false, false, tid);
      ArmsNamed(r, tid) && TimerAt(r, t) == (if tid == ALL_THREADS || tid == t then Timer(k, true) else TimerAt(a, t))
  {
  }

  lemma UnsetSeen(n: nat, tid: nat, t: nat)
    requires t < n
    ensures |Unset(n).count| == n && ArmsNamed(Unset(n), tid) && TimerAt(Unset(n), t) == OFF
  {
  }

  /** A thread that period and length alarm cover sees its own block as a step of the sampler. */
  lemma OwnBlockIsStep(c: Config, w: Tids, n: nat, s: Threads, b: Block)
    requires AllName(w, n) && Sized(s, n) && AllArmNamed(s, w) && b.thread < n && BothCover(w, b.thread)
    ensures AllArmNamed(StepOnThreads(c, w, n, s, b), w)
    ensures Seen(StepOnThreads(c, w, n, s, b), b.thread, n) == Step(c, Seen(s, b.thread, n), b.insts)
  {
    hide Advance, Fires, SetOn, ArmsNamed, TimerAt;
    var p := PeriodOnThreads(c, w, n, s, b);
    OwnPeriod(c, w, n, s, b);
    var l := LengthOnThreads(n, p, b);
    OwnLength(w, n, p, b);
    OwnSkip(c, w, n, l, b);
  }

  lemma OwnStart(c: Config, w: Tids, n: nat, s: Threads, t: nat)
    requires AllName(w, n) && Sized(s, n) && AllArmNamed(s, w) && t < n && BothCover(w, t)
    ensures AllArmNamed(StartOnThreads(c, w, n, s), w)
    ensures Seen(StartOnThreads(c, w, n, s), t, n) == OnStart(c, Seen(s, t, n))
  {
    hide SetOn, ArmsNamed, TimerAt;
    SetSeen(s.period, w.period, c.period, t);
    SetSeen(s.length, w.length, c.length, t);
  }

  lemma OwnPeriod(c: Config, w: Tids, n: nat, s: Threads, b: Block)
    requires AllName(w, n) && Sized(s, n) && AllArmNamed(s, w) && b.thread < n && BothCover(w, b.thread)
    ensures var r := PeriodOnThreads(c, w, n, s, b);
      AllArmNamed(r, w) && Seen(r, b.thread, n) == AdvancePeriod(c, Seen(s, b.thread, n), b.insts)
  {
    hide Advance, Fires, ArmsNamed, TimerAt, StartOnThreads, OnStart;
    AdvanceSeen(s.period, w.period, b, b.thread);
    OwnStart(c, w, n, s.(period := Advance(s.period, b, 0, 0)), b.thread);
  }

  lemma OwnLength(w: Tids, n: nat, s: Threads, b: Block)
    requires AllName(w, n) && Sized(s, n) && AllArmNamed(s, w) && b.thread < n
    ensures var r := LengthOnThreads(n, s, b);
      AllArmNamed(r, w) && Seen(r, b.thread, n) == AdvanceLength(Seen(s, b.thread, n), b.insts)
  {
    hide Advance, Fires, ArmsNamed, TimerAt;
    AdvanceSeen(s.length, w.length, b, b.thread);
  }

  lemma OwnSkip(c: Config, w: Tids, n: nat, s: Threads, b: Block)
    requires AllName(w, n) && Sized(s, n) && AllArmNamed(s, w) && b.thread < n && BothCover(w, b.thread)
    ensures var r := SkipOnThreads(c, w, n, s, b);
      AllArmNamed(r, w) && Seen(r, b.thread, n) == AdvanceSkip(c, Seen(s, b.thread, n), b.insts)
  {
    hide Advance, Fires, ArmsNamed, TimerAt, StartOnThreads, OnStart;
    AdvanceSeen(s.skip, w.skip, b, b.thread);
    OwnStart(c, w, n, s.(skip := Advance(s.skip, b, 0, 0)), b.thread);
  }

  /** A block of a thread on which no alarm is armed changes nothing at all. */
  lemma UnarmedBlockChangesNothing(c: Config, w: Tids, n: nat, s: Threads, b: Block)
    requires AllName(w, n) && Sized(s, n) && b.thread < n
    requires !s.period.armed[b.thread] && !s.length.armed[b.thread] && !s.skip.armed[b.thread]
    ensures StepOnThreads(c, w, n, s, b) == s
  {
  }

  /** In particular a block of a thread that no alarm names. */
  lemma OtherBlockChangesNothing(c: Config, w: Tids, n: nat, s: Threads, b: Block)
    requires AllName(w, n) && Sized(s, n) && AllArmNamed(s, w) && b.thread < n
    requires !Covers(w.period, b.thread) && !Covers(w.length, b.thread) && !Covers(w.skip, b.thread)
    ensures StepOnThreads(c, w, n, s, b) == s
  {
    UnarmedBlockChangesNothing(c, w, n, s, b);
  }

  /** The blocks of thread `t`, in order. */
  function Only(bs: seq<Block>, t: nat): seq<nat>
    decreases |bs|
  {
    if bs == [] then []
    else
      var b := bs[|bs| - 1];
      if b.thread == t then Only(bs[..|bs| - 1], t) + [b.insts] else Only(bs[..|bs| - 1], t)
  }

  lemma ArmedSeen(c: Config, w: Tids, n: nat, t: nat)
    requires AllName(w, n) && t < n && AllCover(w, t)
    ensures AllArmNamed(ArmedOnThreads(c, w, n), w) && Seen(ArmedOnThreads(c, w, n), t, n) == Armed(c)
  {
    hide ArmsNamed, SetOn, Unset;
    UnsetSeen(n, w.period, t);
    UnsetSeen(n, w.length, t);
    UnsetSeen(n, w.skip, t);
    SetSeen(Unset(n), w.period, c.period, t);
    if c.skip.Some? {
      SetSeen(Unset(n), w.skip, c.skip.value, t);
    }
  }

  /** All alarms name thread `t` and no other, or all cover it and it executes alone. */
  ghost predicate Alone(bs: seq<Block>, w: Tids, t: nat) {
    w == Same(t) || (AllCover(w, t) && forall i :: 0 <= i < |bs| ==> bs[i].thread == t)
  }

  /**
   With one named thread, whatever the others do, or when one thread executes alone that every
   alarm covers, the threaded sampler is the sampler of that thread's blocks.
   */
  lemma {:induction false} RunIsThatOfThread(c: Config, w: Tids, n: nat, bs: seq<Block>, t: nat)
    requires AllName(w, n) && BlocksWithin(bs, n) && t < n && Alone(bs, w, t)
    ensures AllArmNamed(RunOnThreads(c, w, n, bs), w)
    ensures Seen(RunOnThreads(c, w, n, bs), t, n) == Run(c, Only(bs, t))
    decreases |bs|
  {
    hide StepOnThreads, Step, AllArmNamed, Seen, ArmedOnThreads, Armed;
    if bs == [] {
      ArmedSeen(c, w, n, t);
    } else {
      var before, b := bs[..|bs| - 1], bs[|bs| - 1];
      RunIsThatOfThread(c, w, n, before, t);
      var s := RunOnThreads(c, w, n, before);
      if b.thread == t {
        OwnBlockIsStep(c, w, n, s, b);
        RunSnoc(c, Only(before, t), b.insts);
      } else {
        OtherBlockChangesNothing(c, w, n, s, b);
      }
    }
  }

  // ----- Blocks of some threads -----

  /** Blocks of 1 to `most` instructions, of threads in `threads` among `n`. */
  ghost predicate BlocksOf(bs: seq<Block>, threads: set<nat>, n: nat, most: nat) {
    BlocksWithin(bs, n) && forall i :: 0 <= i < |bs| ==> bs[i].thread in threads && 1 <= bs[i].insts <= most
  }

  lemma {:induction false} OnlyKeepsSizes(bs: seq<Block>, threads: set<nat>, n: nat, most: nat, t: nat)
    requires BlocksOf(bs, threads, n, most)
    ensures BlocksUpTo(Only(bs, t), most) && (t !in threads ==> Only(bs, t) == [])
    decreases |bs|
  {
    if bs != [] {
      OnlyKeepsSizes(bs[..|bs| - 1], threads, n, most, t);
    }
  }

  /** All blocks by thread `t`. */
  function By(t: nat, ks: seq<nat>): (bs: seq<Block>)
    ensures |bs| == |ks| && forall i :: 0 <= i < |ks| ==> bs[i] == Block(t, ks[i])
  {
    seq(|ks|, i requires 0 <= i < |ks| => Block(t, ks[i]))
  }

  lemma {:induction false} OnlyBy(t: nat, ks: seq<nat>)
    ensures Only(By(t, ks), t) == ks
    decreases |ks|
  {
    if ks != [] {
      OnlyBy(t, ks[..|ks| - 1]);
      assert By(t, ks)[..|ks| - 1] == By(t, ks[..|ks| - 1]);
    }
  }

  lemma RunOnThreadsSnoc(c: Config, w: Tids, n: nat, bs: seq<Block>, b: Block)
    requires AllName(w, n) && BlocksWithin(bs, n) && b.thread < n
    ensures BlocksWithin(bs + [b], n)
    ensures RunOnThreads(c, w, n, bs + [b]) == StepOnThreads(c, w, n, RunOnThreads(c, w, n, bs), b)
  {
    assert (bs + [b])[..|bs|] == bs;
  }

  lemma StepArmsNamed(c: Config, w: Tids, n: nat, s: Threads, b: Block)
    requires AllName(w, n) && Sized(s, n) && AllArmNamed(s, w) && b.thread < n
    ensures AllArmNamed(StepOnThreads(c, w, n, s, b), w)
  {
    hide Advance, Fires, SetOn, ArmsNamed, TimerAt;
    AdvanceSeen(s.period, w.period, b, b.thread);
    var t := s.(period := Advance(s.period, b, 0, 0));
    StartArmsNamed(c, w, n, t);
    var p := PeriodOnThreads(c, w, n, s, b);
    AdvanceSeen(p.length, w.length, b, b.thread);
    var l := LengthOnThreads(n, p, b);
    AdvanceSeen(l.skip, w.skip, b, b.thread);
    StartArmsNamed(c, w, n, l.(skip := Advance(l.skip, b, 0, 0)));
  }

  lemma StartArmsNamed(c: Config, w: Tids, n: nat, s: Threads)
    requires AllName(w, n) && Sized(s, n) && AllArmNamed(s, w)
    ensures AllArmNamed(StartOnThreads(c, w, n, s), w)
  {
    hide SetOn, ArmsNamed;
    SetArmsNamed(s.period, w.period, c.period);
    SetArmsNamed(s.length, w.length, c.length);
  }

  lemma SetArmsNamed(a: AlarmState, tid: nat, k: int)
    requires |a.count| == |a.armed| && ArmsNamed(a, tid) && Names(tid, |a.count|)
    ensures ArmsNamed(SetOn(a, k, false, false, tid), tid)
  {
  }

  lemma {:induction false} RunArmsNamed(c: Config, w: Tids, n: nat, bs: seq<Block>)
    requires AllName(w, n) && BlocksWithin(bs, n)
    ensures AllArmNamed(RunOnThreads(c, w, n, bs), w)
    decreases |bs|
  {
    hide StepOnThreads, AllArmNamed, ArmedOnThreads;
    if bs == [] {
      ArmedArmsNamed(c, w, n);
    } else {
      RunArmsNamed(c, w, n, bs[..|bs| - 1]);
      StepArmsNamed(c, w, n, RunOnThreads(c, w, n, bs[..|bs| - 1]), bs[|bs| - 1]);
    }
  }

  lemma ArmedArmsNamed(c: Config, w: Tids, n: nat)
    requires AllName(w, n)
    ensures AllArmNamed(ArmedOnThreads(c, w, n), w)
  {
  }
}
