/**
 Stopping at a breakpoint: the debugger resumes by executing all the instrumentation of the
 instruction again, and a virtual register keeps the breakpoint from stopping once more.
 */
module SkipOne {
  import opened Options
  import opened ShellEvents

  datatype Record = Record(id: nat, pc: nat, regValue: nat)

  /** A stop, before or after the instruction. */
  datatype Stop = Stop(id: nat, pc: nat, after: bool)

  /** A thread as the shell sees it; the skip register holds 0 or the address to skip. */
  datatype Thread = Thread(tid: nat, skip: nat, icount: nat, mcount: nat, log: seq<Record>, stops: seq<Stop>)

  /** All that stays the same during a run: the event set and its bound, and the settings. */
  datatype Setup = Setup(events: Events, bound: nat, config: Config)

  predicate Before(u: Setup, id: nat, x: Instance, m: Thread)
    requires id in u.events
  {
    HoldsBefore(u.config, u.events[id].trigger, x, m.tid, m.icount, m.mcount)
  }

  /** The breakpoint that stops first before the instruction, among the events below `n`. */
  function FirstHit(u: Setup, n: nat, x: Instance, m: Thread): (r: Option<nat>)
    ensures r.Some? ==> r.value < n && r.value in u.events && IsStopper(u.events[r.value]) && Before(u, r.value, x, m)
    ensures forall id :: 0 <= id < n && (r.Some? ==> id < r.value) && id in u.events && IsStopper(u.events[id]) ==> !Before(u, id, x, m)
    decreases n
  {
    if n == 0 then None
    else
      var r := FirstHit(u, n - 1, x, m);
      if r.Some? then r
      else if n - 1 in u.events && IsStopper(u.events[n - 1]) && Before(u, n - 1, x, m) then Some(n - 1)
      else None
  }

  /** The breakpoint that stops first after the instruction. */
  function FirstAfterHit(u: Setup, n: nat, x: Instance): Option<nat>
    decreases n
  {
    if n == 0 then None
    else
      var r := FirstAfterHit(u, n - 1, x);
      if r.Some? then r
      else if n - 1 in u.events && IsStopper(u.events[n - 1]) && HoldsAfter(u.events[n - 1].trigger, x) then Some(n - 1)
      else None
  }

  function RecordOf(e: Event, id: nat, pc: nat, regs: nat -> nat): Record {
    Record(id, pc, if e.reg.Some? then regs(e.reg.value) else 0)
  }

  /** What the tracepoints below `n` record before the instruction. */
  function RecordsBefore(u: Setup, n: nat, x: Instance, m: Thread): seq<Record>
    decreases n
  {
    if n == 0 then []
    else
      RecordsBefore(u, n - 1, x, m)
      + (if n - 1 in u.events && IsTracer(u.events[n - 1]) && Before(u, n - 1, x, m) then
           [RecordOf(u.events[n - 1], n - 1, x.ins.pc, x.regs)] else [])
  }

  function RecordsAfter(u: Setup, n: nat, x: Instance): seq<Record>
    decreases n
  {
    if n == 0 then []
    else
      RecordsAfter(u, n - 1, x)
      + (if n - 1 in u.events && IsTracer(u.events[n - 1]) && HoldsAfter(u.events[n - 1].trigger, x) then
           [RecordOf(u.events[n - 1], n - 1, x.ins.pc, x.regsAfter)] else [])
  }

  /** Whether the instruction has instrumentation that clears the skip register. */
  ghost predicate HasSkipClear(u: Setup, ins: Ins) {
    exists id :: 0 <= id < u.bound && id in u.events && MayStop(u.events[id], ins)
  }

  function CountsMemory(c: Config, x: Instance): bool {
    AccessesMemory(x.ins) && (x.ins.prefetch ==> c.countPrefetch) && (MayAccessNothing(c, x.ins) ==> x.executing)
  }

  // ----- One instance, as it should come out -----

  /** It stops unless the register says to skip it. */
  predicate Stops(u: Setup, x: Instance, m: Thread) {
    FirstHit(u, u.bound, x, m).Some? && m.skip != x.ins.pc
  }

  /** Whether the clearing behind the instruction is reached: a stop after the instruction comes first. */
  ghost predicate Clears(u: Setup, x: Instance) {
    LeavesInstrumented(x) && FirstAfterHit(u, u.bound, x).None?
  }

  /** The part before the instruction: at most one stop, then each record and count once. */
  function PartBefore(u: Setup, x: Instance, m: Thread): Thread {
    var pc := x.ins.pc;
    m.(skip := if Stops(u, x, m) then pc else m.skip,
       stops := if Stops(u, x, m) then m.stops + [Stop(FirstHit(u, u.bound, x, m).value, pc, false)] else m.stops,
       log := m.log + RecordsBefore(u, u.bound, x, m),
       icount := if u.config.countInstructions then m.icount + 1 else m.icount,
       mcount := if u.config.countInstructions && CountsMemory(u.config, x) then m.mcount + 1 else m.mcount)
  }

  /** The part after: a stop there abandons the rest, and resumes at the next instruction. */
  ghost function PartAfter(u: Setup, x: Instance, m: Thread): Thread {
    var hit := FirstAfterHit(u, u.bound, x);
    if hit.Some? then m.(stops := m.stops + [Stop(hit.value, x.ins.pc, true)])
    else m.(log := m.log + RecordsAfter(u, u.bound, x),
            skip := if HasSkipClear(u, x.ins) && LeavesInstrumented(x) then 0 else m.skip)
  }

  ghost function Step(u: Setup, x: Instance, m: Thread): Thread {
    PartAfter(u, x, PartBefore(u, x, m))
  }

  ghost function Run(u: Setup, xs: seq<Instance>, m: Thread): Thread
    decreases |xs|
  {
    if xs == [] then m else Step(u, xs[|xs| - 1], Run(u, xs[..|xs| - 1], m))
  }

  // ----- Every instance counts and records once -----

  lemma StepEffects(u: Setup, x: Instance, m: Thread)
    ensures var n, hit, behind := Step(u, x, m), FirstHit(u, u.bound, x, m), FirstAfterHit(u, u.bound, x);
      && n.tid == m.tid
      && n.stops == m.stops
                    + (if Stops(u, x, m) then [Stop(hit.value, x.ins.pc, false)] else [])
                    + (if behind.Some? then [Stop(behind.value, x.ins.pc, true)] else [])
      && n.log == m.log + RecordsBefore(u, u.bound, x, m) + (if behind.Some? then [] else RecordsAfter(u, u.bound, x))
      && n.icount == m.icount + (if u.config.countInstructions then 1 else 0)
      && n.mcount == m.mcount + (if u.config.countInstructions && CountsMemory(u.config, x) then 1 else 0)
  {
    hide RecordsBefore, RecordsAfter, FirstHit, FirstAfterHit, HasSkipClear, CountsMemory, LeavesInstrumented;
  }

  lemma RunSnoc(u: Setup, xs: seq<Instance>, x: Instance, m: Thread)
    ensures Run(u, xs + [x], m) == Step(u, x, Run(u, xs, m))
  {
    assert (xs + [x])[..|xs|] == xs;
  }

  /**
   In every run, stops or not, each instance advances the counts once and adds each matching
   "before" record once. The records behind it come once too, unless a stop there abandons them.
   */
  lemma EachInstanceCountsOnce(u: Setup, xs: seq<Instance>, x: Instance, m: Thread)
    ensures var before, after := Run(u, xs, m), Run(u, xs + [x], m);
      && after.log == before.log + RecordsBefore(u, u.bound, x, before)
                      + (if FirstAfterHit(u, u.bound, x).Some? then [] else RecordsAfter(u, u.bound, x))
      && after.icount == before.icount + (if u.config.countInstructions then 1 else 0)
      && after.mcount == before.mcount + (if u.config.countInstructions && CountsMemory(u.config, x) then 1 else 0)
  {
    hide Step, Run, RecordsBefore, RecordsAfter, FirstHit, FirstAfterHit, CountsMemory;
    RunSnoc(u, xs, x, m);
    StepEffects(u, x, Run(u, xs, m));
  }

  lemma {:induction false} RunCounts(u: Setup, xs: seq<Instance>, m: Thread)
    ensures Run(u, xs, m).tid == m.tid
    ensures Run(u, xs, m).icount == m.icount + (if u.config.countInstructions then |xs| else 0)
    decreases |xs|
  {
    hide Step, RecordsBefore, RecordsAfter, FirstHit, FirstAfterHit, CountsMemory;
    if xs != [] {
      RunCounts(u, xs[..|xs| - 1], m);
      StepEffects(u, xs[|xs| - 1], Run(u, xs[..|xs| - 1], m));
    }
  }

  // ----- What the skip register holds -----

  lemma HitsAreCleared(u: Setup, x: Instance, m: Thread)
    requires FirstHit(u, u.bound, x, m).Some?
    ensures HasSkipClear(u, x.ins)
  {
    var id := FirstHit(u, u.bound, x, m).value;
    assert MayStop(u.events[id], x.ins);
  }

  /** The instance runs the clearing. */
  ghost predicate RunsClearing(u: Setup, x: Instance) {
    HasSkipClear(u, x.ins) && Clears(u, x)
  }

  /** The instance decides the register: it has a true breakpoint, stop or not, or it runs the clearing. */
  ghost predicate Decides(u: Setup, x: Instance, m: Thread) {
    FirstHit(u, u.bound, x, m).Some? || RunsClearing(u, x)
  }

  /** What such an instance leaves in the register. */
  ghost function LeftBy(u: Setup, x: Instance): nat {
    if RunsClearing(u, x) then 0 else x.ins.pc
  }

  lemma StepRegister(u: Setup, x: Instance, m: Thread)
    ensures Step(u, x, m).skip == if Decides(u, x, m) then LeftBy(u, x) else m.skip
  {
    hide RecordsBefore, RecordsAfter, FirstHit, FirstAfterHit, HasSkipClear, CountsMemory, LeavesInstrumented;
  }

  ghost predicate DecidesAt(u: Setup, xs: seq<Instance>, m: Thread, i: nat)
    requires i < |xs|
  {
    Decides(u, xs[i], Run(u, xs[..i], m))
  }

  /** Instance `i` is the last one of the run to decide the register. */
  ghost predicate LastDecider(u: Setup, xs: seq<Instance>, m: Thread, i: nat) {
    && i < |xs| && DecidesAt(u, xs, m, i)
    && forall j :: i < j < |xs| ==> !DecidesAt(u, xs, m, j)
  }

  ghost predicate NoDecider(u: Setup, xs: seq<Instance>, m: Thread) {
    forall j :: 0 <= j < |xs| ==> !DecidesAt(u, xs, m, j)
  }

  lemma DecidesAtSnoc(u: Setup, xs: seq<Instance>, x: Instance, m: Thread)
    ensures forall i :: 0 <= i < |xs| ==> DecidesAt(u, xs + [x], m, i) == DecidesAt(u, xs, m, i)
    ensures DecidesAt(u, xs + [x], m, |xs|) == Decides(u, x, Run(u, xs, m))
  {
    hide Decides, Run;
    assert (xs + [x])[..|xs|] == xs;
    forall i | 0 <= i < |xs|
      ensures DecidesAt(u, xs + [x], m, i) == DecidesAt(u, xs, m, i)
    {
      assert (xs + [x])[..i] == xs[..i];
    }
  }

  /** Either no instance decided the register and it is as it was, or the last one to decide it left its value. */
  lemma {:induction false} RegisterAfterRun(u: Setup, xs: seq<Instance>, m: Thread) returns (last: Option<nat>)
    ensures last.None? ==> NoDecider(u, xs, m) && Run(u, xs, m).skip == m.skip
    ensures last.Some? ==> LastDecider(u, xs, m, last.value) && Run(u, xs, m).skip == LeftBy(u, xs[last.value])
    decreases |xs|
  {
    hide Step, Decides, LeftBy, DecidesAt;
    if xs == [] {
      last := None;
    } else {
      var before, x := xs[..|xs| - 1], xs[|xs| - 1];
      assert before + [x] == xs;
      last := RegisterAfterRun(u, before, m);
      StepRegister(u, x, Run(u, before, m));
      DecidesAtSnoc(u, before, x, m);
      if Decides(u, x, Run(u, before, m)) {
        last := Some(|before|);
      }
    }
  }

  lemma LastDeciderIsUnique(u: Setup, xs: seq<Instance>, m: Thread, i: nat, j: nat)
    requires LastDecider(u, xs, m, i) && LastDecider(u, xs, m, j)
    ensures i == j
  {
  }

  /** Which breakpoints are true depends on the thread's number and counts alone. */
  lemma {:induction false} HitsIgnoreRegister(u: Setup, n: nat, x: Instance, m: Thread, o: Thread)
    requires m.tid == o.tid && m.icount == o.icount && m.mcount == o.mcount
    ensures FirstHit(u, n, x, m) == FirstHit(u, n, x, o)
    decreases n
  {
    if n > 0 {
      HitsIgnoreRegister(u, n - 1, x, m, o);
    }
  }

  lemma {:induction false} CountsIgnoreRegister(u: Setup, xs: seq<Instance>, m: Thread, v: nat)
    ensures var a, b := Run(u, xs, m), Run(u, xs, m.(skip := v)); a.tid == b.tid && a.icount == b.icount && a.mcount == b.mcount
    decreases |xs|
  {
    hide Step, RecordsBefore, RecordsAfter, FirstHit, FirstAfterHit, CountsMemory;
    if xs != [] {
      var before, x := xs[..|xs| - 1], xs[|xs| - 1];
      CountsIgnoreRegister(u, before, m, v);
      StepEffects(u, x, Run(u, before, m));
      StepEffects(u, x, Run(u, before, m.(skip := v)));
    }
  }

  /** So which instance decides last does not depend on what the register held, or on any stop. */
  lemma LastDeciderIgnoresRegister(u: Setup, xs: seq<Instance>, m: Thread, v: nat, i: nat)
    ensures LastDecider(u, xs, m, i) == LastDecider(u, xs, m.(skip := v), i)
  {
    hide Run, FirstHit, RunsClearing;
    forall j | 0 <= j < |xs|
      ensures DecidesAt(u, xs, m, j) == DecidesAt(u, xs, m.(skip := v), j)
    {
      CountsIgnoreRegister(u, xs[..j], m, v);
      HitsIgnoreRegister(u, u.bound, xs[j], Run(u, xs[..j], m), Run(u, xs[..j], m.(skip := v)));
    }
  }

  // ----- Which stops are lost -----

  /**
   For every run from a clear register: a true breakpoint at a nonzero address fails to stop
   exactly when the last instance that had a true breakpoint or ran the clearing was at the same
   address and did not run it. Whether that instance stopped itself makes no difference.
   */
  lemma StopLostIff(u: Setup, xs: seq<Instance>, y: Instance, m: Thread)
    requires m.skip == 0 && y.ins.pc != 0 && FirstHit(u, u.bound, y, Run(u, xs, m)).Some?
    ensures !Stops(u, y, Run(u, xs, m)) <==>
      exists i: nat :: LastDecider(u, xs, m, i) && xs[i].ins.pc == y.ins.pc && !RunsClearing(u, xs[i])
  {
    hide Run, FirstHit, DecidesAt, RunsClearing;
    var last := RegisterAfterRun(u, xs, m);
    if i: nat :| LastDecider(u, xs, m, i) && xs[i].ins.pc == y.ins.pc && !RunsClearing(u, xs[i]) {
      if last.Some? {
        LastDeciderIsUnique(u, xs, m, i, last.value);
      }
    }
  }

  /** At address 0 it is the other way round: only a register that still holds another address lets it stop. */
  lemma AddressZeroStopsIff(u: Setup, xs: seq<Instance>, y: Instance, m: Thread)
    requires m.skip == 0 && y.ins.pc == 0 && FirstHit(u, u.bound, y, Run(u, xs, m)).Some?
    ensures Stops(u, y, Run(u, xs, m)) <==>
      exists i: nat :: LastDecider(u, xs, m, i) && xs[i].ins.pc != 0 && !RunsClearing(u, xs[i])
  {
    hide Run, FirstHit, DecidesAt, RunsClearing;
    var last := RegisterAfterRun(u, xs, m);
    if i: nat :| LastDecider(u, xs, m, i) && xs[i].ins.pc != 0 && !RunsClearing(u, xs[i]) {
      if last.Some? {
        LastDeciderIsUnique(u, xs, m, i, last.value);
      }
    }
  }

  /** Every instance so far with a true breakpoint also ran the clearing behind it. */
  ghost predicate HitsCleared(u: Setup, xs: seq<Instance>, m: Thread) {
    forall i :: 0 <= i < |xs| && FirstHit(u, u.bound, xs[i], Run(u, xs[..i], m)).Some? ==> Clears(u, xs[i])
  }

  lemma HitsClearedStayReady(u: Setup, xs: seq<Instance>, m: Thread)
    requires m.skip == 0 && HitsCleared(u, xs, m)
    ensures Run(u, xs, m).skip == 0
  {
    hide Run, FirstHit;
    var last := RegisterAfterRun(u, xs, m);
    if last.Some? {
      var i := last.value;
      if FirstHit(u, u.bound, xs[i], Run(u, xs[..i], m)).Some? {
        HitsAreCleared(u, xs[i], Run(u, xs[..i], m));
      }
    }
  }

  /**
   When the instances with a true breakpoint so far ran the clearing behind them, the next
   instance stops before it exactly once if it has a true breakpoint and a nonzero address, and
   not at all otherwise; and behind it exactly once if a store-value breakpoint is true there.
   */
  lemma EachHitStopsOnce(u: Setup, xs: seq<Instance>, x: Instance, m: Thread)
    requires m.skip == 0 && HitsCleared(u, xs, m)
    ensures var before, after := Run(u, xs, m), Run(u, xs + [x], m);
      var hit, behind := FirstHit(u, u.bound, x, before), FirstAfterHit(u, u.bound, x);
      after.stops == before.stops
                     + (if hit.Some? && x.ins.pc != 0 then [Stop(hit.value, x.ins.pc, false)] else [])
                     + (if behind.Some? then [Stop(behind.value, x.ins.pc, true)] else [])
  {
    hide Step, Run, RecordsBefore, RecordsAfter, FirstHit, FirstAfterHit, CountsMemory, HitsCleared;
    HitsClearedStayReady(u, xs, m);
    RunSnoc(u, xs, x, m);
    StepEffects(u, x, Run(u, xs, m));
  }

  /** No instance of the stretch stops, and none runs the clearing. */
  ghost predicate Quiet(u: Setup, ys: seq<Instance>, m: Thread) {
    forall j :: 0 <= j < |ys| ==> !Stops(u, ys[j], Run(u, ys[..j], m)) && !RunsClearing(u, ys[j])
  }

  lemma {:induction false} QuietKeepsRegister(u: Setup, ys: seq<Instance>, m: Thread)
    requires Quiet(u, ys, m)
    ensures Run(u, ys, m).skip == m.skip
    decreases |ys|
  {
    hide Step, FirstHit, RunsClearing;
    if ys != [] {
      var before := ys[..|ys| - 1];
      assert forall j :: 0 <= j < |before| ==> before[..j] == ys[..j];
      QuietKeepsRegister(u, before, m);
      StepRegister(u, ys[|ys| - 1], Run(u, before, m));
    }
  }

  /**
   When control comes back to an address that has stopped, past instances that neither stop nor
   run the clearing, a true breakpoint there stops again exactly when the first instance left in
   an instrumented way and no breakpoint stopped behind it.
   */
  lemma RetriggersIffCleared(u: Setup, x: Instance, ys: seq<Instance>, y: Instance, m: Thread)
    requires Stops(u, x, m) && y.ins.pc == x.ins.pc != 0
    requires Quiet(u, ys, Step(u, x, m))
    requires FirstHit(u, u.bound, y, Run(u, ys, Step(u, x, m))).Some?
    ensures Stops(u, y, Run(u, ys, Step(u, x, m))) <==> Clears(u, x)
  {
    hide Run, Step, FirstHit, FirstAfterHit, Quiet;
    HitsAreCleared(u, x, m);
    StepRegister(u, x, m);
    QuietKeepsRegister(u, ys, Step(u, x, m));
  }

  /**
   A loop of a store and a jump back to it: a store-value breakpoint behind the store loses the
   stop before the store the next time round.
   */
  lemma StopIsLost() returns (u: Setup, store: Instance, jump: Instance, m: Thread)
    ensures m.skip == 0 && Stops(u, store, m) && FirstHit(u, u.bound, store, Run(u, [store, jump], m)).Some?
    ensures store.exit.FallsThrough? && jump.ins.pc == store.ins.pc + 4 && jump.exit.TakesBranch? && jump.target == store.ins.pc
    ensures LeavesInstrumented(store) && LeavesInstrumented(jump)
    ensures !Stops(u, store, Run(u, [store, jump], m))
  {
    var stores := Event(Breakpoint, StoreTo(64), "", None, false, true);
    var values := Event(Breakpoint, StoreValueTo(64, 7), "", None, false, true);
    u := Setup(map[1 := stores, 2 := values], 3, Config(false, false, false));
    store := Instance(Ins(16, 0, 4, false, true, false, false), 0, 0, 64, 7, 0, r => 0, r => 0, true, FallsThrough);
    jump := Instance(Ins(20, 0, 0, true, false, false, false), 0, 0, 0, 0, 16, r => 0, r => 0, true, TakesBranch);
    m := Thread(0, 0, 0, 0, [], []);
    TwoEventsAt(u, store, m);
    TwoEventsAt(u, jump, Step(u, store, m));
    RunSnoc(u, [store], jump, m);
    RunSnoc(u, [], store, m);
    assert [store] + [jump] == [store, jump] && [] + [store] == [store] && Run(u, [], m) == m;
    TwoEventsAt(u, store, Run(u, [store, jump], m));
    assert FirstAfterHit(u, 2, store) == None && FirstAfterHit(u, 3, store) == Some(2);
    StepRegister(u, store, m);
    StepRegister(u, jump, Step(u, store, m));
  }

  lemma TwoEventsAt(u: Setup, x: Instance, m: Thread)
    requires u.bound == 3 && u.events.Keys == {1, 2} && u.events[2].trigger.StoreValueTo? && IsStopper(u.events[1])
    ensures FirstHit(u, 3, x, m) == if Before(u, 1, x, m) then Some(1) else None
    ensures HasSkipClear(u, x.ins) <==> MayStop(u.events[1], x.ins)
  {
    assert FirstHit(u, 1, x, m) == None;
    assert FirstHit(u, 2, x, m) == if Before(u, 1, x, m) then Some(1) else None;
  }

  /** A breakpoint at instruction count k of a fresh thread is true at instance number k and at no other. */
  lemma CountIsInstanceNumber(u: Setup, xs: seq<Instance>, x: Instance, m: Thread, id: nat)
    requires u.config.countInstructions && m.icount == 0 && id in u.events && u.events[id].trigger.AtIcount?
    ensures Before(u, id, x, Run(u, xs, m)) <==> |xs| == u.events[id].trigger.count && m.tid == u.events[id].trigger.tid
  {
    hide Run;
    RunCounts(u, xs, m);
  }
}
