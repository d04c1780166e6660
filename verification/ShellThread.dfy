/** The analysis calls of one instruction instance, and the resumption after a stop. */
module ShellThread {
  import opened Options
  import opened ShellEvents
  import opened SkipOne

  class ThreadState {
    const u: Setup
    const tid: nat
    var regSkipOne: nat
    var icount: nat
    var mcount: nat
    var traceLog: seq<Record>
    var stops: seq<Stop>

    ghost function View(): Thread
      reads this
    {
      Thread(tid, regSkipOne, icount, mcount, traceLog, stops)
    }

    constructor (u: Setup, tid: nat)
      ensures this.u == u && View() == Thread(tid, 0, 0, 0, [], [])
    {
      this.u, this.tid := u, tid;
      regSkipOne, icount, mcount, traceLog, stops := 0, 0, 0, [], [];
    }

    /** Stops unless execution has just resumed here. */
    method TriggerBreakpointBefore(id: nat, pc: nat) returns (stopped: bool)
      modifies `regSkipOne, `stops
      ensures stopped <==> old(regSkipOne) != pc
      ensures regSkipOne == pc
      ensures stops == if stopped then old(stops) + [Stop(id, pc, false)] else old(stops)
    {
      if regSkipOne == pc {
        return false;
      }
      regSkipOne := pc;
      stops := stops + [Stop(id, pc, false)];
      stopped := true;
    }

    /** The breakpoint checks, in the order of the events, up to the first stop. */
    method CheckBreakpoints(x: Instance) returns (stopped: bool)
      modifies `regSkipOne, `stops
      ensures stopped == Stops(u, x, old(View()))
      ensures regSkipOne == if stopped then x.ins.pc else old(regSkipOne)
      ensures stops == if stopped then old(stops) + [Stop(FirstHit(u, u.bound, x, old(View())).value, x.ins.pc, false)] else old(stops)
    {
      hide HoldsBefore, IsStopper;
      stopped := false;
      for id := 0 to u.bound
        invariant regSkipOne == old(regSkipOne) && stops == old(stops)
        invariant FirstHit(u, id, x, old(View())).Some? ==> regSkipOne == x.ins.pc
      {
        if id in u.events && IsStopper(u.events[id]) && HoldsBefore(u.config, u.events[id].trigger, x, tid, icount, mcount) {
          assert FirstHit(u, id, x, old(View())).None? ==> FirstHit(u, id + 1, x, old(View())) == Some(id);
          stopped := TriggerBreakpointBefore(id, x.ins.pc);
          if stopped {
            FirstHitStays(u, id + 1, x, old(View()));
            return;
          }
        }
      }
    }

    /** The tracepoint checks, in the order of the events. */
    method RecordTracepoints(x: Instance)
      modifies `traceLog
      ensures traceLog == old(traceLog) + RecordsBefore(u, u.bound, x, old(View()))
    {
      hide HoldsBefore, IsTracer;
      for id := 0 to u.bound
        invariant traceLog == old(traceLog) + RecordsBefore(u, id, x, old(View()))
      {
        if id in u.events && IsTracer(u.events[id]) && HoldsBefore(u.config, u.events[id].trigger, x, tid, icount, mcount) {
          traceLog := traceLog + [RecordOf(u.events[id], id, x.ins.pc, x.regs)];
        }
      }
    }

    method Count(x: Instance)
      modifies `icount, `mcount
      ensures icount == old(icount) + (if u.config.countInstructions then 1 else 0)
      ensures mcount == old(mcount) + (if u.config.countInstructions && CountsMemory(u.config, x) then 1 else 0)
    {
      if u.config.countInstructions {
        icount := icount + 1;
        var isMemory := AccessesMemory(x.ins);
        if x.ins.prefetch && !u.config.countPrefetch {
          isMemory := false;
        }
        if isMemory {
          if MayAccessNothing(u.config, x.ins) {
            if x.executing {
              mcount := mcount + 1;
            }
          } else {
            mcount := mcount + 1;
          }
        }
      }
    }

    /** One pass over the instrumentation before the instruction; a stop abandons the rest of it. */
    method InstrumentationBefore(x: Instance) returns (stopped: bool)
      modifies this
      ensures stopped == Stops(u, x, old(View()))
      ensures stopped ==> Stopped(u, x, old(View()), View())
      ensures !stopped ==> View() == PartBefore(u, x, old(View()))
    {
      hide FirstHit, RecordsBefore, CountsMemory;
      stopped := CheckBreakpoints(x);
      if !stopped {
        ghost var m := View();
        RecordTracepoints(x);
        Count(x);
      }
    }

    /** The checks after the instruction, in the order of the events; a stop abandons what follows it. */
    method InstrumentationAfter(x: Instance)
      modifies this
      ensures View() == PartAfter(u, x, old(View()))
    {
      hide HoldsAfter, IsStopper, IsTracer, MayStop;
      for id := 0 to u.bound
        invariant View() == old(View()) && FirstAfterHit(u, id, x).None?
      {
        if id in u.events && IsStopper(u.events[id]) && HoldsAfter(u.events[id].trigger, x) {
          FirstAfterHitStays(u, id + 1, x);
          stops := stops + [Stop(id, x.ins.pc, true)];
          return;
        }
      }
      for id := 0 to u.bound
        invariant View() == old(View()).(log := old(traceLog) + RecordsAfter(u, id, x))
      {
        if id in u.events && IsTracer(u.events[id]) && HoldsAfter(u.events[id].trigger, x) {
          traceLog := traceLog + [RecordOf(u.events[id], id, x.ins.pc, x.regsAfter)];
        }
      }
      var insertSkipClear := false;
      for id := 0 to u.bound
        invariant insertSkipClear <==> exists i :: 0 <= i < id && i in u.events && MayStop(u.events[i], x.ins)
      {
        if id in u.events && MayStop(u.events[id], x.ins) {
          insertSkipClear := true;
        }
      }
      if insertSkipClear && LeavesInstrumented(x) {
        regSkipOne := 0;
      }
    }

    /**
     One instance: the debugger resumes each stop by running the instrumentation again, which
     comes out as one pass with at most one stop.
     */
    method Execute(x: Instance)
      modifies this
      ensures View() == Step(u, x, old(View()))
    {
      hide FirstHit, RecordsBefore, RecordsAfter, FirstAfterHit, HasSkipClear, PartAfter, CountsMemory;
      var stopped := InstrumentationBefore(x);
      while stopped
        invariant stopped ==> Stopped(u, x, old(View()), View()) && Stops(u, x, old(View()))
        invariant !stopped ==> View() == PartBefore(u, x, old(View()))
        decreases stopped
      {
        PassAfterStop(u, x, old(View()), View());
        stopped := InstrumentationBefore(x);
      }
      InstrumentationAfter(x);
    }
  }

  /** The thread at a stop before the instruction. */
  ghost predicate Stopped(u: Setup, x: Instance, m: Thread, n: Thread) {
    Stops(u, x, m) && n == m.(skip := x.ins.pc, stops := m.stops + [Stop(FirstHit(u, u.bound, x, m).value, x.ins.pc, false)])
  }

  lemma {:induction false} FirstHitStays(u: Setup, n: nat, x: Instance, m: Thread)
    requires n <= u.bound && FirstHit(u, n, x, m).Some?
    ensures FirstHit(u, u.bound, x, m) == FirstHit(u, n, x, m)
    decreases u.bound - n
  {
    if n < u.bound {
      FirstHitStays(u, n + 1, x, m);
    }
  }

  lemma {:induction false} FirstAfterHitStays(u: Setup, n: nat, x: Instance)
    requires n <= u.bound && FirstAfterHit(u, n, x).Some?
    ensures FirstAfterHit(u, u.bound, x) == FirstAfterHit(u, n, x)
    decreases u.bound - n
  {
    if n < u.bound {
      FirstAfterHitStays(u, n + 1, x);
    }
  }

  lemma {:induction false} ChecksIgnoreSkip(u: Setup, n: nat, x: Instance, m: Thread, skip: nat, stops: seq<Stop>)
    ensures var r := m.(skip := skip, stops := stops);
      FirstHit(u, n, x, r) == FirstHit(u, n, x, m) && RecordsBefore(u, n, x, r) == RecordsBefore(u, n, x, m)
    decreases n
  {
    hide HoldsBefore, IsStopper, IsTracer;
    if n > 0 {
      ChecksIgnoreSkip(u, n - 1, x, m, skip, stops);
    }
  }

  /** The pass after a stop does not stop again, and completes what the first one abandoned. */
  lemma PassAfterStop(u: Setup, x: Instance, m: Thread, n: Thread)
    requires Stopped(u, x, m, n)
    ensures !Stops(u, x, n) && PartBefore(u, x, n) == PartBefore(u, x, m)
  {
    hide FirstHit, RecordsBefore;
    ChecksIgnoreSkip(u, u.bound, x, m, n.skip, n.stops);
  }
}
