/** The uniform sampler on top of three counting alarms, each on one thread or on all. */
module UniformControl {
  import opened Options
  import opened Alarm
  import opened Uniform
  import opened UniformThreads

  class ControlUniform {
    const config: Config
    /** The threads whose instructions the alarms count; ALL_THREADS is the default of each. */
    const tids: Tids
    const threads: nat
    const alarmPeriod: ArmedCount
    const alarmLength: ArmedCount
    const alarmSkip: ArmedCount
    var skipActive: bool
    var sampleCount: nat
    /** The control handler's calls so far. */
    var calls: seq<Call>

    ghost predicate Separate() {
      && alarmPeriod != alarmLength && alarmPeriod != alarmSkip && alarmLength != alarmSkip
      && alarmPeriod.count != alarmLength.count && alarmPeriod.count != alarmSkip.count
      && alarmLength.count != alarmSkip.count && alarmPeriod.armed != alarmLength.armed
      && alarmPeriod.armed != alarmSkip.armed && alarmLength.armed != alarmSkip.armed
    }

    ghost predicate Ready(al: ArmedCount)
      reads al
    {
      al.Valid() && al.active && al.maxThreads == threads
    }

    ghost predicate Valid()
      reads this, alarmPeriod, alarmLength, alarmSkip
    {
      && Separate() && AllName(tids, threads) && Ready(alarmPeriod) && Ready(alarmLength) && Ready(alarmSkip)
      && sampleCount == Number(calls, STOP)
    }

    ghost function View(): (s: Threads)
      requires Valid()
      reads this, alarmPeriod, alarmLength, alarmSkip, alarmPeriod.count, alarmLength.count, alarmSkip.count,
            alarmPeriod.armed, alarmLength.armed, alarmSkip.armed
      ensures Sized(s, threads)
    {
      Threads(alarmPeriod.View(), alarmLength.View(), alarmSkip.View(), skipActive, sampleCount, calls)
    }

    /** An activated alarm, set on `n` instructions of the named threads if there is such a count. */
    static method MakeAlarm(maxThreads: nat, tid: nat, n: Option<nat>) returns (al: ArmedCount)
      requires 0 < maxThreads && Names(tid, maxThreads)
      ensures fresh(al) && fresh(al.count) && fresh(al.armed)
      ensures al.Valid() && al.active && al.maxThreads == maxThreads
      ensures al.View() == if n.Some? then SetOn(Unset(maxThreads), n.value, false, false, tid) else Unset(maxThreads)
    {
      al := new ArmedCount(maxThreads, 0);
      al.ActivateCommon();
      if n.Some? {
        al.Set(n.value, false, false, tid);
      }
    }

    /** Activates the alarms and sets the first one. */
    constructor CheckKnobs(config: Config, tids: Tids, maxThreads: nat)
      requires Accepted(config) && 0 < maxThreads && AllName(tids, maxThreads)
      ensures Valid() && this.config == config && this.tids == tids && threads == maxThreads
      ensures fresh(alarmPeriod) && fresh(alarmPeriod.count) && fresh(alarmPeriod.armed)
      ensures fresh(alarmLength) && fresh(alarmLength.count) && fresh(alarmLength.armed)
      ensures fresh(alarmSkip) && fresh(alarmSkip.count) && fresh(alarmSkip.armed)
      ensures View() == RunOnThreads(config, tids, maxThreads, [])
    {
      this.config, this.tids, threads := config, tids, maxThreads;
      var p := MakeAlarm(maxThreads, tids.period, if config.skip.Some? then None else Some(config.period));
      var l := MakeAlarm(maxThreads, tids.length, None);
      var s := MakeAlarm(maxThreads, tids.skip, config.skip);
      alarmPeriod, alarmLength, alarmSkip := p, l, s;
      skipActive, sampleCount, calls := config.skip.Some?, 0, [];
    }

    /** The handler of the period and skip alarms. */
    method Start()
      requires Valid()
      modifies this, alarmPeriod, alarmPeriod.count, alarmPeriod.armed, alarmLength, alarmLength.count, alarmLength.armed
      ensures Valid() && View() == StartOnThreads(config, tids, threads, old(View()))
    {
      hide SetOn;
      NumberSnoc(calls, START, STOP);
      if sampleCount < config.count {
        alarmPeriod.Set(config.period, false, false, tids.period);
        if skipActive {
          skipActive := false;
        } else {
          alarmLength.Set(config.length, false, false, tids.length);
          calls := calls + [START];
        }
      }
    }

    /** The handler of the length alarm. */
    method Stop()
      requires Valid()
      modifies this
      ensures Valid() && View() == StopOnThreads(old(View()))
    {
      NumberSnoc(calls, STOP, STOP);
      sampleCount := sampleCount + 1;
      calls := calls + [STOP];
    }

    /** A thread executes a block: the alarms advance in the order of their activation. */
    method Block(t: nat, n: nat)
      requires Valid() && t < threads
      modifies this, alarmPeriod, alarmPeriod.count, alarmPeriod.armed, alarmLength, alarmLength.count, alarmLength.armed,
               alarmSkip.count, alarmSkip.armed
      ensures Valid() && View() == StepOnThreads(config, tids, threads, old(View()), Alarm.Block.Block(t, n))
    {
      hide PeriodOnThreads, LengthOnThreads, SkipOnThreads;
      BlockOfPeriod(t, n);
      BlockOfLength(t, n);
      BlockOfSkip(t, n);
    }

    method BlockOfPeriod(t: nat, n: nat)
      requires Valid() && t < threads
      modifies this, alarmPeriod, alarmPeriod.count, alarmPeriod.armed, alarmLength, alarmLength.count, alarmLength.armed
      ensures Valid() && View() == PeriodOnThreads(config, tids, threads, old(View()), Alarm.Block.Block(t, n))
    {
      hide Advance, Fires, StartOnThreads;
      var fires := alarmPeriod.AdvanceBlock(t, 0, 0, n);
      if fires {
        Start();
      }
    }

    method BlockOfLength(t: nat, n: nat)
      requires Valid() && t < threads
      modifies this, alarmLength.count, alarmLength.armed
      ensures Valid() && View() == LengthOnThreads(threads, old(View()), Alarm.Block.Block(t, n))
    {
      hide Advance, Fires;
      var fires := alarmLength.AdvanceBlock(t, 0, 0, n);
      if fires {
        Stop();
      }
    }

    method BlockOfSkip(t: nat, n: nat)
      requires Valid() && t < threads
      modifies this, alarmPeriod, alarmPeriod.count, alarmPeriod.armed, alarmLength, alarmLength.count, alarmLength.armed,
               alarmSkip.count, alarmSkip.armed
      ensures Valid() && View() == SkipOnThreads(config, tids, threads, old(View()), Alarm.Block.Block(t, n))
    {
      hide Advance, Fires, StartOnThreads;
      var fires := alarmSkip.AdvanceBlock(t, 0, 0, n);
      if fires {
        Start();
      }
    }

    /** Done once exactly as many STOPs have been reported as samples were asked for. */
    method IsDone() returns (done: bool)
      requires Valid()
      ensures done <==> Number(calls, STOP) == config.count
    {
      done := sampleCount == config.count;
    }
  }
}
