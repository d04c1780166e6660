/**
 The controller of one thread's pinpoints: it keeps one alarm per mark armed, and runs the
 state machine when an alarm fires. Its visits are proved to be steps of `PinpointRun`.
 */
module PinpointControl {
  import opened Options
  import opened Pinpoint
  import opened PinpointRun
  import opened PinpointAlarm

  /** A visit of `mark` that fires what it should keeps every register right. */
  lemma NextAfterVisit(refs: seq<MarkRef>, seen: seq<nat>, mark: nat, watched: bool, fires: bool, armed: seq<Option<nat>>)
    requires mark < |seen| == |armed|
    requires forall i :: 0 <= i < |seen| ==> IsNextUpTo(refs, |refs|, i, seen[i], armed[i])
    requires fires <==> watched && armed[mark].Some? && armed[mark].value < |refs| && refs[armed[mark].value].count == seen[mark] + 1
    ensures var m := if fires then 0 else |refs|;
            var seen' := if watched then seen[mark := seen[mark] + 1] else seen;
            var armed' := if fires then armed[mark := None] else armed;
            forall i :: 0 <= i < |seen'| ==> IsNextUpTo(refs, m, i, seen'[i], armed'[i])
  {
    hide IsNext, IsNextUpTo;
    var seen' := if watched then seen[mark := seen[mark] + 1] else seen;
    forall i | 0 <= i < |seen|
      ensures IsNextUpTo(refs, if fires then 0 else |refs|, i, seen'[i], (if fires then armed[mark := None] else armed)[i])
    {
      NextLooksAtAll(refs, i, seen[i], armed[i]);
      if watched && i == mark {
        NextLooksAtAll(refs, i, seen[i] + 1, armed[i]);
        if !fires {
          NextStays(refs, i, seen[i], armed[i]);
        }
      }
    }
  }

  class Controller {
    const knobs: Knobs
    const regions: seq<Region>
    const marks: seq<AddressCountAlarm>
    var currentPp: int
    var currentPhase: int
    var lastPp: int
    var currentPpStartIcount: nat
    /** The control handler's calls so far, and whether the markers were found out of order. */
    var calls: seq<Call>
    var aborted: bool

    /** Visits of each mark by the watched thread, and the position of the marker armed there. */
    ghost var seen: seq<nat>
    ghost var armed: seq<Option<nat>>
    /** Numbers the marks' arrays, so that they are known to be distinct. */
    ghost const slot: map<object, nat>
    ghost const counters: set<object>
    ghost const registers: set<object>

    ghost function Pp(): State
      reads this
    {
      State(currentPp, currentPhase, lastPp, currentPpStartIcount, aborted, calls)
    }

    ghost function View(): System
      reads this
    {
      System(seen, Pp())
    }

    ghost predicate MarkShaped(i: nat)
      requires i < |marks|
    {
      var al := marks[i];
      && al.Shaped() && al.watchThread == knobs.watchThread
      && al.counts in counters && al.alarms in registers && al.handlers in registers
      && al.counts in slot && al.alarms in slot && al.handlers in slot
      && slot[al.counts] == slot[al.alarms] == slot[al.handlers] == i
    }

    /** The marks and their arrays are distinct objects, and the markers name marks and can be reached. */
    ghost predicate Shaped() {
      && Numbered(regions)
      && this !in counters && this !in registers
      && (forall i {:trigger marks[i]} :: 0 <= i < |marks| ==> MarkShaped(i))
      && counters !! registers
      && (forall j :: 0 <= j < |Refs(regions)| ==> Refs(regions)[j].mark < |marks| && Refs(regions)[j].count < NEVER)
    }

    ghost predicate Counted()
      requires Shaped()
      reads `seen, counters
    {
      && |seen| == |marks|
      && forall i :: 0 <= i < |marks| ==> marks[i].counts[knobs.watchThread] == seen[i] < NEVER
    }

    /** The register of mark `i` holds marker `a`, or nothing. */
    ghost predicate Holds(i: nat, a: Option<nat>)
      requires i < |marks| && MarkShaped(i)
      reads marks[i].alarms, marks[i].handlers
    {
      var w := knobs.watchThread;
      match a
      case None => marks[i].alarms[w] == NEVER
      case Some(p) =>
        && p < |Refs(regions)| && marks[i].alarms[w] == Refs(regions)[p].count < NEVER
        && marks[i].handlers[w] == Some(Refs(regions)[p])
    }

    /** The registers hold the markers in `armed`. */
    ghost predicate Holding()
      requires Shaped()
      reads `armed, registers
    {
      |armed| == |marks| && forall i :: 0 <= i < |marks| ==> Holds(i, armed[i])
    }

    /** Every register is right as far as the first `m` markers go. */
    ghost predicate ArmedUpTo(m: nat)
      requires Shaped()
      reads `seen, `armed, registers
    {
      && Holding() && |seen| == |marks|
      && forall i :: 0 <= i < |marks| ==> IsNextUpTo(Refs(regions), m, i, seen[i], armed[i])
    }

    ghost predicate Valid()
      reads this, counters, registers
    {
      Shaped() && Counted() && (!aborted ==> ArmedUpTo(|Refs(regions)|))
    }

    /** Allocates the marks; `slots` numbers their arrays. */
    static method MakeMarks(numMarks: nat, maxThreads: nat, watchThread: nat)
      returns (ms: seq<AddressCountAlarm>, ghost cs: set<object>, ghost rs: set<object>, ghost slots: map<object, nat>)
      requires watchThread < maxThreads
      ensures |ms| == numMarks && cs !! rs && fresh(cs) && fresh(rs)
      ensures forall i :: 0 <= i < numMarks ==>
        && ms[i].Shaped() && ms[i].watchThread == watchThread && ms[i].counts.Length == maxThreads
        && ms[i].counts[watchThread] == 0 && ms[i].alarms[watchThread] == NEVER
        && ms[i].counts in cs && ms[i].alarms in rs && ms[i].handlers in rs
        && ms[i].counts in slots && ms[i].alarms in slots && ms[i].handlers in slots
        && slots[ms[i].counts] == slots[ms[i].alarms] == slots[ms[i].handlers] == i
    {
      ms, cs, rs, slots := [], {}, {}, map[];
      for i := 0 to numMarks
        invariant |ms| == i && cs !! rs && slots.Keys == cs + rs
        invariant fresh(cs) && fresh(rs)
        invariant forall j :: 0 <= j < i ==>
          && ms[j].Shaped() && ms[j].watchThread == watchThread && ms[j].counts.Length == maxThreads
          && ms[j].counts[watchThread] == 0 && ms[j].alarms[watchThread] == NEVER
          && ms[j].counts in cs && ms[j].alarms in rs && ms[j].handlers in rs
          && slots[ms[j].counts] == slots[ms[j].alarms] == slots[ms[j].handlers] == j
      {
        var al := new AddressCountAlarm.Activate(maxThreads, watchThread);
        ms := ms + [al];
        cs, rs := cs + {al.counts}, rs + {al.alarms, al.handlers};
        slots := slots[al.counts := i][al.alarms := i][al.handlers := i];
      }
    }

    /** Takes the regions and marks as read from the file, and arms the first markers. */
    constructor (knobs: Knobs, regions: seq<Region>, numMarks: nat, maxThreads: nat)
      requires Numbered(regions) && knobs.watchThread < maxThreads
      requires forall j :: 0 <= j < |Refs(regions)| ==> Refs(regions)[j].mark < numMarks && Refs(regions)[j].count < NEVER
      ensures Valid() && fresh(counters) && fresh(registers)
      ensures this.knobs == knobs && this.regions == regions && |marks| == numMarks
      ensures forall i :: 0 <= i < numMarks ==> marks[i].counts.Length == maxThreads
      ensures View() == Run(knobs, regions, numMarks, [])
    {
      hide Refs;
      this.knobs, this.regions := knobs, regions;
      currentPp, currentPhase, lastPp, currentPpStartIcount, calls, aborted := 0, 0, 0, 0, [], false;
      seen, armed := seq(numMarks, i => 0), seq(numMarks, i => None);
      var ms, cs, rs, slots := MakeMarks(numMarks, maxThreads, knobs.watchThread);
      marks, counters, registers, slot := ms, cs, rs, slots;
      new;
      assert forall i :: 0 <= i < numMarks ==> marks[i].Shaped() && marks[i].watchThread == knobs.watchThread;
      assert forall i :: 0 <= i < numMarks ==> MarkShaped(i);
      SetAlarms();
    }

    // ----- Arming -----

    /** Arms marker `ref`, number `m`, if it is due before what is armed there now. */
    method Consider(ref: MarkRef, ghost m: nat)
      requires Shaped() && Counted() && ArmedUpTo(m) && m < |Refs(regions)| && Refs(regions)[m] == ref
      modifies registers, `armed
      ensures Counted() && ArmedUpTo(m + 1)
    {
      hide Refs, IsNextUpTo;
      ghost var refs, before := Refs(regions), armed;
      var al, w := marks[ref.mark], knobs.watchThread;
      if ref.count > al.counts[w] && (al.alarms[w] == NEVER || ref.count < al.alarms[w]) {
        al.SetAlarm(ref.count, ref, w);
        armed := armed[ref.mark := Some(m)];
      }
      forall i | 0 <= i < |marks|
        ensures IsNextUpTo(refs, m + 1, i, seen[i], armed[i])
      {
        ConsiderKeepsNext(refs, m, i, seen[i], before[i]);
      }
    }

    /** Arms at every mark the next marker due there. */
    method SetAlarms()
      requires Shaped() && Counted() && ArmedUpTo(0)
      modifies registers, `armed
      ensures Counted() && ArmedUpTo(|Refs(regions)|)
    {
      for r := 0 to |regions|
        invariant Counted() && ArmedUpTo(2 * r)
      {
        Consider(regions[r].start, 2 * r);
        Consider(regions[r].stop, 2 * r + 1);
      }
    }

    // ----- The state machine -----

    predicate Selects(pp: int) {
      && knobs.deselect != pp
      && (knobs.select == -1 || knobs.select == pp)
      && (knobs.thread == -1 || knobs.thread == knobs.watchThread)
    }

    /** The control handler sees the current pinpoint and phase. */
    method ControlHandler(kind: EventKind)
      modifies `calls
      ensures calls == old(calls) + [Call(kind, currentPp, currentPhase)]
    {
      calls := calls + [Call(kind, currentPp, currentPhase)];
    }

    /** Looks for more pinpoints that start here; the handler sees each of them for a moment. */
    method StartMore(ref: MarkRef, icount: nat)
      modifies `currentPp, `currentPhase, `currentPpStartIcount, `calls
      ensures Pp() == AuxStarts(knobs, regions, |regions|, ref, old(Pp()))
    {
      for r := 0 to |regions|
        invariant Pp() == AuxStarts(knobs, regions, r, ref, old(Pp()))
      {
        var localref := regions[r].start;
        if ref.count == localref.count && localref.pp > currentPp && ref.mark == localref.mark {
          if Selects(localref.pp) {
            var tmpPp, tmpPhase, tmpIcount := currentPp, currentPhase, currentPpStartIcount;
            currentPp, currentPhase, currentPpStartIcount := localref.pp, localref.phase, icount;
            ControlHandler(Start);
            currentPp, currentPhase, currentPpStartIcount := tmpPp, tmpPhase, tmpIcount;
          }
        }
      }
    }

    /** Looks for more pinpoints that stop here. */
    method StopMore(ref: MarkRef)
      modifies `currentPp, `currentPhase, `lastPp, `calls
      ensures Pp() == AuxStops(knobs, regions, |regions|, ref, old(Pp()))
    {
      for r := 0 to |regions|
        invariant Pp() == AuxStops(knobs, regions, r, ref, old(Pp()))
      {
        var localref := regions[r].stop;
        if ref.count == localref.count && localref.pp > currentPp && ref.mark == localref.mark {
          if Selects(localref.pp) {
            currentPp, currentPhase := localref.pp, localref.phase;
            ControlHandler(Stop);
          }
          lastPp := localref.pp;
        }
      }
    }

    /** Looks for pinpoints that start at a stop marker. */
    method StartOnStop(ref: MarkRef, icount: nat)
      modifies `currentPp, `currentPhase, `currentPpStartIcount, `calls
      ensures Pp() == StartsOnStop(knobs, regions, |regions|, ref, old(Pp()), icount)
    {
      for r := 0 to |regions|
        invariant Pp() == StartsOnStop(knobs, regions, r, ref, old(Pp()), icount)
      {
        var localref := regions[r].start;
        if ref.count == localref.count && ref.mark == localref.mark {
          currentPp, currentPhase, currentPpStartIcount := localref.pp, localref.phase, icount;
          if Selects(currentPp) {
            ControlHandler(Start);
          }
        }
      }
    }

    /** Marker `ref` has fired. An abort stands for the exit of the original on markers out of order. */
    method CheckAlarm(ref: MarkRef, icount: nat)
      requires !aborted
      modifies `currentPp, `currentPhase, `lastPp, `currentPpStartIcount, `calls, `aborted
      ensures Pp() == Check(knobs, regions, old(Pp()), ref, icount)
    {
      if ref.start {
        if currentPp == ref.pp {
          return;
        } else if currentPp == 0 {
          if lastPp + 1 != ref.pp {
            aborted := true;
            return;
          }
          currentPp, currentPhase, currentPpStartIcount := ref.pp, ref.phase, icount;
          if Selects(currentPp) {
            ControlHandler(Start);
          }
          StartMore(ref, icount);
        } else {
          aborted := true;
        }
      } else {
        if currentPp == ref.pp {
          StopPinpoint(ref, icount);
        } else if currentPp == 0 && lastPp == ref.pp {
          return;
        } else {
          aborted := true;
        }
      }
    }

    method StopPinpoint(ref: MarkRef, icount: nat)
      requires !aborted && !ref.start && currentPp == ref.pp
      modifies `currentPp, `currentPhase, `lastPp, `currentPpStartIcount, `calls
      ensures Pp() == Check(knobs, regions, old(Pp()), ref, icount)
    {
      if Selects(currentPp) {
        ControlHandler(Stop);
      }
      lastPp := 0;
      StopMore(ref);
      currentPpStartIcount := 0;
      if lastPp == 0 {
        lastPp := ref.pp;
      }
      currentPp := 0;
      StartOnStop(ref, icount);
    }

    // ----- Visits -----

    /** The marker armed at `mark`, if this visit of the watched thread is its visit. */
    ghost function Due(thread: nat, mark: nat): Option<MarkRef>
      requires mark < |seen| && mark < |armed| && (armed[mark].Some? ==> armed[mark].value < |Refs(regions)|)
      reads `seen, `armed
    {
      if thread == knobs.watchThread && armed[mark].Some? && Refs(regions)[armed[mark].value].count == seen[mark] + 1 then
        Some(Refs(regions)[armed[mark].value])
      else None
    }

    method Tally(thread: nat, mark: nat) returns (fired: Option<MarkRef>)
      requires Shaped() && Counted() && Holding() && mark < |marks| && marks[mark].Waiting()
      requires thread < marks[mark].counts.Length && marks[mark].counts[thread] + 1 < NEVER
      modifies counters, registers, `seen, `armed
      ensures Counted() && Holding() && fired == old(Due(thread, mark))
      ensures seen == if thread == knobs.watchThread then old(seen)[mark := old(seen)[mark] + 1] else old(seen)
      ensures armed == if fired.Some? then old(armed)[mark := None] else old(armed)
    {
      hide Refs;
      fired := marks[mark].DoCount(thread);
      if thread == knobs.watchThread {
        seen := seen[mark := seen[mark] + 1];
        armed := armed[mark := if fired.Some? then None else armed[mark]];
      }
    }

    /** Counts a visit. What fires is the first marker at this visit of the watched thread. */
    method CountVisit(thread: nat, mark: nat) returns (fired: Option<MarkRef>)
      requires Valid() && !aborted
      requires mark < |marks| && thread < marks[mark].counts.Length && marks[mark].counts[thread] + 1 < NEVER
      modifies counters, registers, `seen, `armed
      ensures Counted() && ArmedUpTo(if fired.Some? then 0 else |Refs(regions)|)
      ensures seen == if thread == knobs.watchThread then old(seen)[mark := old(seen)[mark] + 1] else old(seen)
      ensures fired == if thread == knobs.watchThread then FirstAt(Refs(regions), mark, old(seen)[mark] + 1) else None
    {
      hide Refs, FirstAt, IsNext, IsNextUpTo;
      ghost var refs, was, before := Refs(regions), seen, armed;
      NextLooksAtAll(refs, mark, was[mark], before[mark]);
      NextFires(refs, mark, was[mark], before[mark]);
      fired := Tally(thread, mark);
      NextAfterVisit(refs, was, mark, thread == knobs.watchThread, fired.Some?, before);
    }

    /** `thread` executes marked instruction `mark` when the watched thread's count is `icount`. */
    method Visit(thread: nat, mark: nat, icount: nat)
      requires Valid() && !aborted
      requires mark < |marks| && thread < marks[mark].counts.Length && marks[mark].counts[thread] + 1 < NEVER
      modifies this, counters, registers
      ensures Valid()
      ensures View() == Step(knobs, regions, old(View()), PinpointRun.Visit.Visit(thread, mark, icount))
    {
      hide Check, Refs, FirstAt;
      var fired := CountVisit(thread, mark);
      if fired.Some? {
        CheckAlarm(fired.value, icount);
        if !aborted {
          SetAlarms();
        }
      }
    }
  }
}
