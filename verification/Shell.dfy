/** The debugger shell's event commands, working on its event map and trace log in place. */
module Shell {
  import opened Options
  import opened ShellEvents
  import opened TraceLog

  class DebuggerShell {
    var events: Events
    var nextEventId: nat
    var traceLog: seq<TraceRec>
    /** The shell that deletes at once, given the same commands. */
    ghost var ideal: Eager

    ghost function View(): Lazy
      reads this
    {
      Lazy(events, nextEventId, traceLog)
    }

    ghost predicate Valid()
      reads this
    {
      Agree(View(), ideal)
    }

    constructor ()
      ensures Valid() && ideal == EagerRun([]).0
    {
      events, nextEventId, traceLog, ideal := map[], 1, [], Eager(map[], 1, []);
    }

    /** Adds an event under the next number. */
    method AddEvent(kind: Kind, trigger: Trigger, msg: string, reg: Option<nat>) returns (id: nat)
      requires Valid()
      modifies this
      ensures Valid() && (ideal, Number(id)) == EagerStep(old(ideal), Add(kind, trigger, msg, reg))
      ensures id !in old(events)
    {
      hide Agree;
      ghost var c := Add(kind, trigger, msg, reg);
      AddAgrees(View(), ideal, c);
      AgreeMeans(View(), ideal);
      id := nextEventId;
      nextEventId := nextEventId + 1;
      events := events[id := Event(kind, trigger, msg, reg, false, true)];
      ideal := EagerStep(ideal, c).0;
    }

    /** Whether the user may name event `id` of this kind. */
    predicate ValidateId(kind: Kind, id: nat)
      reads this
    {
      id in events && events[id].kind == kind && !(kind == Tracepoint && events[id].deleted)
    }

    lemma ValidatedIsNamed(kind: Kind, id: nat)
      requires Valid()
      ensures ValidateId(kind, id) == Names(events, kind, id) == Names(ideal.events, kind, id)
    {
      NamesVisible(events, kind, id);
    }

    /** Deletes an event; a tracepoint that the log may name is only marked. */
    method DeleteEvent(kind: Kind, id: nat) returns (ok: bool)
      requires Valid()
      modifies this
      ensures Valid() && (ideal, if ok then Done else Rejected) == EagerStep(old(ideal), Delete(kind, id))
    {
      hide Agree;
      ValidatedIsNamed(kind, id);
      ok := ValidateId(kind, id);
      if ok {
        AgreeMeans(View(), ideal);
        DeleteAgrees(View(), ideal, kind, id);
        if kind == Tracepoint && traceLog != [] {
          events := events[id := events[id].(deleted := true)];
        } else {
          events := events - {id};
        }
        ideal := ideal.(events := ideal.events - {id});
      }
    }

    /** Switches one tracepoint on or off. */
    method EnableDisableTrace(id: nat, on: bool) returns (ok: bool)
      requires Valid()
      modifies this
      ensures Valid() && (ideal, if ok then Done else Rejected) == EagerStep(old(ideal), Enable(id, on))
    {
      hide Agree, Visible;
      ValidatedIsNamed(Tracepoint, id);
      NamesVisible(events, Tracepoint, id);
      AgreeMeans(View(), ideal);
      ok := ValidateId(Tracepoint, id);
      if ok {
        EnableAgrees(View(), ideal, id, on);
        ideal := EagerStep(ideal, Enable(id, on)).0;
        if events[id].enabled != on {
          events := events[id := events[id].(enabled := on)];
        } else {
          assert events[id := events[id].(enabled := on)] == events;
        }
      }
    }

    /** Switches all tracepoints on or off. */
    method EnableDisableAllTraces(on: bool)
      requires Valid()
      modifies this
      ensures Valid() && (ideal, Done) == EagerStep(old(ideal), EnableAll(on))
    {
      hide Agree;
      EnableAllAgrees(View(), ideal, on);
      SwitchAll(on);
      ideal := EagerStep(ideal, EnableAll(on)).0;
    }

    method SwitchAll(on: bool)
      modifies `events
      ensures events == Switched(old(events), on)
    {
      var left := events.Keys;
      while left != {}
        invariant left <= events.Keys == old(events).Keys
        invariant forall id :: id in events && id in left ==> events[id] == old(events)[id]
        invariant forall id :: id in events && id !in left ==> events[id] == Switched(old(events), on)[id]
        decreases left
      {
        var id :| id in left;
        left := left - {id};
        var e := events[id];
        if e.kind == Tracepoint && !e.deleted && e.enabled != on {
          events := events[id := e.(enabled := on)];
        }
      }
    }

    /** A tracepoint's instrumentation runs. */
    method RecordTracepoint(id: nat, pc: nat, regValue: nat)
      requires Valid() && Fires(events, id)
      modifies this
      ensures Valid() && (ideal, Done) == EagerStep(old(ideal), Fire(id, pc, regValue))
    {
      hide Agree, Visible;
      AgreeMeans(View(), ideal);
      NamesVisible(events, Tracepoint, id);
      FireAgrees(View(), ideal, id, pc, regValue);
      ideal := EagerStep(ideal, Fire(id, pc, regValue)).0;
      traceLog := traceLog + [TraceRec(id, pc, regValue)];
    }

    /** Forgets all records, and then the tracepoints that were only kept for them. */
    method ClearTraceLog()
      requires Valid()
      modifies this
      ensures Valid() && (ideal, Done) == EagerStep(old(ideal), Clear) && traceLog == []
    {
      ClearAgrees(View(), ideal);
      if traceLog != [] {
        traceLog := [];
        EraseDeleted();
      }
      ideal := EagerStep(ideal, Clear).0;
    }

    method EraseDeleted()
      requires forall id :: id in events && events[id].deleted ==> events[id].kind == Tracepoint
      modifies `events
      ensures events == Visible(old(events))
    {
      var left := events.Keys;
      while left != {}
        invariant left <= events.Keys <= old(events).Keys
        invariant forall id :: id in events ==> events[id] == old(events)[id]
        invariant forall id :: id in old(events) ==> (id in events <==> id in left || !old(events)[id].deleted)
        decreases left
      {
        var id :| id in left;
        left := left - {id};
        if events[id].kind == Tracepoint && events[id].deleted {
          events := events - {id};
        }
      }
    }

    /** Looks an event up as the original's map does: a number that is not there would become an event. */
    method LookUp(id: nat) returns (e: Event)
      modifies `events
      ensures id in old(events) ==> events == old(events) && e == events[id]
    {
      if id !in events {
        events := events[id := Event(Breakpoint, At(0), "", None, false, false)];
      }
      e := events[id];
    }

    /** Prints what each record said when it was made, and invents no event. */
    method PrintTraceLog() returns (lines: seq<Line>)
      requires Valid()
      modifies `events
      ensures events == old(events) && Printed(lines) == EagerStep(old(ideal), Print).1
    {
      lines := [];
      for i := 0 to |traceLog|
        invariant events == old(events) && lines == ideal.lines[..i]
      {
        var e := LookUp(traceLog[i].id);
        lines := lines + [LineOf(e, traceLog[i])];
      }
    }
  }
}
