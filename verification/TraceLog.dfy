/**
 The shell's events and its trace log. A deleted tracepoint is kept while the log may name it and
 erased when the log is cleared; for the user this is the same as a shell that deletes at once
 and remembers the text of each record.
 */
module TraceLog {
  import opened Options
  import opened ShellEvents

  datatype TraceRec = TraceRec(id: nat, pc: nat, regValue: nat)

  /** A printed record: address, message, and register with its value. */
  datatype Line = Line(pc: nat, msg: string, reg: Option<(nat, nat)>)

  datatype Command =
    | Add(kind: Kind, trigger: Trigger, msg: string, reg: Option<nat>)
    | Delete(kind: Kind, id: nat)
    | Enable(id: nat, on: bool)
    | EnableAll(on: bool)
    | Fire(id: nat, pc: nat, regValue: nat)
    | Clear
    | Print

  /** What the user gets back. */
  datatype Reply = Number(id: nat) | Done | Rejected | Printed(lines: seq<Line>)

  function LineOf(e: Event, r: TraceRec): Line {
    Line(r.pc, e.triggerMsg, if e.reg.Some? then Some((e.reg.value, r.regValue)) else None)
  }

  predicate CanName(e: Event, kind: Kind) {
    e.kind == kind && !e.deleted
  }

  predicate Names(events: Events, kind: Kind, id: nat) {
    id in events && CanName(events[id], kind)
  }

  /** Only tracepoints that the user has and has not switched off are instrumented. */
  predicate Fires(events: Events, id: nat) {
    Names(events, Tracepoint, id) && events[id].enabled
  }

  function NewEvent(c: Command): Event
    requires c.Add?
  {
    Event(c.kind, c.trigger, c.msg, c.reg, false, true)
  }

  // ----- The shell that deletes at once -----

  datatype Eager = Eager(events: Events, next: nat, lines: seq<Line>)

  function EagerStep(s: Eager, c: Command): (Eager, Reply) {
    match c
    case Add(_, _, _, _) => (s.(events := s.events[s.next := NewEvent(c)], next := s.next + 1), Number(s.next))
    case Delete(kind, id) => if Names(s.events, kind, id) then (s.(events := s.events - {id}), Done) else (s, Rejected)
    case Enable(id, on) =>
      if Names(s.events, Tracepoint, id) then (s.(events := s.events[id := s.events[id].(enabled := on)]), Done) else (s, Rejected)
    case EnableAll(on) => (s.(events := Switched(s.events, on)), Done)
    case Fire(id, pc, v) =>
      if Fires(s.events, id) then (s.(lines := s.lines + [LineOf(s.events[id], TraceRec(id, pc, v))]), Done) else (s, Done)
    case Clear => (s.(lines := []), Done)
    case Print => (s, Printed(s.lines))
  }

  function Switched(events: Events, on: bool): Events {
    map id | id in events :: if CanName(events[id], Tracepoint) then events[id].(enabled := on) else events[id]
  }

  // ----- The shell as it is -----

  datatype Lazy = Lazy(events: Events, next: nat, log: seq<TraceRec>)

  function Visible(events: Events): Events {
    map id | id in events && !events[id].deleted :: events[id]
  }

  function Remove(s: Lazy, kind: Kind, id: nat): Events
    requires id in s.events
  {
    if kind == Tracepoint && s.log != [] then s.events[id := s.events[id].(deleted := true)] else s.events - {id}
  }

  function PrintedLog(events: Events, log: seq<TraceRec>): seq<Line>
    requires forall i :: 0 <= i < |log| ==> log[i].id in events
  {
    seq(|log|, i requires 0 <= i < |log| => LineOf(events[log[i].id], log[i]))
  }

  /** Each record's event is still there, and is a tracepoint. */
  ghost predicate LogNamed(s: Lazy) {
    forall i :: 0 <= i < |s.log| ==> s.log[i].id in s.events && s.events[s.log[i].id].kind == Tracepoint
  }

  ghost function LazyStep(s: Lazy, c: Command): (Lazy, Reply)
    requires LogNamed(s)
  {
    match c
    case Add(_, _, _, _) => (s.(events := s.events[s.next := NewEvent(c)], next := s.next + 1), Number(s.next))
    case Delete(kind, id) => if Names(s.events, kind, id) then (s.(events := Remove(s, kind, id)), Done) else (s, Rejected)
    case Enable(id, on) =>
      if Names(s.events, Tracepoint, id) then (s.(events := s.events[id := s.events[id].(enabled := on)]), Done) else (s, Rejected)
    case EnableAll(on) => (s.(events := Switched(s.events, on)), Done)
    case Fire(id, pc, v) =>
      if Fires(s.events, id) then (s.(log := s.log + [TraceRec(id, pc, v)]), Done) else (s, Done)
    case Clear => if s.log == [] then (s, Done) else (s.(log := [], events := Visible(s.events)), Done)
    case Print => (s, Printed(PrintedLog(s.events, s.log)))
  }

  // ----- They agree -----

  /**
   Numbers stay below the next one, the user has the same events, the records read as the
   remembered lines, and without records nothing deleted is left.
   */
  ghost predicate Agree(s: Lazy, e: Eager) {
    && s.next == e.next > 0 && (forall id :: id in s.events ==> 0 < id < s.next)
    && e.events == Visible(s.events)
    && LogNamed(s) && e.lines == PrintedLog(s.events, s.log)
    && (forall id :: id in s.events && s.events[id].deleted ==> s.events[id].kind == Tracepoint && s.log != [])
  }

  /** Tracepoints may be marked, switched or joined by new events, but not change or go away. */
  ghost predicate TracepointsStay(was: Events, events: Events) {
    forall id :: id in was && was[id].kind == Tracepoint ==>
      id in events && events[id] == was[id].(deleted := events[id].deleted, enabled := events[id].enabled)
  }

  lemma RecordsAreKept(s: Lazy, events: Events)
    requires LogNamed(s) && (s.log == [] || TracepointsStay(s.events, events))
    ensures LogNamed(s.(events := events)) && PrintedLog(events, s.log) == PrintedLog(s.events, s.log)
  {
  }

  lemma NamesVisible(events: Events, kind: Kind, id: nat)
    ensures Names(events, kind, id) == Names(Visible(events), kind, id)
    ensures Names(events, kind, id) ==> Visible(events)[id] == events[id]
  {
  }

  lemma AddAgrees(s: Lazy, e: Eager, c: Command)
    requires Agree(s, e) && c.Add?
    ensures Agree(LazyStep(s, c).0, EagerStep(e, c).0) && s.next !in s.events
  {
    RecordsAreKept(s, s.events[s.next := NewEvent(c)]);
    assert Visible(s.events[s.next := NewEvent(c)]) == Visible(s.events)[s.next := NewEvent(c)];
  }

  lemma DeleteAgrees(s: Lazy, e: Eager, kind: Kind, id: nat)
    requires Agree(s, e) && Names(s.events, kind, id)
    ensures Agree(s.(events := Remove(s, kind, id)), e.(events := e.events - {id}))
  {
    RecordsAreKept(s, Remove(s, kind, id));
    assert Visible(Remove(s, kind, id)) == Visible(s.events) - {id};
  }

  lemma EnableAgrees(s: Lazy, e: Eager, id: nat, on: bool)
    requires Agree(s, e) && Names(s.events, Tracepoint, id)
    ensures Agree(s.(events := s.events[id := s.events[id].(enabled := on)]), e.(events := e.events[id := s.events[id].(enabled := on)]))
  {
    var events := s.events[id := s.events[id].(enabled := on)];
    RecordsAreKept(s, events);
    assert Visible(events) == Visible(s.events)[id := s.events[id].(enabled := on)];
  }

  lemma EnableAllAgrees(s: Lazy, e: Eager, on: bool)
    requires Agree(s, e)
    ensures Agree(s.(events := Switched(s.events, on)), e.(events := Switched(e.events, on)))
  {
    RecordsAreKept(s, Switched(s.events, on));
    assert Visible(Switched(s.events, on)) == Switched(Visible(s.events), on);
  }

  lemma FireAgrees(s: Lazy, e: Eager, id: nat, pc: nat, v: nat)
    requires Agree(s, e) && Names(s.events, Tracepoint, id)
    ensures Agree(s.(log := s.log + [TraceRec(id, pc, v)]), e.(lines := e.lines + [LineOf(s.events[id], TraceRec(id, pc, v))]))
  {
  }

  lemma ClearAgrees(s: Lazy, e: Eager)
    requires Agree(s, e)
    ensures Agree(if s.log == [] then s else s.(log := [], events := Visible(s.events)), e.(lines := []))
  {
    assert Visible(Visible(s.events)) == Visible(s.events);
  }

  /** Every command gets the same reply, and leaves the shells in agreement. */
  lemma StepAgrees(s: Lazy, e: Eager, c: Command)
    requires Agree(s, e)
    ensures Agree(LazyStep(s, c).0, EagerStep(e, c).0) && LazyStep(s, c).1 == EagerStep(e, c).1
  {
    hide Agree, Visible, Remove, Switched, PrintedLog, LogNamed, CanName;
    AgreeMeans(s, e);
    match c {
      case Add(_, _, _, _) => AddAgrees(s, e, c);
      case Delete(kind, id) =>
        NamesVisible(s.events, kind, id);
        if Names(s.events, kind, id) {
          DeleteAgrees(s, e, kind, id);
        }
      case Enable(id, on) =>
        NamesVisible(s.events, Tracepoint, id);
        if Names(s.events, Tracepoint, id) {
          EnableAgrees(s, e, id, on);
        }
      case EnableAll(on) => EnableAllAgrees(s, e, on);
      case Fire(id, pc, v) =>
        NamesVisible(s.events, Tracepoint, id);
        if Fires(s.events, id) {
          FireAgrees(s, e, id, pc, v);
        }
      case Clear => ClearAgrees(s, e);
      case Print =>
    }
  }

  lemma AgreeMeans(s: Lazy, e: Eager)
    requires Agree(s, e)
    ensures s.next == e.next && e.events == Visible(s.events) && LogNamed(s) && e.lines == PrintedLog(s.events, s.log)
  {
  }

  // ----- Whole sessions -----

  function EagerRun(cs: seq<Command>): (Eager, seq<Reply>)
    decreases |cs|
  {
    if cs == [] then (Eager(map[], 1, []), [])
    else
      var (s, replies) := EagerRun(cs[..|cs| - 1]);
      var (t, reply) := EagerStep(s, cs[|cs| - 1]);
      (t, replies + [reply])
  }

  /** The numbers given to new events. */
  function Numbers(replies: seq<Reply>): seq<nat>
    decreases |replies|
  {
    if replies == [] then []
    else Numbers(replies[..|replies| - 1]) + (if replies[|replies| - 1].Number? then [replies[|replies| - 1].id] else [])
  }

  lemma NumbersSnoc(replies: seq<Reply>, r: Reply)
    ensures Numbers(replies + [r]) == Numbers(replies) + (if r.Number? then [r.id] else [])
  {
    assert (replies + [r])[..|replies|] == replies;
  }

  /** In every session the events are numbered 1, 2, 3, ...: a number never comes twice, even for an event deleted since. */
  lemma {:induction false} NumbersAreNeverReused(cs: seq<Command>)
    ensures var (s, replies) := EagerRun(cs);
      s.next == |Numbers(replies)| + 1 && forall i :: 0 <= i < |Numbers(replies)| ==> Numbers(replies)[i] == i + 1
    decreases |cs|
  {
    if cs != [] {
      NumbersAreNeverReused(cs[..|cs| - 1]);
      var (s, replies) := EagerRun(cs[..|cs| - 1]);
      NumbersSnoc(replies, EagerStep(s, cs[|cs| - 1]).1);
    }
  }

  /** A whole session with the shell as it is: the user gets the same replies as from the shell that deletes at once. */
  ghost function LazyRun(cs: seq<Command>): (r: (Lazy, seq<Reply>))
    ensures Agree(r.0, EagerRun(cs).0) && r.1 == EagerRun(cs).1
    decreases |cs|
  {
    if cs == [] then (Lazy(map[], 1, []), [])
    else
      var (s, replies) := LazyRun(cs[..|cs| - 1]);
      StepAgrees(s, EagerRun(cs[..|cs| - 1]).0, cs[|cs| - 1]);
      var (t, reply) := LazyStep(s, cs[|cs| - 1]);
      (t, replies + [reply])
  }
}
