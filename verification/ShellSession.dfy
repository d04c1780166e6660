/**
 What a session with the shell's events comes to, in terms of the commands given: which events the
 user has, which of them are switched on, what is rejected and what the trace log prints.
 */
module ShellSession {
  import opened Options
  import opened ShellEvents
  import opened TraceLog

  /** How many events have been added. */
  function Adds(cs: seq<Command>): nat
    decreases |cs|
  {
    if cs == [] then 0 else Adds(cs[..|cs| - 1]) + (if cs[|cs| - 1].Add? then 1 else 0)
  }

  /** Command `a` added event number `id`. */
  predicate AddedAt(cs: seq<Command>, a: nat, id: nat) {
    a < |cs| && cs[a].Add? && id == Adds(cs[..a]) + 1
  }

  /** The event that command `a` added under number `id` has not been deleted since. */
  ghost predicate Alive(cs: seq<Command>, a: nat, id: nat) {
    AddedAt(cs, a, id) && forall j :: a < j < |cs| ==> cs[j] != Delete(cs[a].kind, id)
  }

  /** The last command that switches `id` or all tracepoints, since command `a`, decides; at first it is on. */
  function On(cs: seq<Command>, a: nat, id: nat): bool
    decreases |cs|
  {
    if |cs| <= a + 1 then true
    else
      match cs[|cs| - 1]
      case EnableAll(on) => on
      case Enable(i, on) => if i == id then on else On(cs[..|cs| - 1], a, id)
      case _ => On(cs[..|cs| - 1], a, id)
  }

  /** The event as it was added, switched by what came since; breakpoints are never switched. */
  function EventOf(cs: seq<Command>, a: nat, id: nat): Event
    requires a < |cs| && cs[a].Add?
  {
    Event(cs[a].kind, cs[a].trigger, cs[a].msg, cs[a].reg, false, cs[a].kind == Breakpoint || On(cs, a, id))
  }

  lemma AddedBefore(cs: seq<Command>, c: Command, a: nat, id: nat)
    requires a < |cs|
    ensures AddedAt(cs + [c], a, id) <==> AddedAt(cs, a, id)
    ensures Alive(cs + [c], a, id) <==> Alive(cs, a, id) && c != Delete(cs[a].kind, id)
  {
    assert (cs + [c])[..a] == cs[..a];
    assert forall j :: a < j < |cs| ==> (cs + [c])[j] == cs[j];
    if Alive(cs + [c], a, id) {
      assert (cs + [c])[|cs|] == c;
    }
  }

  lemma AddedLast(cs: seq<Command>, c: Command, id: nat)
    ensures AddedAt(cs + [c], |cs|, id) <==> c.Add? && id == Adds(cs) + 1
    ensures Alive(cs + [c], |cs|, id) <==> c.Add? && id == Adds(cs) + 1
    ensures Adds(cs + [c]) == Adds(cs) + (if c.Add? then 1 else 0)
  {
    assert (cs + [c])[..|cs|] == cs;
  }

  lemma OnSnoc(cs: seq<Command>, c: Command, a: nat, id: nat)
    requires a < |cs|
    ensures On(cs + [c], a, id) ==
      match c
      case EnableAll(on) => on
      case Enable(i, on) => if i == id then on else On(cs, a, id)
      case _ => On(cs, a, id)
  {
    assert (cs + [c])[..|cs|] == cs;
  }

  /** Number `id` was added once at most, and not before its turn. */
  lemma AddedOnce(cs: seq<Command>, a: nat, b: nat, id: nat)
    requires AddedAt(cs, a, id) && AddedAt(cs, b, id)
    ensures a == b
  {
    if a < b {
      AddsGrow(cs, a, b);
    } else if b < a {
      AddsGrow(cs, b, a);
    }
  }

  lemma {:induction false} AddsGrow(cs: seq<Command>, a: nat, b: nat)
    requires a < b <= |cs| && cs[a].Add?
    ensures Adds(cs[..a]) < Adds(cs[..b])
    decreases b
  {
    assert cs[..b][..b - 1] == cs[..b - 1];
    if a < b - 1 {
      AddsGrow(cs, a, b - 1);
    }
  }

  /** The user's events are those added and not deleted since. */
  ghost predicate Told(cs: seq<Command>, s: Eager) {
    && s.next == Adds(cs) + 1
    && (forall id :: id in s.events ==> exists a: nat :: Alive(cs, a, id))
    && (forall a: nat, id: nat :: Alive(cs, a, id) ==> id in s.events && s.events[id] == EventOf(cs, a, id))
  }

  lemma ToldBelowNext(cs: seq<Command>, s: Eager, a: nat, id: nat)
    requires AddedAt(cs, a, id)
    ensures 0 < id <= Adds(cs)
  {
    AddsGrow(cs, a, |cs|);
    assert cs[..|cs|] == cs;
  }

  /** An event that was there keeps what `EventOf` says of it. */
  lemma OldEventKept(cs: seq<Command>, s: Eager, c: Command, a: nat, id: nat)
    requires Told(cs, s) && Alive(cs, a, id) && c != Delete(cs[a].kind, id)
    ensures var t := EagerStep(s, c).0; id in t.events && t.events[id] == EventOf(cs + [c], a, id)
  {
    hide Alive, Adds;
    AliveIsAdded(cs, a, id);
    ToldBelowNext(cs, s, a, id);
    OnSnoc(cs, c, a, id);
    assert (cs + [c])[a] == cs[a];
  }

  lemma AliveIsAdded(cs: seq<Command>, a: nat, id: nat)
    requires Alive(cs, a, id)
    ensures AddedAt(cs, a, id)
  {
  }

  lemma ToldStep(cs: seq<Command>, s: Eager, c: Command)
    requires Told(cs, s)
    ensures Told(cs + [c], EagerStep(s, c).0)
  {
    hide EventOf, Adds, EagerStep, On;
    var t := EagerStep(s, c).0;
    AddedLast(cs, c, 0);
    StepNumbers(s, c);
    forall a: nat, id: nat | Alive(cs + [c], a, id)
      ensures id in t.events && t.events[id] == EventOf(cs + [c], a, id)
    {
      AliveIsAdded(cs + [c], a, id);
      if a < |cs| {
        AddedBefore(cs, c, a, id);
        OldEventKept(cs, s, c, a, id);
      } else {
        AddedLast(cs, c, id);
        NewEventIs(cs, s, c);
      }
    }
    forall id | id in t.events
      ensures exists a: nat :: Alive(cs + [c], a, id)
    {
      NothingElse(s, c, id);
      if c.Add? && id == s.next {
        AddedLast(cs, c, id);
        assert Alive(cs + [c], |cs|, id);
      } else {
        var a: nat :| Alive(cs, a, id);
        AliveIsAdded(cs, a, id);
        AddedBefore(cs, c, a, id);
        EventKind(cs, a, id);
      }
    }
  }

  lemma StepNumbers(s: Eager, c: Command)
    ensures EagerStep(s, c).0.next == s.next + (if c.Add? then 1 else 0)
  {
  }

  lemma EventKind(cs: seq<Command>, a: nat, id: nat)
    requires AddedAt(cs, a, id)
    ensures EventOf(cs, a, id).kind == cs[a].kind && !EventOf(cs, a, id).deleted
  {
  }

  lemma NewEventIs(cs: seq<Command>, s: Eager, c: Command)
    requires Told(cs, s) && c.Add?
    ensures var t := EagerStep(s, c).0;
      s.next in t.events && t.events[s.next] == EventOf(cs + [c], |cs|, s.next) && s.next == Adds(cs) + 1
  {
    hide Alive, Adds;
  }

  /** A step adds at most the new number, and removes what it deletes. */
  lemma NothingElse(s: Eager, c: Command, id: nat)
    requires id in EagerStep(s, c).0.events
    ensures (c.Add? && id == s.next) || (id in s.events && (c.Delete? && c.id == id ==> !CanName(s.events[id], c.kind)))
  {
  }

  lemma {:induction false} SessionTold(cs: seq<Command>)
    ensures Told(cs, EagerRun(cs).0)
    decreases |cs|
  {
    hide Told, EagerStep;
    if cs == [] {
      NothingTold();
    } else {
      SessionTold(cs[..|cs| - 1]);
      ToldStep(cs[..|cs| - 1], EagerRun(cs[..|cs| - 1]).0, cs[|cs| - 1]);
      assert cs[..|cs| - 1] + [cs[|cs| - 1]] == cs;
    }
  }

  lemma NothingTold()
    ensures Told([], Eager(map[], 1, []))
  {
  }

  // ----- Replies -----

  /** The user has an event of this kind under this number. */
  ghost predicate Has(cs: seq<Command>, kind: Kind, id: nat) {
    exists a: nat :: Alive(cs, a, id) && cs[a].kind == kind
  }

  lemma HasIsNamed(cs: seq<Command>, kind: Kind, id: nat)
    ensures Names(EagerRun(cs).0.events, kind, id) <==> Has(cs, kind, id)
  {
    hide EagerRun, EventOf, Adds;
    SessionTold(cs);
    var s := EagerRun(cs).0;
    if id in s.events {
      var a: nat :| Alive(cs, a, id);
      EventKind(cs, a, id);
      if Has(cs, kind, id) {
        var b: nat :| Alive(cs, b, id) && cs[b].kind == kind;
        AddedOnce(cs, a, b, id);
      }
    }
  }

  lemma RunSnoc(cs: seq<Command>, c: Command)
    ensures EagerRun(cs + [c]) == (EagerStep(EagerRun(cs).0, c).0, EagerRun(cs).1 + [EagerStep(EagerRun(cs).0, c).1])
  {
    assert (cs + [c])[..|cs|] == cs;
  }

  /**
   After any session: adding gives the next number; deleting and switching are rejected exactly
   when the user has no such event; and printing shows the lines collected since the last clearing.
   */
  lemma RepliesMean(cs: seq<Command>, c: Command)
    ensures var s, reply := EagerRun(cs).0, EagerStep(EagerRun(cs).0, c).1;
      && (c.Add? ==> reply == Number(Adds(cs) + 1))
      && (c.Delete? ==> reply == if Has(cs, c.kind, c.id) then Done else Rejected)
      && (c.Enable? ==> reply == if Has(cs, Tracepoint, c.id) then Done else Rejected)
      && (c.Print? ==> reply == Printed(s.lines))
      && (c.EnableAll? || c.Fire? || c.Clear? ==> reply == Done)
  {
    hide EagerRun, Has, Alive, EventOf;
    SessionTold(cs);
    match c {
      case Delete(kind, id) => HasIsNamed(cs, kind, id);
      case Enable(id, _) => HasIsNamed(cs, Tracepoint, id);
      case Add(_, _, _, _) =>
      case EnableAll(_) =>
      case Fire(_, _, _) =>
      case Clear =>
      case Print =>
    }
  }

  /**
   A tracepoint's instrumentation runs: one more line if the user has the tracepoint and it is
   switched on. The line says the address, the message with which it was added, and the register
   that it names with the value of that moment.
   */
  lemma FiringMeans(cs: seq<Command>, id: nat, pc: nat, v: nat) returns (a: Option<nat>)
    ensures a.Some? ==>
      && Alive(cs, a.value, id) && cs[a.value].kind == Tracepoint && On(cs, a.value, id)
      && EagerRun(cs + [Fire(id, pc, v)]).0.lines == EagerRun(cs).0.lines
           + [Line(pc, cs[a.value].msg, match cs[a.value].reg case None => None case Some(r) => Some((r, v)))]
    ensures a.None? ==>
      && EagerRun(cs + [Fire(id, pc, v)]).0.lines == EagerRun(cs).0.lines
      && forall b: nat :: Alive(cs, b, id) && cs[b].kind == Tracepoint ==> !On(cs, b, id)
  {
    hide EagerRun, On, Adds;
    SessionTold(cs);
    RunSnoc(cs, Fire(id, pc, v));
    var s := EagerRun(cs).0;
    a := None;
    if id in s.events {
      var b: nat :| Alive(cs, b, id);
      if cs[b].kind == Tracepoint && On(cs, b, id) {
        a := Some(b);
      } else {
        forall d: nat | Alive(cs, d, id) && cs[d].kind == Tracepoint
          ensures !On(cs, d, id)
        {
          AddedOnce(cs, b, d, id);
        }
      }
    }
  }

  /** Clearing forgets all lines; no other command but firing touches them. */
  lemma LinesStay(cs: seq<Command>, c: Command)
    requires !c.Fire?
    ensures EagerRun(cs + [c]).0.lines == if c.Clear? then [] else EagerRun(cs).0.lines
  {
    RunSnoc(cs, c);
  }
}
