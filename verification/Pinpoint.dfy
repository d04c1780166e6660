/**
 Pinpoints: numbered regions of a thread, each with a start and a stop marker (a marked
 instruction and a visit count). This module is the state machine that the markers drive,
 written as a function of the marker that fired, together with its two main properties.
 */
module Pinpoint {

  /** A marker of pinpoint `pp`: the `count`-th visit of instruction `mark`. */
  datatype MarkRef = MarkRef(start: bool, mark: nat, count: nat, pp: int, phase: int)

  /** Region number i + 1 of the list; the original keeps one start and one stop marker per region. */
  datatype Region = Region(start: MarkRef, stop: MarkRef)

  /** Selection knobs: -1 means "any" for `select` and `thread`, "none" for `deselect`. */
  datatype Knobs = Knobs(select: int, deselect: int, thread: int, watchThread: nat)

  datatype EventKind = Start | Stop

  /** A call of the control handler, with the pinpoint and phase it can see. */
  datatype Call = Call(kind: EventKind, pp: int, phase: int)

  /** State of one thread's pinpoints; pinpoint 0 means "none". */
  datatype State = State(current: int, phase: int, last: int, startIcount: nat, aborted: bool, calls: seq<Call>)

  const INITIAL := State(0, 0, 0, 0, false, [])

  /** The region numbers are the positions in the list, as the reader of the file asserts. */
  ghost predicate Numbered(rs: seq<Region>) {
    forall i :: 0 <= i < |rs| ==>
      rs[i].start.pp == rs[i].stop.pp == i + 1 && rs[i].start.start && !rs[i].stop.start
  }

  predicate Selected(k: Knobs, pp: int) {
    && k.deselect != pp
    && (k.select == -1 || k.select == pp)
    && (k.thread == -1 || k.thread == k.watchThread)
  }

  /** Calls the handler for pinpoint `pp` unless the knobs deselect it. */
  function Emit(k: Knobs, s: State, kind: EventKind, pp: int): State {
    if Selected(k, pp) then s.(calls := s.calls + [Call(kind, s.current, s.phase)]) else s
  }

  predicate Coincide(a: MarkRef, b: MarkRef) {
    a.count == b.count && a.mark == b.mark
  }

  /** Further pinpoints that start with `ref`; the handler sees them, the state does not. */
  function AuxStarts(k: Knobs, rs: seq<Region>, n: nat, ref: MarkRef, s: State): State
    requires n <= |rs|
  {
    if n == 0 then s
    else
      var t := AuxStarts(k, rs, n - 1, ref, s);
      var other := rs[n - 1].start;
      if Coincide(ref, other) && other.pp > t.current && Selected(k, other.pp) then
        t.(calls := t.calls + [Call(Start, other.pp, other.phase)])
      else t
  }

  /** One more stop marker looked at while `ref` stops; `current` stays at the last one reported. */
  function AuxStop(k: Knobs, other: MarkRef, ref: MarkRef, s: State): State {
    if !Coincide(ref, other) || other.pp <= s.current then s
    else if !Selected(k, other.pp) then s.(last := other.pp)
    else s.(current := other.pp, phase := other.phase, last := other.pp,
            calls := s.calls + [Call(Stop, other.pp, other.phase)])
  }

  /** Further pinpoints that stop with `ref`. */
  function AuxStops(k: Knobs, rs: seq<Region>, n: nat, ref: MarkRef, s: State): State
    requires n <= |rs|
  {
    if n == 0 then s else AuxStop(k, rs[n - 1].stop, ref, AuxStops(k, rs, n - 1, ref, s))
  }

  /** Pinpoints that start at the stop marker `ref`. */
  function StartsOnStop(k: Knobs, rs: seq<Region>, n: nat, ref: MarkRef, s: State, icount: nat): State
    requires n <= |rs|
  {
    if n == 0 then s
    else
      var t := StartsOnStop(k, rs, n - 1, ref, s, icount);
      var other := rs[n - 1].start;
      if Coincide(ref, other) then
        Emit(k, t.(current := other.pp, phase := other.phase, startIcount := icount), Start, other.pp)
      else t
  }

  /** What the state machine does when marker `ref` fires at instruction count `icount`. */
  function Check(k: Knobs, rs: seq<Region>, s: State, ref: MarkRef, icount: nat): State {
    if s.aborted then s
    else if ref.start then
      if s.current == ref.pp then s
      else if s.current == 0 then
        if s.last + 1 != ref.pp then s.(aborted := true)
        else
          var t := s.(current := ref.pp, phase := ref.phase, startIcount := icount);
          AuxStarts(k, rs, |rs|, ref, Emit(k, t, Start, ref.pp))
      else s.(aborted := true)
    else
      if s.current == ref.pp then
        var t := AuxStops(k, rs, |rs|, ref, Emit(k, s, Stop, ref.pp).(last := 0));
        var u := t.(startIcount := 0, last := if t.last == 0 then ref.pp else t.last, current := 0);
        StartsOnStop(k, rs, |rs|, ref, u, icount)
      else if s.current == 0 && s.last == ref.pp then s
      else s.(aborted := true)
  }

  // ----- Selection knobs only filter -----

  /** The knobs that select everything. */
  function Unfiltered(k: Knobs): Knobs {
    Knobs(-1, -1, -1, k.watchThread)
  }

  function Filter(k: Knobs, calls: seq<Call>): seq<Call> {
    if calls == [] then []
    else
      var c := calls[|calls| - 1];
      Filter(k, calls[..|calls| - 1]) + (if Selected(k, c.pp) then [c] else [])
  }

  /** `s` is `u` as seen through the knobs; the phase matters only while a pinpoint is running. */
  ghost predicate SeenThrough(k: Knobs, s: State, u: State) {
    && s.current == u.current && s.last == u.last && s.startIcount == u.startIcount && s.aborted == u.aborted
    && (s.current != 0 ==> s.phase == u.phase)
    && s.calls == Filter(k, u.calls)
  }

  lemma FilterSnoc(k: Knobs, calls: seq<Call>, c: Call)
    ensures Filter(k, calls + [c]) == Filter(k, calls) + (if Selected(k, c.pp) then [c] else [])
  {
    assert (calls + [c])[..|calls|] == calls;
  }

  lemma EmitIsFiltered(k: Knobs, s: State, u: State, kind: EventKind, pp: int)
    requires SeenThrough(k, s, u) && u.current == pp && pp > 0
    ensures SeenThrough(k, Emit(k, s, kind, pp), Emit(Unfiltered(k), u, kind, pp))
  {
    FilterSnoc(k, u.calls, Call(kind, u.current, u.phase));
  }

  lemma {:induction false} AuxStartsAreFiltered(k: Knobs, rs: seq<Region>, n: nat, ref: MarkRef, s: State, u: State)
    requires Numbered(rs) && n <= |rs| && SeenThrough(k, s, u)
    ensures SeenThrough(k, AuxStarts(k, rs, n, ref, s), AuxStarts(Unfiltered(k), rs, n, ref, u))
    decreases n
  {
    if n > 0 {
      AuxStartsAreFiltered(k, rs, n - 1, ref, s, u);
      var other := rs[n - 1].start;
      FilterSnoc(k, AuxStarts(Unfiltered(k), rs, n - 1, ref, u).calls, Call(Start, other.pp, other.phase));
    }
  }

  /**
   As `SeenThrough`, inside the loop over further stops and after `n` regions: there the knobs
   do steer `current`, but never past the region being looked at.
   */
  ghost predicate StoppingThrough(k: Knobs, n: nat, ref: MarkRef, s: State, u: State) {
    && s.last == u.last && s.startIcount == u.startIcount && s.aborted == u.aborted
    && s.calls == Filter(k, u.calls)
    && (s.current == ref.pp || ref.pp < s.current <= n)
    && (u.current == ref.pp || ref.pp < u.current <= n)
  }

  lemma UnfilteredSelects(k: Knobs, pp: int)
    requires pp > 0
    ensures Selected(Unfiltered(k), pp)
  {
  }

  lemma AuxStopIsFiltered(k: Knobs, n: nat, other: MarkRef, ref: MarkRef, s: State, u: State)
    requires StoppingThrough(k, n, ref, s, u) && other.pp == n + 1
    ensures StoppingThrough(k, n + 1, ref, AuxStop(k, other, ref, s), AuxStop(Unfiltered(k), other, ref, u))
  {
    hide Selected, Unfiltered, Filter, Coincide;
    UnfilteredSelects(k, other.pp);
    FilterSnoc(k, u.calls, Call(Stop, other.pp, other.phase));
  }

  lemma {:induction false} AuxStopsAreFiltered(k: Knobs, rs: seq<Region>, n: nat, ref: MarkRef, s: State, u: State)
    requires Numbered(rs) && n <= |rs| && StoppingThrough(k, 0, ref, s, u)
    requires s.current == ref.pp == u.current
    ensures StoppingThrough(k, n, ref, AuxStops(k, rs, n, ref, s), AuxStops(Unfiltered(k), rs, n, ref, u))
    decreases n
  {
    if n > 0 {
      AuxStopsAreFiltered(k, rs, n - 1, ref, s, u);
      AuxStopIsFiltered(k, n - 1, rs[n - 1].stop, ref,
                        AuxStops(k, rs, n - 1, ref, s), AuxStops(Unfiltered(k), rs, n - 1, ref, u));
    }
  }

  lemma {:induction false} StartsOnStopAreFiltered(k: Knobs, rs: seq<Region>, n: nat, ref: MarkRef, s: State, u: State, icount: nat)
    requires Numbered(rs) && n <= |rs| && SeenThrough(k, s, u)
    ensures SeenThrough(k, StartsOnStop(k, rs, n, ref, s, icount), StartsOnStop(Unfiltered(k), rs, n, ref, u, icount))
    decreases n
  {
    if n > 0 {
      StartsOnStopAreFiltered(k, rs, n - 1, ref, s, u, icount);
      var other := rs[n - 1].start;
      if Coincide(ref, other) {
        var t := StartsOnStop(k, rs, n - 1, ref, s, icount).(current := other.pp, phase := other.phase, startIcount := icount);
        var v := StartsOnStop(Unfiltered(k), rs, n - 1, ref, u, icount).(current := other.pp, phase := other.phase, startIcount := icount);
        EmitIsFiltered(k, t, v, Start, other.pp);
      }
    }
  }

  /** One marker: the knobs change neither the trajectory nor the abort, only what is reported. */
  lemma CheckIsFiltered(k: Knobs, rs: seq<Region>, s: State, u: State, ref: MarkRef, icount: nat)
    requires Numbered(rs) && ref.pp > 0 && SeenThrough(k, s, u)
    ensures SeenThrough(k, Check(k, rs, s, ref, icount), Check(Unfiltered(k), rs, u, ref, icount))
  {
    if !s.aborted && ref.start && s.current == 0 && s.last + 1 == ref.pp {
      var t := s.(current := ref.pp, phase := ref.phase, startIcount := icount);
      var v := u.(current := ref.pp, phase := ref.phase, startIcount := icount);
      EmitIsFiltered(k, t, v, Start, ref.pp);
      AuxStartsAreFiltered(k, rs, |rs|, ref, Emit(k, t, Start, ref.pp), Emit(Unfiltered(k), v, Start, ref.pp));
    } else if !s.aborted && !ref.start && s.current == ref.pp {
      StopIsFiltered(k, rs, s, u, ref, icount);
    }
  }

  lemma StopIsFiltered(k: Knobs, rs: seq<Region>, s: State, u: State, ref: MarkRef, icount: nat)
    requires Numbered(rs) && ref.pp > 0 && SeenThrough(k, s, u)
    requires !s.aborted && !ref.start && s.current == ref.pp
    ensures SeenThrough(k, Check(k, rs, s, ref, icount), Check(Unfiltered(k), rs, u, ref, icount))
  {
    EmitIsFiltered(k, s, u, Stop, ref.pp);
    var s1, u1 := Emit(k, s, Stop, ref.pp).(last := 0), Emit(Unfiltered(k), u, Stop, ref.pp).(last := 0);
    AuxStopsAreFiltered(k, rs, |rs|, ref, s1, u1);
    var s2, u2 := AuxStops(k, rs, |rs|, ref, s1), AuxStops(Unfiltered(k), rs, |rs|, ref, u1);
    var s3 := s2.(startIcount := 0, last := if s2.last == 0 then ref.pp else s2.last, current := 0);
    var u3 := u2.(startIcount := 0, last := if u2.last == 0 then ref.pp else u2.last, current := 0);
    StartsOnStopAreFiltered(k, rs, |rs|, ref, s3, u3, icount);
  }

  /** A marker that fires, with the instruction count at that moment. */
  datatype Alarm = Alarm(ref: MarkRef, icount: nat)

  function RunAlarms(k: Knobs, rs: seq<Region>, alarms: seq<Alarm>): State {
    if alarms == [] then INITIAL
    else
      var a := alarms[|alarms| - 1];
      Check(k, rs, RunAlarms(k, rs, alarms[..|alarms| - 1]), a.ref, a.icount)
  }

  /**
   For every sequence of alarms, in order or not, the knobs only filter: same pinpoint
   trajectory, same abort point, and the reported calls are the selected ones.
   */
  lemma {:induction false} KnobsOnlyFilter(k: Knobs, rs: seq<Region>, alarms: seq<Alarm>)
    requires Numbered(rs) && forall i :: 0 <= i < |alarms| ==> alarms[i].ref.pp > 0
    ensures SeenThrough(k, RunAlarms(k, rs, alarms), RunAlarms(Unfiltered(k), rs, alarms))
    decreases |alarms|
  {
    if alarms != [] {
      var before, a := alarms[..|alarms| - 1], alarms[|alarms| - 1];
      KnobsOnlyFilter(k, rs, before);
      CheckIsFiltered(k, rs, RunAlarms(k, rs, before), RunAlarms(Unfiltered(k), rs, before), a.ref, a.icount);
    }
  }
}
