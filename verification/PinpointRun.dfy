/**
 Whole runs: visits of marked instructions by any thread, the marker that each visit fires,
 and what a run reports when the markers come in order.
 */
module PinpointRun {
  import opened Options
  import opened Pinpoint

  /** All markers in the order in which alarms are set: start 1, stop 1, start 2, ... */
  function Refs(rs: seq<Region>): (refs: seq<MarkRef>)
    ensures |refs| == 2 * |rs|
    ensures forall i :: 0 <= i < |rs| ==> refs[2 * i] == rs[i].start && refs[2 * i + 1] == rs[i].stop
  {
    if rs == [] then []
    else
      var before := Refs(rs[..|rs| - 1]);
      before + [rs[|rs| - 1].start, rs[|rs| - 1].stop]
  }

  predicate IsAt(r: MarkRef, mark: nat, count: nat) {
    r.mark == mark && r.count == count
  }

  /** The first marker at this visit, if there is one. */
  function FirstAt(refs: seq<MarkRef>, mark: nat, count: nat): (r: Option<MarkRef>)
    ensures r.None? <==> forall i :: 0 <= i < |refs| ==> !IsAt(refs[i], mark, count)
    ensures r.Some? ==> IsAt(r.value, mark, count) && r.value in refs
  {
    if refs == [] then None
    else if IsAt(refs[0], mark, count) then Some(refs[0])
    else FirstAt(refs[1..], mark, count)
  }

  lemma {:induction false} FirstAtIs(refs: seq<MarkRef>, mark: nat, count: nat, p: nat)
    requires p < |refs| && IsAt(refs[p], mark, count)
    requires forall i :: 0 <= i < p ==> !IsAt(refs[i], mark, count)
    ensures FirstAt(refs, mark, count) == Some(refs[p])
    decreases |refs|
  {
    if p > 0 {
      FirstAtIs(refs[1..], mark, count, p - 1);
    }
  }

  /** Thread `thread` executes marked instruction `mark`; `icount` is the watched thread's count. */
  datatype Visit = Visit(thread: nat, mark: nat, icount: nat)

  /** The watched thread's visit counts, and the state machine. */
  datatype System = System(seen: seq<nat>, pp: State)

  /** The alarm handler: the marker that fired, if any, drives the state machine. */
  function Fire(k: Knobs, rs: seq<Region>, s: State, fired: Option<MarkRef>, icount: nat): State {
    match fired
    case None => s
    case Some(ref) => Check(k, rs, s, ref, icount)
  }

  /** One visit: the watched thread's count goes up and the first marker there, if any, fires. */
  function Step(k: Knobs, rs: seq<Region>, y: System, v: Visit): (z: System)
    requires v.mark < |y.seen|
    ensures |z.seen| == |y.seen|
  {
    if y.pp.aborted || v.thread != k.watchThread then y
    else
      var count := y.seen[v.mark] + 1;
      System(y.seen[v.mark := count], Fire(k, rs, y.pp, FirstAt(Refs(rs), v.mark, count), v.icount))
  }

  ghost predicate VisitsWithin(visits: seq<Visit>, marks: nat) {
    forall i :: 0 <= i < |visits| ==> visits[i].mark < marks
  }

  function Run(k: Knobs, rs: seq<Region>, marks: nat, visits: seq<Visit>): (y: System)
    requires VisitsWithin(visits, marks)
    ensures |y.seen| == marks
  {
    if visits == [] then System(seq(marks, i => 0), INITIAL)
    else Step(k, rs, Run(k, rs, marks, visits[..|visits| - 1]), visits[|visits| - 1])
  }

  lemma FireIsFiltered(k: Knobs, rs: seq<Region>, s: State, u: State, fired: Option<MarkRef>, icount: nat)
    requires Numbered(rs) && SeenThrough(k, s, u) && (fired.Some? ==> fired.value in Refs(rs))
    ensures SeenThrough(k, Fire(k, rs, s, fired, icount), Fire(Unfiltered(k), rs, u, fired, icount))
  {
    hide Check;
    if fired.Some? {
      RefsNumbered(rs, fired.value);
      CheckIsFiltered(k, rs, s, u, fired.value, icount);
    }
  }

  lemma KnobsOnlyFilterStep(k: Knobs, rs: seq<Region>, y: System, z: System, v: Visit)
    requires Numbered(rs) && v.mark < |y.seen| && y.seen == z.seen && SeenThrough(k, y.pp, z.pp)
    ensures Step(k, rs, y, v).seen == Step(Unfiltered(k), rs, z, v).seen
    ensures SeenThrough(k, Step(k, rs, y, v).pp, Step(Unfiltered(k), rs, z, v).pp)
  {
    hide Check;
    FireIsFiltered(k, rs, y.pp, z.pp, FirstAt(Refs(rs), v.mark, y.seen[v.mark] + 1), v.icount);
  }

  /** The knobs only filter whole runs too: which markers fire does not depend on them. */
  lemma {:induction false} KnobsOnlyFilterRuns(k: Knobs, rs: seq<Region>, marks: nat, visits: seq<Visit>)
    requires Numbered(rs) && VisitsWithin(visits, marks)
    ensures Run(k, rs, marks, visits).seen == Run(Unfiltered(k), rs, marks, visits).seen
    ensures SeenThrough(k, Run(k, rs, marks, visits).pp, Run(Unfiltered(k), rs, marks, visits).pp)
    decreases |visits|
  {
    if visits != [] {
      var before, v := visits[..|visits| - 1], visits[|visits| - 1];
      KnobsOnlyFilterRuns(k, rs, marks, before);
      KnobsOnlyFilterStep(k, rs, Run(k, rs, marks, before), Run(Unfiltered(k), rs, marks, before), v);
    }
  }

  lemma RefsNumbered(rs: seq<Region>, ref: MarkRef)
    requires Numbered(rs) && ref in Refs(rs)
    ensures ref.pp > 0
  {
    var j :| 0 <= j < |Refs(rs)| && Refs(rs)[j] == ref;
    assert j == 2 * (j / 2) || j == 2 * (j / 2) + 1;
  }

  // ----- Every marked visit fires once -----

  /** The marker that each step of a run fires. */
  function Fired(k: Knobs, rs: seq<Region>, marks: nat, visits: seq<Visit>): seq<MarkRef>
    requires VisitsWithin(visits, marks)
  {
    if visits == [] then []
    else
      var before, v := visits[..|visits| - 1], visits[|visits| - 1];
      var y := Run(k, rs, marks, before);
      var fired := if y.pp.aborted || v.thread != k.watchThread then None else FirstAt(Refs(rs), v.mark, y.seen[v.mark] + 1);
      if fired.Some? then Fired(k, rs, marks, before) + [fired.value] else Fired(k, rs, marks, before)
  }

  /** How often a marker at this visit is among `fired`. */
  function Times(fired: seq<MarkRef>, mark: nat, count: nat): nat {
    if fired == [] then 0
    else Times(fired[..|fired| - 1], mark, count) + (if IsAt(fired[|fired| - 1], mark, count) then 1 else 0)
  }

  lemma TimesSnoc(fired: seq<MarkRef>, r: MarkRef, mark: nat, count: nat)
    ensures Times(fired + [r], mark, count) == Times(fired, mark, count) + (if IsAt(r, mark, count) then 1 else 0)
  {
    assert (fired + [r])[..|fired|] == fired;
  }

  /**
   In every run, whatever the other threads do, a visit (mark, count) of the watched thread that
   some marker names fires exactly once if it has been reached and not at all otherwise.
   */
  lemma {:induction false} EachVisitFiresOnce(k: Knobs, rs: seq<Region>, marks: nat, visits: seq<Visit>, mark: nat, count: nat)
    requires VisitsWithin(visits, marks) && mark < marks
    ensures Times(Fired(k, rs, marks, visits), mark, count) ==
      if 1 <= count <= Run(k, rs, marks, visits).seen[mark] && FirstAt(Refs(rs), mark, count).Some? then 1 else 0
    decreases |visits|
  {
    hide Check, FirstAt, Refs, Times;
    if visits == [] {
      TimesNone(mark, count);
    } else {
      var before, v := visits[..|visits| - 1], visits[|visits| - 1];
      EachVisitFiresOnce(k, rs, marks, before, mark, count);
      var y := Run(k, rs, marks, before);
      if !y.pp.aborted && v.thread == k.watchThread {
        FiresOnceMore(Refs(rs), Fired(k, rs, marks, before), y.seen, v.mark, mark, count);
      }
    }
  }

  lemma TimesNone(mark: nat, count: nat)
    ensures Times([], mark, count) == 0
  {
  }

  lemma FiresOnceMore(refs: seq<MarkRef>, fired: seq<MarkRef>, seen: seq<nat>, visited: nat, mark: nat, count: nat)
    requires visited < |seen| && mark < |seen|
    requires Times(fired, mark, count) == if 1 <= count <= seen[mark] && FirstAt(refs, mark, count).Some? then 1 else 0
    ensures var first := FirstAt(refs, visited, seen[visited] + 1);
            var seen' := seen[visited := seen[visited] + 1];
            Times(if first.Some? then fired + [first.value] else fired, mark, count) ==
            if 1 <= count <= seen'[mark] && FirstAt(refs, mark, count).Some? then 1 else 0
  {
    hide FirstAt, Times;
    var first := FirstAt(refs, visited, seen[visited] + 1);
    if first.Some? {
      TimesSnoc(fired, first.value, mark, count);
    }
  }

  // ----- Runs whose markers come in order -----

  predicate Reached(r: MarkRef, seen: seq<nat>)
    requires r.mark < |seen|
  {
    r.count <= seen[r.mark]
  }

  /** Markers name existing marks, are not due before the run, and no region starts where it stops. */
  ghost predicate MarkersValid(rs: seq<Region>, marks: nat) {
    && (forall j :: 0 <= j < |Refs(rs)| ==> Refs(rs)[j].mark < marks && Refs(rs)[j].count > 0)
    && (forall i :: 0 <= i < |rs| ==> !Coincide(rs[i].start, rs[i].stop))
  }

  /** The first `p` markers have been reached and no other. */
  ghost predicate ReachedUpTo(rs: seq<Region>, seen: seq<nat>, p: nat)
    requires MarkersValid(rs, |seen|)
  {
    p <= |Refs(rs)| && forall j :: 0 <= j < |Refs(rs)| ==> (Reached(Refs(rs)[j], seen) <==> j < p)
  }

  /** The markers reached so far are an initial stretch of start 1, stop 1, start 2, ... */
  ghost predicate InOrder(rs: seq<Region>, seen: seq<nat>)
    requires MarkersValid(rs, |seen|)
  {
    exists p :: ReachedUpTo(rs, seen, p)
  }

  /** No marker has been reached before one that precedes it in the list. */
  ghost predicate NoneEarly(rs: seq<Region>, seen: seq<nat>)
    requires MarkersValid(rs, |seen|)
  {
    forall i, j :: 0 <= i < j < |Refs(rs)| && Reached(Refs(rs)[j], seen) ==> Reached(Refs(rs)[i], seen)
  }

  lemma InOrderMeansNoneEarly(rs: seq<Region>, seen: seq<nat>)
    requires MarkersValid(rs, |seen|)
    ensures InOrder(rs, seen) <==> NoneEarly(rs, seen)
  {
    var refs, p := Refs(rs), 0;
    while p < |refs| && Reached(refs[p], seen)
      invariant p <= |refs| && forall j :: 0 <= j < p ==> Reached(refs[j], seen)
    {
      p := p + 1;
    }
    if NoneEarly(rs, seen) {
      assert forall j :: p <= j < |refs| ==> !Reached(refs[j], seen);
      assert ReachedUpTo(rs, seen, p);
    }
  }

  /** START 1, STOP 1, START 2, STOP 2, ... for the first `n` pinpoints. */
  function Completed(rs: seq<Region>, n: nat): seq<Call>
    requires n <= |rs|
  {
    if n == 0 then []
    else Completed(rs, n - 1) + [Call(Start, n, rs[n - 1].start.phase), Call(Stop, n, rs[n - 1].start.phase)]
  }

  /** The same with pinpoint n + 1 started when `inside`. */
  function Reported(rs: seq<Region>, n: nat, inside: bool): seq<Call>
    requires if inside then n < |rs| else n <= |rs|
  {
    Completed(rs, n) + (if inside then [Call(Start, n + 1, rs[n].start.phase)] else [])
  }

  /** The state machine after `n` pinpoints, and inside the next one when `inside`. */
  ghost predicate AtPinpoint(rs: seq<Region>, n: nat, inside: bool, s: State) {
    && (if inside then n < |rs| else n <= |rs|)
    && !s.aborted && s.last == n && s.calls == Reported(rs, n, inside)
    && s.current == (if inside then n + 1 else 0)
    && (inside ==> s.phase == rs[n].start.phase)
  }

  /** The number of markers reached by then. */
  function MarkersAt(n: nat, inside: bool): nat {
    if inside then 2 * n + 1 else 2 * n
  }

  /** A visit reaches no marker, the next one, or a stop together with the start after it. */
  lemma NewlyReached(rs: seq<Region>, seen: seq<nat>, mark: nat, n: nat, inside: bool, q: nat)
    requires mark < |seen| && MarkersValid(rs, |seen|)
    requires ReachedUpTo(rs, seen, MarkersAt(n, inside)) && ReachedUpTo(rs, seen[mark := seen[mark] + 1], q)
    ensures MarkersAt(n, inside) <= q <= (if inside then 2 * n + 3 else 2 * n + 1)
    ensures forall j :: 0 <= j < |Refs(rs)| ==> (IsAt(Refs(rs)[j], mark, seen[mark] + 1) <==> MarkersAt(n, inside) <= j < q)
  {
    var refs, next, p := Refs(rs), seen[mark := seen[mark] + 1], MarkersAt(n, inside);
    forall j | 0 <= j < |refs|
      ensures IsAt(refs[j], mark, seen[mark] + 1) <==> p <= j < q
    {
      assert Reached(refs[j], seen) <==> j < p;
      assert Reached(refs[j], next) <==> j < q;
    }
    assert q < |refs| ==> (Reached(refs[q], seen) ==> Reached(refs[q], next));
    // Region i's start and stop never come together.
    var i := if inside then n + 1 else n;
    if i < |rs| {
      assert !Coincide(rs[i].start, rs[i].stop);
      assert IsAt(refs[2 * i], mark, seen[mark] + 1) <==> p <= 2 * i < q;
      assert IsAt(refs[2 * i + 1], mark, seen[mark] + 1) <==> p <= 2 * i + 1 < q;
    }
  }

  lemma {:induction false} NoAuxStarts(k: Knobs, rs: seq<Region>, n: nat, ref: MarkRef, s: State)
    requires n <= |rs| && forall i :: 0 <= i < |rs| && Coincide(ref, rs[i].start) ==> rs[i].start.pp <= s.current
    ensures AuxStarts(k, rs, n, ref, s) == s
    decreases n
  {
    if n > 0 {
      NoAuxStarts(k, rs, n - 1, ref, s);
    }
  }

  lemma {:induction false} NoAuxStops(k: Knobs, rs: seq<Region>, n: nat, ref: MarkRef, s: State)
    requires n <= |rs| && forall i :: 0 <= i < |rs| && Coincide(ref, rs[i].stop) ==> rs[i].stop.pp <= s.current
    ensures AuxStops(k, rs, n, ref, s) == s
    decreases n
  {
    if n > 0 {
      NoAuxStops(k, rs, n - 1, ref, s);
    }
  }

  /** At most region `i` starts at the stop marker. */
  lemma {:induction false} OneStartOnStop(k: Knobs, rs: seq<Region>, n: nat, ref: MarkRef, s: State, icount: nat, i: nat)
    requires n <= |rs| && forall j :: 0 <= j < |rs| && Coincide(ref, rs[j].start) ==> j == i
    ensures StartsOnStop(k, rs, n, ref, s, icount) ==
      if i < n && Coincide(ref, rs[i].start) then
        Emit(k, s.(current := rs[i].start.pp, phase := rs[i].start.phase, startIcount := icount), Start, rs[i].start.pp)
      else s
    decreases n
  {
    if n > 0 {
      OneStartOnStop(k, rs, n - 1, ref, s, icount, i);
    }
  }

  lemma MarkerPositions(rs: seq<Region>, mark: nat, count: nat, p: nat, q: nat)
    requires forall j :: 0 <= j < |Refs(rs)| ==> (IsAt(Refs(rs)[j], mark, count) <==> p <= j < q)
    ensures forall i :: 0 <= i < |rs| ==> (IsAt(rs[i].start, mark, count) <==> p <= 2 * i < q)
    ensures forall i :: 0 <= i < |rs| ==> (IsAt(rs[i].stop, mark, count) <==> p <= 2 * i + 1 < q)
  {
    forall i | 0 <= i < |rs|
      ensures IsAt(rs[i].start, mark, count) <==> p <= 2 * i < q
      ensures IsAt(rs[i].stop, mark, count) <==> p <= 2 * i + 1 < q
    {
      assert IsAt(Refs(rs)[2 * i], mark, count) <==> p <= 2 * i < q;
      assert IsAt(Refs(rs)[2 * i + 1], mark, count) <==> p <= 2 * i + 1 < q;
    }
  }

  lemma StartAlone(k: Knobs, rs: seq<Region>, s: State, icount: nat, i: nat)
    requires Numbered(rs) && i < |rs| && !s.aborted && s.current == 0 && s.last == i
    requires forall j :: 0 <= j < |rs| && Coincide(rs[i].start, rs[j].start) ==> j == i
    ensures Check(Unfiltered(k), rs, s, rs[i].start, icount)
         == State(i + 1, rs[i].start.phase, i, icount, false, s.calls + [Call(Start, i + 1, rs[i].start.phase)])
  {
    var ref := rs[i].start;
    var t := s.(current := ref.pp, phase := ref.phase, startIcount := icount);
    NoAuxStarts(Unfiltered(k), rs, |rs|, ref, Emit(Unfiltered(k), t, Start, ref.pp));
  }

  lemma StopAlone(k: Knobs, rs: seq<Region>, s: State, icount: nat, i: nat)
    requires Numbered(rs) && i < |rs| && !s.aborted && s.current == i + 1
    requires forall j :: 0 <= j < |rs| && Coincide(rs[i].stop, rs[j].stop) ==> j == i
    requires forall j :: 0 <= j < |rs| && Coincide(rs[i].stop, rs[j].start) ==> j == i + 1
    ensures Check(Unfiltered(k), rs, s, rs[i].stop, icount) ==
      var u := State(0, s.phase, i + 1, 0, false, s.calls + [Call(Stop, i + 1, s.phase)]);
      if i + 1 < |rs| && Coincide(rs[i].stop, rs[i + 1].start) then
        State(i + 2, rs[i + 1].start.phase, i + 1, icount, false, u.calls + [Call(Start, i + 2, rs[i + 1].start.phase)])
      else u
  {
    var ref, k0 := rs[i].stop, Unfiltered(k);
    var t := Emit(k0, s, Stop, ref.pp).(last := 0);
    NoAuxStops(k0, rs, |rs|, ref, t);
    OneStartOnStop(k0, rs, |rs|, ref, t.(startIcount := 0, last := ref.pp, current := 0), icount, i + 1);
  }

  lemma ReportedSteps(rs: seq<Region>, n: nat)
    requires n < |rs|
    ensures Reported(rs, n, true) == Reported(rs, n, false) + [Call(Start, n + 1, rs[n].start.phase)]
    ensures Reported(rs, n + 1, false) == Reported(rs, n, true) + [Call(Stop, n + 1, rs[n].start.phase)]
  {
  }

  /** The next start marker fires: its pinpoint starts. */
  lemma StartAdvances(k: Knobs, rs: seq<Region>, s: State, icount: nat, n: nat, mark: nat, count: nat)
    requires Numbered(rs) && n < |rs| && AtPinpoint(rs, n, false, s)
    requires forall j :: 0 <= j < |Refs(rs)| ==> (IsAt(Refs(rs)[j], mark, count) <==> 2 * n <= j < 2 * n + 1)
    ensures AtPinpoint(rs, n, true, Check(Unfiltered(k), rs, s, rs[n].start, icount))
  {
    MarkerPositions(rs, mark, count, 2 * n, 2 * n + 1);
    assert IsAt(rs[n].start, mark, count);
    StartAlone(k, rs, s, icount, n);
    ReportedSteps(rs, n);
  }

  lemma StopNeighbours(rs: seq<Region>, n: nat, inside: bool, mark: nat, count: nat)
    requires n < |rs| && (inside ==> n + 1 < |rs|)
    requires forall j :: 0 <= j < |Refs(rs)| ==> (IsAt(Refs(rs)[j], mark, count) <==> 2 * n + 1 <= j < MarkersAt(n + 1, inside))
    ensures forall j :: 0 <= j < |rs| && Coincide(rs[n].stop, rs[j].stop) ==> j == n
    ensures forall j :: 0 <= j < |rs| && Coincide(rs[n].stop, rs[j].start) ==> j == n + 1
    ensures n + 1 < |rs| ==> (Coincide(rs[n].stop, rs[n + 1].start) <==> inside)
  {
    hide Refs;
    MarkerPositions(rs, mark, count, 2 * n + 1, MarkersAt(n + 1, inside));
    assert IsAt(rs[n].stop, mark, count);
    assert inside ==> IsAt(rs[n + 1].start, mark, count);
  }

  /** The next stop marker fires: its pinpoint stops, and the following one starts if it is due here. */
  lemma StopAdvances(k: Knobs, rs: seq<Region>, s: State, icount: nat, n: nat, inside: bool, mark: nat, count: nat)
    requires Numbered(rs) && n < |rs| && AtPinpoint(rs, n, true, s) && (inside ==> n + 1 < |rs|)
    requires forall j :: 0 <= j < |Refs(rs)| ==> (IsAt(Refs(rs)[j], mark, count) <==> 2 * n + 1 <= j < MarkersAt(n + 1, inside))
    ensures AtPinpoint(rs, n + 1, inside, Check(Unfiltered(k), rs, s, rs[n].stop, icount))
  {
    hide Check, Refs, IsAt, Coincide, Reported;
    StopNeighbours(rs, n, inside, mark, count);
    StopAlone(k, rs, s, icount, n);
    ReportedSteps(rs, n);
    if inside {
      ReportedSteps(rs, n + 1);
    }
  }

  /**
   For every run whose markers come in order, the state machine never aborts and reports
   START 1, STOP 1, START 2, STOP 2, ... up to the last marker reached.
   */
  lemma {:induction false} OrderedRunIsSequential(k: Knobs, rs: seq<Region>, marks: nat, visits: seq<Visit>)
    returns (n: nat, inside: bool)
    requires Numbered(rs) && MarkersValid(rs, marks) && VisitsWithin(visits, marks)
    requires forall m :: 0 <= m <= |visits| ==> InOrder(rs, Run(Unfiltered(k), rs, marks, visits[..m]).seen)
    ensures ReachedUpTo(rs, Run(Unfiltered(k), rs, marks, visits).seen, MarkersAt(n, inside))
    ensures AtPinpoint(rs, n, inside, Run(Unfiltered(k), rs, marks, visits).pp)
    decreases |visits|
  {
    if visits == [] {
      n, inside := 0, false;
    } else {
      assert visits[..|visits|] == visits;
      var before, v := visits[..|visits| - 1], visits[|visits| - 1];
      assert forall m :: 0 <= m <= |before| ==> before[..m] == visits[..m];
      n, inside := OrderedRunIsSequential(k, rs, marks, before);
      n, inside := OrderedStep(k, rs, Run(Unfiltered(k), rs, marks, before), v, n, inside);
    }
  }

  /** What a visit fires when the markers come in order. */
  lemma FiredMarker(rs: seq<Region>, seen: seq<nat>, mark: nat, n: nat, inside: bool) returns (q: nat)
    requires mark < |seen| && MarkersValid(rs, |seen|) && ReachedUpTo(rs, seen, MarkersAt(n, inside))
    requires InOrder(rs, seen[mark := seen[mark] + 1])
    ensures ReachedUpTo(rs, seen[mark := seen[mark] + 1], q)
    ensures MarkersAt(n, inside) <= q <= (if inside then 2 * n + 3 else 2 * n + 1)
    ensures forall j :: 0 <= j < |Refs(rs)| ==> (IsAt(Refs(rs)[j], mark, seen[mark] + 1) <==> MarkersAt(n, inside) <= j < q)
  {
    q :| ReachedUpTo(rs, seen[mark := seen[mark] + 1], q);
    NewlyReached(rs, seen, mark, n, inside, q);
  }

  lemma FirstInBand(refs: seq<MarkRef>, mark: nat, count: nat, p: nat, q: nat)
    requires q <= |refs|
    requires forall j :: 0 <= j < |refs| ==> (IsAt(refs[j], mark, count) <==> p <= j < q)
    ensures FirstAt(refs, mark, count) == if p < q then Some(refs[p]) else None
  {
    if p < q {
      FirstAtIs(refs, mark, count, p);
    }
  }

  lemma OrderedStep(k: Knobs, rs: seq<Region>, y: System, v: Visit, n: nat, inside: bool) returns (n': nat, inside': bool)
    requires v.mark < |y.seen| && Numbered(rs) && MarkersValid(rs, |y.seen|)
    requires ReachedUpTo(rs, y.seen, MarkersAt(n, inside)) && AtPinpoint(rs, n, inside, y.pp)
    requires InOrder(rs, Step(Unfiltered(k), rs, y, v).seen)
    ensures ReachedUpTo(rs, Step(Unfiltered(k), rs, y, v).seen, MarkersAt(n', inside'))
    ensures AtPinpoint(rs, n', inside', Step(Unfiltered(k), rs, y, v).pp)
  {
    hide Check, FirstAt, Refs, Reported, ReachedUpTo, MarkersValid, Numbered, InOrder;
    n', inside' := n, inside;
    if v.thread == k.watchThread {
      n', inside' := OrderedFire(k, rs, y.seen, y.pp, v.mark, v.icount, n, inside);
    }
  }

  lemma OrderedFire(k: Knobs, rs: seq<Region>, seen: seq<nat>, s: State, mark: nat, icount: nat, n: nat, inside: bool)
    returns (n': nat, inside': bool)
    requires mark < |seen| && Numbered(rs) && MarkersValid(rs, |seen|)
    requires ReachedUpTo(rs, seen, MarkersAt(n, inside)) && AtPinpoint(rs, n, inside, s)
    requires InOrder(rs, seen[mark := seen[mark] + 1])
    ensures ReachedUpTo(rs, seen[mark := seen[mark] + 1], MarkersAt(n', inside'))
    ensures AtPinpoint(rs, n', inside', Fire(Unfiltered(k), rs, s, FirstAt(Refs(rs), mark, seen[mark] + 1), icount))
  {
    hide Check, FirstAt, Refs, AtPinpoint, ReachedUpTo, MarkersValid, Numbered, InOrder;
    n', inside' := n, inside;
    var q := FiredMarker(rs, seen, mark, n, inside);
    FirstInBand(Refs(rs), mark, seen[mark] + 1, MarkersAt(n, inside), q);
    if MarkersAt(n, inside) < q {
      n', inside' := MarkerAdvances(k, rs, s, icount, n, inside, q, mark, seen[mark] + 1);
    }
  }

  lemma MarkerAdvances(k: Knobs, rs: seq<Region>, s: State, icount: nat, n: nat, inside: bool, q: nat, mark: nat, count: nat)
    returns (n': nat, inside': bool)
    requires Numbered(rs) && AtPinpoint(rs, n, inside, s)
    requires MarkersAt(n, inside) < q <= (if inside then 2 * n + 3 else 2 * n + 1) && q <= |Refs(rs)|
    requires forall j :: 0 <= j < |Refs(rs)| ==> (IsAt(Refs(rs)[j], mark, count) <==> MarkersAt(n, inside) <= j < q)
    ensures MarkersAt(n', inside') == q
    ensures AtPinpoint(rs, n', inside', Check(Unfiltered(k), rs, s, Refs(rs)[MarkersAt(n, inside)], icount))
  {
    if inside {
      n', inside' := n + 1, q == 2 * n + 3;
      assert Refs(rs)[2 * n + 1] == rs[n].stop;
      StopAdvances(k, rs, s, icount, n, inside', mark, count);
    } else {
      n', inside' := n, true;
      assert Refs(rs)[2 * n] == rs[n].start;
      StartAdvances(k, rs, s, icount, n, mark, count);
    }
  }

  lemma ReachedOnce(rs: seq<Region>, seen: seq<nat>, p: nat, q: nat)
    requires MarkersValid(rs, |seen|) && ReachedUpTo(rs, seen, p) && ReachedUpTo(rs, seen, q)
    ensures p == q
  {
    assert p < |Refs(rs)| ==> !Reached(Refs(rs)[p], seen);
    assert q < |Refs(rs)| ==> !Reached(Refs(rs)[q], seen);
  }

  /**
   Under any knobs, a run that has reached the markers up to there, in order, has not aborted
   and has reported exactly the selected calls of that sequence.
   */
  lemma OrderedRunUnderKnobs(k: Knobs, rs: seq<Region>, marks: nat, visits: seq<Visit>, n: nat, inside: bool)
    requires Numbered(rs) && MarkersValid(rs, marks) && VisitsWithin(visits, marks)
    requires forall m :: 0 <= m <= |visits| ==> InOrder(rs, Run(Unfiltered(k), rs, marks, visits[..m]).seen)
    requires ReachedUpTo(rs, Run(k, rs, marks, visits).seen, MarkersAt(n, inside))
    ensures if inside then n < |rs| else n <= |rs|
    ensures !Run(k, rs, marks, visits).pp.aborted
    ensures Run(k, rs, marks, visits).pp.calls == Filter(k, Reported(rs, n, inside))
  {
    hide Run, ReachedUpTo, Reported, InOrder;
    KnobsOnlyFilterRuns(k, rs, marks, visits);
    var n', inside' := OrderedRunIsSequential(k, rs, marks, visits);
    ReachedOnce(rs, Run(k, rs, marks, visits).seen, MarkersAt(n, inside), MarkersAt(n', inside'));
  }
}
