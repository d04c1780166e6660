/**
 What the pinpoint state machine reports when markers of several pinpoints coincide, in terms of
 the regions in the file: which pinpoints, each once, in which order and with which phase.
 */
module PinpointReports {
  import opened Pinpoint

  // ----- What the knobs select -----

  /** No knob selects all, `select` one, `deselect` all but one, `thread` all or none; together they all must agree. */
  lemma SelectionMeans(k: Knobs, pp: int)
    requires pp > 0
    ensures Selected(Knobs(-1, -1, -1, k.watchThread), pp)
    ensures Selected(Knobs(pp, -1, -1, k.watchThread), pp)
    ensures forall q :: q != -1 ==> (Selected(Knobs(q, -1, -1, k.watchThread), pp) <==> q == pp)
    ensures forall q :: Selected(Knobs(-1, q, -1, k.watchThread), pp) <==> q != pp
    ensures forall t :: t != -1 ==> (Selected(Knobs(-1, -1, t, k.watchThread), pp) <==> t == k.watchThread)
    ensures Selected(k, pp) <==>
      && Selected(Knobs(k.select, -1, -1, k.watchThread), pp)
      && Selected(Knobs(-1, k.deselect, -1, k.watchThread), pp)
      && Selected(Knobs(-1, -1, k.thread, k.watchThread), pp)
  {
  }

  // ----- Reports of many pinpoints -----

  /** The start or the stop marker of pinpoint `q`. */
  function MarkerOf(rs: seq<Region>, kind: EventKind, q: int): MarkRef
    requires 1 <= q <= |rs|
  {
    if kind.Start? then rs[q - 1].start else rs[q - 1].stop
  }

  /** Pinpoint `q`, later than `after`, has its marker of this kind at the visit of `ref`. */
  predicate Joins(rs: seq<Region>, kind: EventKind, ref: MarkRef, after: int, q: int) {
    after < q && 1 <= q <= |rs| && MarkerOf(rs, kind, q).mark == ref.mark && MarkerOf(rs, kind, q).count == ref.count
  }

  /** The calls name exactly the selected ones among the first `n` that join, ascending and with their own phases. */
  ghost predicate Reports(k: Knobs, rs: seq<Region>, n: nat, kind: EventKind, ref: MarkRef, after: int, calls: seq<Call>) {
    && (forall i :: 0 <= i < |calls| ==>
          && Joins(rs, kind, ref, after, calls[i].pp) && calls[i].pp <= n && Selected(k, calls[i].pp)
          && calls[i] == Call(kind, calls[i].pp, MarkerOf(rs, kind, calls[i].pp).phase))
    && (forall i, j :: 0 <= i < j < |calls| ==> calls[i].pp < calls[j].pp)
    && (forall q :: 1 <= q <= n && Joins(rs, kind, ref, after, q) && Selected(k, q) ==> exists i :: 0 <= i < |calls| && calls[i].pp == q)
  }

  lemma ReportsOneMore(k: Knobs, rs: seq<Region>, n: nat, kind: EventKind, ref: MarkRef, after: int, calls: seq<Call>)
    requires n < |rs| && Reports(k, rs, n, kind, ref, after, calls)
    ensures var q := n + 1;
      Reports(k, rs, n + 1, kind, ref, after,
              if Joins(rs, kind, ref, after, q) && Selected(k, q) then calls + [Call(kind, q, MarkerOf(rs, kind, q).phase)] else calls)
  {
    hide Joins, Selected, MarkerOf;
    var q := n + 1;
    if Joins(rs, kind, ref, after, q) && Selected(k, q) {
      var more := calls + [Call(kind, q, MarkerOf(rs, kind, q).phase)];
      forall p | 1 <= p <= n + 1 && Joins(rs, kind, ref, after, p) && Selected(k, p)
        ensures exists i :: 0 <= i < |more| && more[i].pp == p
      {
        if p <= n {
          var i :| 0 <= i < |calls| && calls[i].pp == p;
          assert more[i].pp == p;
        } else {
          assert more[|calls|].pp == p;
        }
      }
    }
  }

  /** The greatest of the first `n` that join, selected or not, or else `none`. */
  ghost predicate Greatest(rs: seq<Region>, n: nat, kind: EventKind, ref: MarkRef, after: int, none: int, g: int) {
    && (forall q :: 1 <= q <= n && Joins(rs, kind, ref, after, q) ==> q <= g)
    && ((g == none && forall q :: 1 <= q <= n ==> !Joins(rs, kind, ref, after, q)) || (1 <= g <= n && Joins(rs, kind, ref, after, g)))
  }

  // ----- Starts that coincide -----

  lemma {:induction false} AuxStartsReport(k: Knobs, rs: seq<Region>, n: nat, ref: MarkRef, s: State) returns (calls: seq<Call>)
    requires Numbered(rs) && n <= |rs|
    ensures AuxStarts(k, rs, n, ref, s) == s.(calls := s.calls + calls)
    ensures Reports(k, rs, n, Start, ref, s.current, calls)
    decreases n
  {
    hide Selected, Reports;
    if n == 0 {
      calls := [];
      NothingReported(k, rs, Start, ref, s.current);
    } else {
      calls := AuxStartsReport(k, rs, n - 1, ref, s);
      ReportsOneMore(k, rs, n - 1, Start, ref, s.current, calls);
      var other := rs[n - 1].start;
      if Joins(rs, Start, ref, s.current, n) && Selected(k, n) {
        assert s.calls + (calls + [Call(Start, n, other.phase)]) == s.calls + calls + [Call(Start, n, other.phase)];
        calls := calls + [Call(Start, n, other.phase)];
      }
    }
  }

  lemma NothingReported(k: Knobs, rs: seq<Region>, kind: EventKind, ref: MarkRef, after: int)
    ensures Reports(k, rs, 0, kind, ref, after, [])
  {
  }

  /**
   The start marker of pinpoint p fires and p is next: p is reported if it is selected, and then
   exactly the selected later pinpoints that start at the same visit, each once, in ascending
   order and with its own phase. The state moves to p and nothing else.
   */
  lemma StartsReported(k: Knobs, rs: seq<Region>, s: State, ref: MarkRef, icount: nat) returns (calls: seq<Call>)
    requires Numbered(rs) && !s.aborted && ref.start && s.current == 0 && s.last + 1 == ref.pp && ref.pp > 0
    ensures Reports(k, rs, |rs|, Start, ref, ref.pp, calls)
    ensures Check(k, rs, s, ref, icount)
         == State(ref.pp, ref.phase, s.last, icount, false,
                  s.calls + (if Selected(k, ref.pp) then [Call(Start, ref.pp, ref.phase)] else []) + calls)
  {
    hide Selected, Reports, AuxStarts;
    var t := s.(current := ref.pp, phase := ref.phase, startIcount := icount);
    calls := AuxStartsReport(k, rs, |rs|, ref, Emit(k, t, Start, ref.pp));
    assert s.calls + [] == s.calls;
  }

  // ----- Stops that coincide -----

  /** After the first `n` stop markers: the calls, the last of them that joins, and where `current` may be. */
  lemma {:induction false} AuxStopsReport(k: Knobs, rs: seq<Region>, n: nat, ref: MarkRef, s: State) returns (calls: seq<Call>)
    requires Numbered(rs) && n <= |rs| && s.last == 0
    ensures var t := AuxStops(k, rs, n, ref, s);
      && t.calls == s.calls + calls && Reports(k, rs, n, Stop, ref, s.current, calls)
      && Greatest(rs, n, Stop, ref, s.current, 0, t.last)
      && (t.current == s.current || s.current < t.current <= n) && t.startIcount == s.startIcount && t.aborted == s.aborted
    decreases n
  {
    hide Selected, Reports;
    if n == 0 {
      calls := [];
      NothingReported(k, rs, Stop, ref, s.current);
    } else {
      calls := AuxStopsReport(k, rs, n - 1, ref, s);
      ReportsOneMore(k, rs, n - 1, Stop, ref, s.current, calls);
      var other := rs[n - 1].stop;
      if Joins(rs, Stop, ref, s.current, n) && Selected(k, n) {
        assert s.calls + (calls + [Call(Stop, n, other.phase)]) == s.calls + calls + [Call(Stop, n, other.phase)];
        calls := calls + [Call(Stop, n, other.phase)];
      }
    }
  }

  // ----- Starts at a stop marker -----

  lemma {:induction false} StartsOnStopReport(k: Knobs, rs: seq<Region>, n: nat, ref: MarkRef, s: State, icount: nat)
    returns (calls: seq<Call>)
    requires Numbered(rs) && n <= |rs| && s.current == 0
    ensures var t := StartsOnStop(k, rs, n, ref, s, icount);
      && t.calls == s.calls + calls && Reports(k, rs, n, Start, ref, 0, calls)
      && Greatest(rs, n, Start, ref, 0, 0, t.current) && t.last == s.last && t.aborted == s.aborted
      && (if t.current == 0 then t.phase == s.phase && t.startIcount == s.startIcount
          else t.phase == rs[t.current - 1].start.phase && t.startIcount == icount)
    decreases n
  {
    hide Selected, Reports;
    if n == 0 {
      calls := [];
      NothingReported(k, rs, Start, ref, 0);
    } else {
      calls := StartsOnStopReport(k, rs, n - 1, ref, s, icount);
      ReportsOneMore(k, rs, n - 1, Start, ref, 0, calls);
      var other := rs[n - 1].start;
      if Joins(rs, Start, ref, 0, n) && Selected(k, n) {
        assert s.calls + (calls + [Call(Start, n, other.phase)]) == s.calls + calls + [Call(Start, n, other.phase)];
        calls := calls + [Call(Start, n, other.phase)];
      }
    }
  }

  /**
   The stop marker of the running pinpoint p fires. STOP p is reported if it is selected, then the
   selected later pinpoints that stop at the same visit, and then the selected pinpoints that
   start there, each once and ascending. The last pinpoint stopped is the greatest of those that
   stop there, selected or not; the running one is the greatest of those that start there, or none.
   */
  lemma StopsReported(k: Knobs, rs: seq<Region>, s: State, ref: MarkRef, icount: nat) returns (stops: seq<Call>, starts: seq<Call>)
    requires Numbered(rs) && !s.aborted && !ref.start && s.current == ref.pp && ref.pp > 0
    ensures Reports(k, rs, |rs|, Stop, ref, ref.pp, stops) && Reports(k, rs, |rs|, Start, ref, 0, starts)
    ensures var t := Check(k, rs, s, ref, icount);
      && t.calls == s.calls + (if Selected(k, ref.pp) then [Call(Stop, ref.pp, s.phase)] else []) + stops + starts
      && Greatest(rs, |rs|, Stop, ref, ref.pp, ref.pp, t.last)
      && Greatest(rs, |rs|, Start, ref, 0, 0, t.current)
      && !t.aborted
      && (if t.current == 0 then t.startIcount == 0 else t.phase == rs[t.current - 1].start.phase && t.startIcount == icount)
  {
    hide Selected, Reports, AuxStops, StartsOnStop, Joins;
    var s1 := Emit(k, s, Stop, ref.pp).(last := 0);
    stops := AuxStopsReport(k, rs, |rs|, ref, s1);
    var t := AuxStops(k, rs, |rs|, ref, s1);
    var u := t.(startIcount := 0, last := if t.last == 0 then ref.pp else t.last, current := 0);
    starts := StartsOnStopReport(k, rs, |rs|, ref, u, icount);
    assert s.calls + [] == s.calls;
  }

  // ----- Everything else -----

  /** Any other marker is ignored or out of order: then the run is over, and nothing is reported. */
  lemma OtherMarkers(k: Knobs, rs: seq<Region>, s: State, ref: MarkRef, icount: nat)
    requires !s.aborted
    requires if ref.start then s.current != 0 || s.last + 1 != ref.pp else s.current != ref.pp
    ensures var again := if ref.start then s.current == ref.pp else s.current == 0 && s.last == ref.pp;
      Check(k, rs, s, ref, icount) == if again then s else s.(aborted := true)
  {
  }

  /** After an abort nothing happens any more. */
  lemma NothingAfterAbort(k: Knobs, rs: seq<Region>, s: State, ref: MarkRef, icount: nat)
    requires s.aborted
    ensures Check(k, rs, s, ref, icount) == s
  {
  }

  predicate IsMarker(rs: seq<Region>, ref: MarkRef, q: int) {
    1 <= q <= |rs| && ref == MarkerOf(rs, if ref.start then Start else Stop, q)
  }

  ghost predicate IsMarked(rs: seq<Region>, ref: MarkRef) {
    exists q :: IsMarker(rs, ref, q)
  }

  /** In every run of markers of the file, the phase of the running pinpoint is its own. */
  lemma {:induction false} PhaseIsOwn(k: Knobs, rs: seq<Region>, alarms: seq<Alarm>)
    requires Numbered(rs)
    requires forall i :: 0 <= i < |alarms| ==> IsMarked(rs, alarms[i].ref)
    ensures var s := RunAlarms(k, rs, alarms);
      0 <= s.current <= |rs| && (s.current != 0 ==> s.phase == rs[s.current - 1].start.phase)
    decreases |alarms|
  {
    hide Check, Selected;
    if alarms != [] {
      var before, a := alarms[..|alarms| - 1], alarms[|alarms| - 1];
      PhaseIsOwn(k, rs, before);
      assert IsMarked(rs, alarms[|alarms| - 1].ref);
      PhaseStep(k, rs, RunAlarms(k, rs, before), a.ref, a.icount);
    }
  }

  lemma PhaseStep(k: Knobs, rs: seq<Region>, s: State, ref: MarkRef, icount: nat)
    requires Numbered(rs) && 0 <= s.current <= |rs| && (s.current != 0 ==> s.phase == rs[s.current - 1].start.phase)
    requires IsMarked(rs, ref)
    ensures var t := Check(k, rs, s, ref, icount);
      0 <= t.current <= |rs| && (t.current != 0 ==> t.phase == rs[t.current - 1].start.phase)
  {
    hide Check, Selected, Reports;
    if s.aborted {
      NothingAfterAbort(k, rs, s, ref, icount);
    } else if ref.start && s.current == 0 && s.last + 1 == ref.pp {
      var calls := StartsReported(k, rs, s, ref, icount);
    } else if !ref.start && s.current == ref.pp {
      var stops, starts := StopsReported(k, rs, s, ref, icount);
    } else {
      OtherMarkers(k, rs, s, ref, icount);
    }
  }
}
