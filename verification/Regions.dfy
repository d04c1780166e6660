/**
 Region scheduler: (start, end) icount records plus warmup, prolog and epilog lengths
 become typed events, records that touch an existing event point are skipped, and the
 events of a thread are sorted by icount and phase.
 */
module Regions {

  const TWO_63: int := 0x8000_0000_0000_0000
  const TWO_64: int := 0x1_0000_0000_0000_0000

  /** Conversion of a mathematical integer to UINT64 and to INT64. */
  function ToUInt64(x: int): int {
    x % TWO_64
  }

  function ToInt64(x: int): int {
    var m := x % TWO_64;
    if m < TWO_63 then m else m - TWO_64
  }

  datatype EventKind =
    | Invalid
    | Start
    | Stop
    | ThreadId
    | WarmupStart
    | WarmupStop
    | PrologStart
    | PrologStop
    | EpilogStart
    | EpilogStop

  /** One event of a thread's list; `region` is the index of the record it belongs to. */
  datatype Event = Event(icount: int, kind: EventKind, region: nat)

  /** The kinds that the scheduler inserts. */
  predicate IsRegionKind(k: EventKind) {
    !k.Invalid? && !k.ThreadId?
  }

  /** The comparator handed to the library sort. */
  predicate EventLessThan(a: Event, b: Event) {
    if a.icount == b.icount then
      match b.kind
      case WarmupStart => a.kind.WarmupStart?
      case WarmupStop => a.kind.WarmupStart? || a.kind.WarmupStop?
      case PrologStart => a.kind.WarmupStart? || a.kind.WarmupStop? || a.kind.PrologStart?
      case PrologStop => a.kind.WarmupStart? || a.kind.WarmupStop? || a.kind.PrologStart? || a.kind.PrologStop?
      case Start => !(a.kind.Stop? || a.kind.EpilogStart? || a.kind.EpilogStop?)
      case Stop => !(a.kind.EpilogStart? || a.kind.EpilogStop?)
      case EpilogStart => !a.kind.EpilogStop?
      case EpilogStop => true
      case _ => true
    else
      a.icount < b.icount
  }

  /** The order of the eight kinds along WARMUP--PROLOG--REGION--EPILOG. */
  function Rank(k: EventKind): nat {
    match k
    case WarmupStart => 0
    case WarmupStop => 1
    case PrologStart => 2
    case PrologStop => 3
    case Start => 4
    case Stop => 5
    case EpilogStart => 6
    case EpilogStop => 7
    case _ => 8
  }

  predicate SameKey(a: Event, b: Event) {
    a.icount == b.icount && a.kind == b.kind
  }

  /** The comparator is the lexicographic order on (icount, rank), in its reflexive form. */
  lemma EventLessThanIsLexicographic(a: Event, b: Event)
    requires IsRegionKind(a.kind) && IsRegionKind(b.kind)
    ensures EventLessThan(a, b) <==> a.icount < b.icount || (a.icount == b.icount && Rank(a.kind) <= Rank(b.kind))
    ensures EventLessThan(a, b) && EventLessThan(b, a) <==> SameKey(a, b)
  {
  }

  /** So no event is unordered with itself: the comparator is not a strict weak order. */
  lemma EventLessThanIsReflexive(a: Event)
    ensures EventLessThan(a, a)
  {
  }

  /** The kinds along a region, as the comparator orders them at one icount: starts come before the stops of the same phase. */
  const KINDS: seq<EventKind> := [WarmupStart, WarmupStop, PrologStart, PrologStop, Start, Stop, EpilogStart, EpilogStop]

  /** At one icount the kinds decide, in this order. */
  lemma OrderAtOneIcount(icount: int, a: nat, b: nat, regionA: nat, regionB: nat)
    requires a < |KINDS| && b < |KINDS|
    ensures EventLessThan(Event(icount, KINDS[a], regionA), Event(icount, KINDS[b], regionB)) <==> a <= b
  {
  }

  // ----- Phases and events of one record -----

  datatype Record = Record(icountStart: int, icountEnd: int)

  datatype Knobs = Knobs(warmup: nat, prolog: nat, epilog: nat, overlapOk: bool)

  datatype PhaseName = Warmup | Prolog | Region | Epilog

  datatype Phase = Phase(name: PhaseName, lo: int, hi: int)

  /** What the reader of the regions file asserts of a record. */
  predicate WellFormed(r: Record) {
    0 <= r.icountStart < r.icountEnd < TWO_63
  }

  /** The knobs do not push a boundary of the record out of the INT64 range. */
  predicate InRange(k: Knobs, r: Record) {
    && WellFormed(r)
    && r.icountEnd + k.epilog < TWO_63
    && k.prolog + k.warmup <= r.icountStart + TWO_63
  }

  predicate AllInRange(k: Knobs, rs: seq<Record>) {
    forall i :: 0 <= i < |rs| ==> InRange(k, rs[i])
  }

  /** The sub-regions of a record, in order. */
  function Phases(k: Knobs, r: Record): seq<Phase> {
    var w := r.icountStart - k.prolog - k.warmup;
    var p := r.icountStart - k.prolog;
    (if k.warmup > 0 && w > 0 then [Phase(Warmup, w, p)] else [])
    + (if k.prolog > 0 && p > 0 then [Phase(Prolog, p, r.icountStart)] else [])
    + [Phase(Region, r.icountStart, r.icountEnd)]
    + (if k.epilog > 0 then [Phase(Epilog, r.icountEnd, r.icountEnd + k.epilog)] else [])
  }

  /** First and last icount of the record's sub-regions. */
  function SpanBegin(k: Knobs, r: Record): int {
    if k.warmup > 0 && r.icountStart - k.prolog - k.warmup > 0 then r.icountStart - k.prolog - k.warmup
    else if k.prolog > 0 && r.icountStart - k.prolog > 0 then r.icountStart - k.prolog
    else r.icountStart
  }

  function SpanEnd(k: Knobs, r: Record): int {
    r.icountEnd + k.epilog
  }

  function StartKind(n: PhaseName): EventKind {
    match n
    case Warmup => WarmupStart
    case Prolog => PrologStart
    case Region => Start
    case Epilog => EpilogStart
  }

  function StopKind(n: PhaseName): EventKind {
    match n
    case Warmup => WarmupStop
    case Prolog => PrologStop
    case Region => Stop
    case Epilog => EpilogStop
  }

  /** Each phase contributes its start event and its stop event. */
  function PhaseEvents(ps: seq<Phase>, region: nat): seq<Event> {
    if ps == [] then []
    else [Event(ps[0].lo, StartKind(ps[0].name), region), Event(ps[0].hi, StopKind(ps[0].name), region)]
         + PhaseEvents(ps[1..], region)
  }

  function RegionEvents(k: Knobs, r: Record, region: nat): seq<Event> {
    PhaseEvents(Phases(k, r), region)
  }

  function TotalLength(ps: seq<Phase>): int {
    if ps == [] then 0 else ps[0].hi - ps[0].lo + TotalLength(ps[1..])
  }

  ghost predicate Contiguous(ps: seq<Phase>) {
    && (forall i :: 0 <= i < |ps| ==> ps[i].lo < ps[i].hi)
    && (forall i :: 0 < i < |ps| ==> ps[i - 1].hi == ps[i].lo)
  }

  /** Warmup, prolog, region and epilog lengths add up to the span, with no gap between them. */
  lemma PhasesTileSpan(k: Knobs, r: Record)
    requires WellFormed(r)
    ensures Contiguous(Phases(k, r)) && |Phases(k, r)| > 0
    ensures Phases(k, r)[0].lo == SpanBegin(k, r) && Phases(k, r)[|Phases(k, r)| - 1].hi == SpanEnd(k, r)
    ensures TotalLength(Phases(k, r)) == SpanEnd(k, r) - SpanBegin(k, r)
    ensures SpanBegin(k, r) <= r.icountStart < r.icountEnd <= SpanEnd(k, r)
  {
    ContiguousLength(Phases(k, r));
  }

  lemma {:induction false} ContiguousLength(ps: seq<Phase>)
    requires |ps| > 0 && Contiguous(ps)
    ensures TotalLength(ps) == ps[|ps| - 1].hi - ps[0].lo
  {
    if |ps| > 1 {
      var t := ps[1..];
      assert forall i :: 0 < i < |t| ==> t[i - 1] == ps[i] && t[i] == ps[i + 1];
      ContiguousLength(t);
    }
  }

  // ----- Overlap filter -----

  predicate Overlaps(es: seq<Event>, lo: int, hi: int) {
    exists i :: 0 <= i < |es| && lo <= es[i].icount <= hi
  }

  predicate Rejected(k: Knobs, es: seq<Event>, r: Record) {
    !k.overlapOk && Overlaps(es, SpanBegin(k, r), SpanEnd(k, r))
  }

  /** The event list of a thread after its first `n` records were processed. */
  function EventsUpTo(k: Knobs, rs: seq<Record>, n: nat): seq<Event>
    requires n <= |rs|
  {
    if n == 0 then []
    else
      var es := EventsUpTo(k, rs, n - 1);
      if Rejected(k, es, rs[n - 1]) then es else es + RegionEvents(k, rs[n - 1], n - 1)
  }

  /** The records handed back through the output file. */
  function SkippedUpTo(k: Knobs, rs: seq<Record>, n: nat): seq<Record>
    requires n <= |rs|
  {
    if n == 0 then []
    else SkippedUpTo(k, rs, n - 1) + (if Rejected(k, EventsUpTo(k, rs, n - 1), rs[n - 1]) then [rs[n - 1]] else [])
  }

  predicate Accepted(k: Knobs, rs: seq<Record>, i: nat)
    requires i < |rs|
  {
    !Rejected(k, EventsUpTo(k, rs, i), rs[i])
  }

  // ----- Facts about the event list -----

  lemma {:induction false} PhaseEventsShape(ps: seq<Phase>, region: nat)
    ensures |PhaseEvents(ps, region)| == 2 * |ps|
    ensures forall i :: 0 <= i < |ps| ==>
      && PhaseEvents(ps, region)[2 * i] == Event(ps[i].lo, StartKind(ps[i].name), region)
      && PhaseEvents(ps, region)[2 * i + 1] == Event(ps[i].hi, StopKind(ps[i].name), region)
  {
    if ps != [] {
      PhaseEventsShape(ps[1..], region);
      forall i | 0 <= i < |ps|
        ensures PhaseEvents(ps, region)[2 * i] == Event(ps[i].lo, StartKind(ps[i].name), region)
        ensures PhaseEvents(ps, region)[2 * i + 1] == Event(ps[i].hi, StopKind(ps[i].name), region)
      {
        if i > 0 {
          assert ps[i] == ps[1..][i - 1];
          assert PhaseEvents(ps, region)[2 * i] == PhaseEvents(ps[1..], region)[2 * (i - 1)];
          assert PhaseEvents(ps, region)[2 * i + 1] == PhaseEvents(ps[1..], region)[2 * (i - 1) + 1];
        }
      }
    }
  }

  lemma PhaseEventsBetween(ps: seq<Phase>, region: nat, e: Event)
    requires Contiguous(ps) && e in PhaseEvents(ps, region)
    ensures |ps| > 0 && ps[0].lo <= e.icount <= ps[|ps| - 1].hi && e.region == region && IsRegionKind(e.kind)
  {
    var es := PhaseEvents(ps, region);
    PhaseEventsShape(ps, region);
    var j :| 0 <= j < |es| && es[j] == e;
    var i := j / 2;
    assert j == 2 * i || j == 2 * i + 1;
    assert 0 <= i < |ps|;
    ContiguousBounds(ps, i);
  }

  lemma PhaseEventsContain(ps: seq<Phase>, region: nat, i: nat)
    requires i < |ps|
    ensures Event(ps[i].lo, StartKind(ps[i].name), region) in PhaseEvents(ps, region)
    ensures Event(ps[i].hi, StopKind(ps[i].name), region) in PhaseEvents(ps, region)
  {
    PhaseEventsShape(ps, region);
  }

  /** Every event of a record lies in its span. */
  lemma RegionEventsInSpan(k: Knobs, r: Record, region: nat)
    requires WellFormed(r)
    ensures forall e :: e in RegionEvents(k, r, region) ==>
      SpanBegin(k, r) <= e.icount <= SpanEnd(k, r) && e.region == region && IsRegionKind(e.kind)
  {
    PhasesTileSpan(k, r);
    forall e | e in RegionEvents(k, r, region)
      ensures SpanBegin(k, r) <= e.icount <= SpanEnd(k, r) && e.region == region && IsRegionKind(e.kind)
    {
      PhaseEventsBetween(Phases(k, r), region, e);
    }
  }

  lemma {:induction false} EventsUpToSources(k: Knobs, rs: seq<Record>, n: nat, e: Event)
    requires n <= |rs| && forall i :: 0 <= i < |rs| ==> WellFormed(rs[i])
    requires e in EventsUpTo(k, rs, n)
    ensures e.region < n && Accepted(k, rs, e.region) && e in RegionEvents(k, rs[e.region], e.region)
    ensures IsRegionKind(e.kind)
  {
    if n > 0 {
      RegionEventsInSpan(k, rs[n - 1], n - 1);
      if e in EventsUpTo(k, rs, n - 1) {
        EventsUpToSources(k, rs, n - 1, e);
      }
    }
  }

  lemma {:induction false} EventsUpToKeeps(k: Knobs, rs: seq<Record>, i: nat, n: nat)
    requires i < n <= |rs|
    requires Accepted(k, rs, i)
    ensures forall e :: e in RegionEvents(k, rs[i], i) ==> e in EventsUpTo(k, rs, n)
  {
    if i < n - 1 {
      EventsUpToKeeps(k, rs, i, n - 1);
    }
  }

  // ----- Laminar family of accepted spans -----

  predicate Disjoint(k: Knobs, a: Record, b: Record) {
    SpanEnd(k, a) < SpanBegin(k, b) || SpanEnd(k, b) < SpanBegin(k, a)
  }

  /** The span of `b` lies strictly inside one sub-region of `a`. */
  predicate InsideOnePhase(k: Knobs, a: Record, b: Record) {
    exists i :: 0 <= i < |Phases(k, a)| && Phases(k, a)[i].lo < SpanBegin(k, b) && SpanEnd(k, b) < Phases(k, a)[i].hi
  }

  /** A span that avoids every boundary of a contiguous run of phases is outside it or inside one phase. */
  lemma {:induction false} AvoidingBoundaries(ps: seq<Phase>, lo: int, hi: int)
    requires |ps| > 0 && Contiguous(ps) && lo <= hi
    requires forall i :: 0 <= i < |ps| ==> !(lo <= ps[i].lo <= hi) && !(lo <= ps[i].hi <= hi)
    ensures hi < ps[0].lo || ps[|ps| - 1].hi < lo || exists i :: 0 <= i < |ps| && ps[i].lo < lo && hi < ps[i].hi
  {
    if ps[0].hi < lo && |ps| > 1 {
      var t := ps[1..];
      assert forall i :: 0 < i < |t| ==> t[i - 1] == ps[i] && t[i] == ps[i + 1];
      AvoidingBoundaries(t, lo, hi);
      if i :| 0 <= i < |t| && t[i].lo < lo && hi < t[i].hi {
        assert ps[i + 1] == t[i];
      }
    }
  }

  lemma BoundariesInEvents(k: Knobs, rs: seq<Record>, i: nat, j: nat, n: nat)
    requires i < j <= |rs| && Accepted(k, rs, i) && n < |Phases(k, rs[i])|
    ensures exists e :: e in EventsUpTo(k, rs, j) && e.icount == Phases(k, rs[i])[n].lo
    ensures exists e :: e in EventsUpTo(k, rs, j) && e.icount == Phases(k, rs[i])[n].hi
  {
    var p := Phases(k, rs[i])[n];
    EventsUpToKeeps(k, rs, i, j);
    PhaseEventsContain(Phases(k, rs[i]), i, n);
    assert Event(p.lo, StartKind(p.name), i) in EventsUpTo(k, rs, j);
    assert Event(p.hi, StopKind(p.name), i) in EventsUpTo(k, rs, j);
  }

  /** No phase boundary of an accepted record lies in the span of a later one. */
  lemma BoundariesAreOutside(k: Knobs, rs: seq<Record>, i: nat, j: nat)
    requires !k.overlapOk && i < j < |rs| && Accepted(k, rs, i) && Accepted(k, rs, j)
    ensures var ps, lo, hi := Phases(k, rs[i]), SpanBegin(k, rs[j]), SpanEnd(k, rs[j]);
      forall n :: 0 <= n < |ps| ==> !(lo <= ps[n].lo <= hi) && !(lo <= ps[n].hi <= hi)
  {
    hide Phases, EventsUpTo;
    forall n | 0 <= n < |Phases(k, rs[i])|
      ensures var ps, lo, hi := Phases(k, rs[i]), SpanBegin(k, rs[j]), SpanEnd(k, rs[j]);
        !(lo <= ps[n].lo <= hi) && !(lo <= ps[n].hi <= hi)
    {
      BoundariesInEvents(k, rs, i, j, n);
    }
  }

  /** Accepted spans are disjoint, or the later one sits strictly inside one phase of the earlier. */
  lemma AcceptedSpansAreLaminar(k: Knobs, rs: seq<Record>, i: nat, j: nat)
    requires !k.overlapOk && forall n :: 0 <= n < |rs| ==> WellFormed(rs[n])
    requires i < j < |rs| && Accepted(k, rs, i) && Accepted(k, rs, j)
    ensures Disjoint(k, rs[i], rs[j]) != InsideOnePhase(k, rs[i], rs[j])
  {
    hide Phases, Accepted, WellFormed;
    var ps, lo, hi := Phases(k, rs[i]), SpanBegin(k, rs[j]), SpanEnd(k, rs[j]);
    PhasesTileSpan(k, rs[i]);
    PhasesTileSpan(k, rs[j]);
    BoundariesAreOutside(k, rs, i, j);
    AvoidingBoundaries(ps, lo, hi);
    if n :| 0 <= n < |ps| && ps[n].lo < lo && hi < ps[n].hi {
      ContiguousBounds(ps, n);
    }
  }

  lemma {:induction false} ContiguousBounds(ps: seq<Phase>, n: nat)
    requires n < |ps| && Contiguous(ps)
    ensures ps[0].lo <= ps[n].lo && ps[n].hi <= ps[|ps| - 1].hi
  {
    var m := n;
    while m > 0
      invariant 0 <= m <= n && ps[m].lo <= ps[n].lo
    {
      m := m - 1;
    }
    m := n;
    while m < |ps| - 1
      invariant n <= m < |ps| && ps[n].hi <= ps[m].hi
    {
      m := m + 1;
    }
  }

  /** Records that arrive by nondecreasing end icount do get pairwise disjoint spans. */
  lemma AcceptedSpansDisjointWhenEndsAscend(k: Knobs, rs: seq<Record>, i: nat, j: nat)
    requires !k.overlapOk && forall n :: 0 <= n < |rs| ==> WellFormed(rs[n])
    requires i < j < |rs| && Accepted(k, rs, i) && Accepted(k, rs, j)
    requires rs[i].icountEnd <= rs[j].icountEnd
    ensures Disjoint(k, rs[i], rs[j])
  {
    AcceptedSpansAreLaminar(k, rs, i, j);
    if n :| 0 <= n < |Phases(k, rs[i])| && Phases(k, rs[i])[n].lo < SpanBegin(k, rs[j]) && SpanEnd(k, rs[j]) < Phases(k, rs[i])[n].hi {
      PhasesTileSpan(k, rs[i]);
      ContiguousBounds(Phases(k, rs[i]), n);
      assert false;
    }
  }

  /** The filter looks at event points only: a record strictly inside an earlier region gets through. */
  lemma NestedRecordIsAccepted()
    ensures var k := Knobs(0, 0, 0, false);
            var rs := [Record(100, 200), Record(120, 150)];
            Accepted(k, rs, 0) && Accepted(k, rs, 1) && !Disjoint(k, rs[0], rs[1])
  {
    var k := Knobs(0, 0, 0, false);
    var rs := [Record(100, 200), Record(120, 150)];
    var e0 := EventsUpTo(k, rs, 0);
    assert e0 == [] && Accepted(k, rs, 0);
    assert Phases(k, rs[0]) == [Phase(Region, 100, 200)];
    assert Phases(k, rs[1]) == [Phase(Region, 120, 150)];
    PhaseEventsShape(Phases(k, rs[0]), 0);
    assert EventsUpTo(k, rs, 1) == [] + RegionEvents(k, rs[0], 0);
    assert EventsUpTo(k, rs, 1) == [Event(100, Start, 0), Event(200, Stop, 0)];
  }

  // ----- What the phases of a record are -----

  /** The phases in terms of the knobs: each has its knob's length and is there if it begins after instruction 0. */
  lemma PhasesAre(k: Knobs, r: Record, p: Phase)
    requires WellFormed(r)
    ensures p in Phases(k, r) <==>
      match p.name
      case Warmup => k.warmup > 0 && p.lo > 0 && p.hi - p.lo == k.warmup && r.icountStart - p.hi == k.prolog
      case Prolog => k.prolog > 0 && p.lo > 0 && p.hi - p.lo == k.prolog && r.icountStart == p.hi
      case Region => p.lo == r.icountStart && p.hi == r.icountEnd
      case Epilog => k.epilog > 0 && p.lo == r.icountEnd && p.hi - p.lo == k.epilog
  {
  }

  // ----- Which records are accepted -----

  /** Some phase of `a` begins or ends within the span of `b`, its ends included. */
  ghost predicate BoundaryInSpan(k: Knobs, a: Record, b: Record) {
    exists p :: p in Phases(k, a) && (SpanBegin(k, b) <= p.lo <= SpanEnd(k, b) || SpanBegin(k, b) <= p.hi <= SpanEnd(k, b))
  }

  lemma EventIsBoundary(ps: seq<Phase>, region: nat, e: Event)
    requires e in PhaseEvents(ps, region)
    ensures exists p :: p in ps && (e.icount == p.lo || e.icount == p.hi)
  {
    var es := PhaseEvents(ps, region);
    PhaseEventsShape(ps, region);
    var j :| 0 <= j < |es| && es[j] == e;
    assert j == 2 * (j / 2) || j == 2 * (j / 2) + 1;
    assert ps[j / 2] in ps;
  }

  /** The accepted records decide alone: a record is refused exactly when a phase of one of them begins or ends in its span. */
  lemma AcceptedIff(k: Knobs, rs: seq<Record>, j: nat)
    requires j < |rs| && forall i :: 0 <= i < |rs| ==> WellFormed(rs[i])
    ensures Accepted(k, rs, j) <==>
      k.overlapOk || forall i :: 0 <= i < j && Accepted(k, rs, i) ==> !BoundaryInSpan(k, rs[i], rs[j])
  {
    hide Phases, SpanBegin, SpanEnd, EventsUpTo, WellFormed;
    var es, lo, hi := EventsUpTo(k, rs, j), SpanBegin(k, rs[j]), SpanEnd(k, rs[j]);
    if m :| 0 <= m < |es| && lo <= es[m].icount <= hi {
      EventsUpToSources(k, rs, j, es[m]);
      EventIsBoundary(Phases(k, rs[es[m].region]), es[m].region, es[m]);
      assert BoundaryInSpan(k, rs[es[m].region], rs[j]);
    }
    if i :| 0 <= i < j && Accepted(k, rs, i) && BoundaryInSpan(k, rs[i], rs[j]) {
      BoundaryIsEvent(k, rs, i, j);
    }
  }

  lemma BoundaryIsEvent(k: Knobs, rs: seq<Record>, i: nat, j: nat)
    requires i < j < |rs| && Accepted(k, rs, i) && BoundaryInSpan(k, rs[i], rs[j])
    ensures Overlaps(EventsUpTo(k, rs, j), SpanBegin(k, rs[j]), SpanEnd(k, rs[j]))
  {
    hide Phases, EventsUpTo, Accepted;
    var ps, es, lo, hi := Phases(k, rs[i]), EventsUpTo(k, rs, j), SpanBegin(k, rs[j]), SpanEnd(k, rs[j]);
    var p :| p in ps && (lo <= p.lo <= hi || lo <= p.hi <= hi);
    var n :| 0 <= n < |ps| && ps[n] == p;
    BoundariesInEvents(k, rs, i, j, n);
    var e :| e in es && e.icount == if lo <= p.lo <= hi then p.lo else p.hi;
    var m :| 0 <= m < |es| && es[m] == e;
  }

  /** Records whose spans are pairwise disjoint are all accepted. */
  lemma DisjointSpansAreAccepted(k: Knobs, rs: seq<Record>, j: nat)
    requires j < |rs| && forall i :: 0 <= i < |rs| ==> WellFormed(rs[i])
    requires forall i :: 0 <= i < j ==> Disjoint(k, rs[i], rs[j])
    ensures Accepted(k, rs, j)
  {
    hide Phases, Accepted, WellFormed;
    AcceptedIff(k, rs, j);
    forall i | 0 <= i < j
      ensures !BoundaryInSpan(k, rs[i], rs[j])
    {
      if p :| p in Phases(k, rs[i]) && (SpanBegin(k, rs[j]) <= p.lo <= SpanEnd(k, rs[j]) || SpanBegin(k, rs[j]) <= p.hi <= SpanEnd(k, rs[j])) {
        PhaseInSpan(k, rs[i], p);
      }
    }
  }

  lemma PhaseInSpan(k: Knobs, r: Record, p: Phase)
    requires WellFormed(r) && p in Phases(k, r)
    ensures SpanBegin(k, r) <= p.lo < p.hi <= SpanEnd(k, r)
  {
    PhasesTileSpan(k, r);
    var ps := Phases(k, r);
    var n :| 0 <= n < |ps| && ps[n] == p;
    ContiguousBounds(ps, n);
  }

  /** With overlap allowed no record is skipped. */
  lemma {:induction false} OverlapSkipsNothing(k: Knobs, rs: seq<Record>, n: nat)
    requires n <= |rs| && k.overlapOk
    ensures SkippedUpTo(k, rs, n) == [] && forall i :: 0 <= i < n ==> Accepted(k, rs, i)
    decreases n
  {
    if n > 0 {
      OverlapSkipsNothing(k, rs, n - 1);
    }
  }

  /** The skipped records are those not accepted, in the order of the input. */
  lemma {:induction false} SkippedAreTheRest(k: Knobs, rs: seq<Record>, n: nat) returns (at: seq<nat>)
    requires n <= |rs|
    ensures |at| == |SkippedUpTo(k, rs, n)| && forall m :: 0 <= m < |at| ==> at[m] < n && SkippedUpTo(k, rs, n)[m] == rs[at[m]]
    ensures forall a, b :: 0 <= a < b < |at| ==> at[a] < at[b]
    ensures forall i :: 0 <= i < n ==> (i in at <==> !Accepted(k, rs, i))
    decreases n
  {
    if n == 0 {
      at := [];
    } else {
      at := SkippedAreTheRest(k, rs, n - 1);
      if !Accepted(k, rs, n - 1) {
        at := at + [n - 1];
      }
    }
  }

  /** Touching is overlapping: a span that begins where the one before it ends is skipped. */
  lemma TouchingRecordIsSkipped(k: Knobs, a: Record, b: Record)
    requires WellFormed(a) && WellFormed(b) && !k.overlapOk && SpanBegin(k, b) == SpanEnd(k, a)
    ensures Accepted(k, [a, b], 0) && !Accepted(k, [a, b], 1)
  {
    hide Phases, Accepted, WellFormed;
    var rs := [a, b];
    AcceptedIff(k, rs, 0);
    AcceptedIff(k, rs, 1);
    PhasesTileSpan(k, a);
    PhasesTileSpan(k, b);
    assert Phases(k, a)[|Phases(k, a)| - 1] in Phases(k, a);
    assert BoundaryInSpan(k, rs[0], rs[1]);
  }

  // ----- Skipped records are fed back until none is left -----

  lemma {:induction false} SkippedLength(k: Knobs, rs: seq<Record>, n: nat)
    requires 0 < n <= |rs|
    ensures |SkippedUpTo(k, rs, n)| < n
  {
    if n > 1 {
      SkippedLength(k, rs, n - 1);
    } else {
      assert EventsUpTo(k, rs, 0) == [];
      assert SkippedUpTo(k, rs, 0) == [];
    }
  }

  /** The records still skipped after `rounds` invocations, each reading the previous output file. */
  function LeftAfter(k: Knobs, rs: seq<Record>, rounds: nat): seq<Record>
    decreases rounds
  {
    if rounds == 0 then rs
    else LeftAfter(k, SkippedUpTo(k, rs, |rs|), rounds - 1)
  }

  /** As many invocations as there are records always suffice. */
  lemma {:induction false} RefeedingProcessesAll(k: Knobs, rs: seq<Record>, rounds: nat)
    requires |rs| <= rounds
    ensures LeftAfter(k, rs, rounds) == []
    decreases rounds
  {
    if rounds > 0 {
      if |rs| > 0 {
        SkippedLength(k, rs, |rs|);
      }
      RefeedingProcessesAll(k, SkippedUpTo(k, rs, |rs|), rounds - 1);
    }
  }
}
