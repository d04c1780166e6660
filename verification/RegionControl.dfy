/**
 The controller object: it builds the event lists from the records of each thread and, while
 a thread runs, hands the due events to the control handler. The dispatcher looks at the
 event list only when the thread's count reaches a cached threshold.
 */
module RegionControl {
  import opened Options
  import opened Regions
  import opened RegionNesting

  const ICOUNT_MAX: int := TWO_64 - 1

  /** The four lengths stored with a region; all zero while it is skipped. */
  datatype Lengths = Lengths(warmup: int, prolog: int, region: int, epilog: int) {
    function Sum(): int {
      warmup + prolog + region + epilog
    }
  }

  const NO_LENGTHS := Lengths(0, 0, 0, 0)

  /** Length of the phase called `name`, or 0 when the record has no such phase. */
  function LengthOf(ps: seq<Phase>, name: PhaseName): int {
    if ps == [] then 0
    else (if ps[0].name == name then ps[0].hi - ps[0].lo else 0) + LengthOf(ps[1..], name)
  }

  function LengthsOfPhases(ps: seq<Phase>): Lengths {
    Lengths(LengthOf(ps, Warmup), LengthOf(ps, Prolog), LengthOf(ps, Region), LengthOf(ps, Epilog))
  }

  function LengthsOf(k: Knobs, r: Record): Lengths {
    LengthsOfPhases(Phases(k, r))
  }

  lemma {:induction false} LengthsAddUp(ps: seq<Phase>)
    ensures LengthsOfPhases(ps).Sum() == TotalLength(ps)
  {
    if ps != [] {
      LengthsAddUp(ps[1..]);
      match ps[0].name
      case Warmup =>
      case Prolog =>
      case Region =>
      case Epilog =>
    }
  }

  /** The stored lengths of an accepted record sum to its span. */
  lemma LengthsSumToSpan(k: Knobs, r: Record)
    requires WellFormed(r)
    ensures LengthsOf(k, r).Sum() == SpanEnd(k, r) - SpanBegin(k, r)
  {
    PhasesTileSpan(k, r);
    LengthsAddUp(Phases(k, r));
  }

  /** The lengths stored with the first `n` records. */
  function LengthsUpTo(k: Knobs, rs: seq<Record>, n: nat): seq<Lengths>
    requires n <= |rs|
  {
    if n == 0 then []
    else LengthsUpTo(k, rs, n - 1)
         + [if Rejected(k, EventsUpTo(k, rs, n - 1), rs[n - 1]) then NO_LENGTHS else LengthsOf(k, rs[n - 1])]
  }

  /** Each record has one entry: its phase lengths, or zeros when it was skipped. */
  lemma {:induction false} LengthsPerRecord(k: Knobs, rs: seq<Record>, n: nat, i: nat)
    requires i < n <= |rs|
    ensures |LengthsUpTo(k, rs, n)| == n
    ensures LengthsUpTo(k, rs, n)[i] == if Accepted(k, rs, i) then LengthsOf(k, rs[i]) else NO_LENGTHS
    decreases n
  {
    if n > 1 {
      LengthsPerRecord(k, rs, n - 1, if i < n - 1 then i else 0);
    }
  }

  // ----- What the dispatcher refines: rescanning the whole list -----

  /** The events that a full rescan finds due at icount `c`. */
  function Due(es: seq<Event>, c: int): seq<Event> {
    if es == [] then []
    else (if es[0].icount <= c then [es[0]] else []) + Due(es[1..], c)
  }

  ghost predicate IcountsAscend(es: seq<Event>) {
    forall i, j :: 0 <= i < j < |es| ==> es[i].icount <= es[j].icount
  }

  lemma SortedIcountsAscend(es: seq<Event>)
    requires Sorted(es)
    ensures IcountsAscend(es)
  {
    forall i, j | 0 <= i < j < |es|
      ensures es[i].icount <= es[j].icount
    {
      assert EventLessThan(es[i], es[j]);
    }
  }

  /** On a sorted list the due events are a prefix. */
  lemma {:induction false} DueIsPrefix(es: seq<Event>, c: int, n: nat)
    requires n <= |es| && IcountsAscend(es)
    requires forall i :: 0 <= i < n ==> es[i].icount <= c
    requires n < |es| ==> c < es[n].icount
    ensures Due(es, c) == es[..n]
    decreases |es|
  {
    if es != [] {
      assert forall i :: 0 <= i < |es| - 1 ==> es[1..][i] == es[i + 1];
      if n == 0 {
        assert c < es[0].icount;
        DueIsPrefix(es[1..], c, 0);
      } else {
        DueIsPrefix(es[1..], c, n - 1);
        assert es[..n] == [es[0]] + es[1..][..n - 1];
      }
    }
  }

  /** At any total count, the notifications so far are well nested: each stop closed the last open start. */
  lemma DispatchedEventsNest(k: Knobs, rs: seq<Record>, c: int)
    requires !k.overlapOk && forall i :: 0 <= i < |rs| ==> WellFormed(rs[i])
    ensures Nest([], Due(SortEvents(EventsUpTo(k, rs, |rs|)), c)).Some?
  {
    var es := EventsUpTo(k, rs, |rs|);
    var s := SortEvents(es);
    EventKeysArePairwiseDistinct(k, rs, |rs|);
    SortEventsSorts(es);
    SortedStreamIsWellNested(k, rs, |rs|, s);
    SortedIcountsAscend(s);
    var n := CountBelow(s, c + 1);
    DueIsPrefix(s, c, n);
    PrefixNests(s, n);
  }

  /** A built and sorted list, with or without overlap, is what the dispatcher expects. */
  lemma BuiltListsDispatch(k: Knobs, rs: seq<Record>)
    requires AllInRange(k, rs)
    ensures var s := SortEvents(EventsUpTo(k, rs, |rs|));
            IcountsAscend(s) && forall e :: e in s ==> 0 <= e.icount < ICOUNT_MAX
  {
    var es := EventsUpTo(k, rs, |rs|);
    var s := SortEvents(es);
    forall e | e in es
      ensures IsRegionKind(e.kind) && 0 <= e.icount < ICOUNT_MAX
    {
      EventsUpToSources(k, rs, |rs|, e);
      RegionEventsInSpan(k, rs[e.region], e.region);
    }
    SortEventsSorts(es);
    SameMembers(s, es);
    SortedIcountsAscend(s);
  }

  // ----- The controller -----

  class ThreadData {
    const tid: nat
    var count: int
    var nextEventCount: int
    /** The control handler's calls for this thread. */
    var calls: seq<Event>

    constructor (tid: nat, nextEventCount: int)
      ensures this.tid == tid && count == 0 && this.nextEventCount == nextEventCount && calls == []
    {
      this.tid := tid;
      count := 0;
      calls := [];
      this.nextEventCount := nextEventCount;
    }
  }

  class ControlIregions {
    const knobs: Knobs
    const regions: seq<seq<Record>>
    /** Per thread: event list, stored lengths, records written to the output file. */
    const events: array<seq<Event>>
    const lengths: array<seq<Lengths>>
    const skipped: array<seq<Record>>
    /** Per thread: next event index and last triggered region. */
    const nextevent: array<nat>
    const lastTriggered: array<Option<nat>>

    ghost predicate Valid()
    {
      && events.Length == lengths.Length == skipped.Length == |regions|
      && nextevent.Length == lastTriggered.Length == |regions|
    }

    constructor (knobs: Knobs, regions: seq<seq<Record>>)
      ensures Valid() && this.knobs == knobs && this.regions == regions
      ensures fresh(events) && fresh(lengths) && fresh(skipped) && fresh(nextevent) && fresh(lastTriggered)
      ensures forall t :: 0 <= t < |regions| ==>
        events[t] == [] && lengths[t] == [] && skipped[t] == [] && nextevent[t] == 0
    {
      this.knobs := knobs;
      this.regions := regions;
      events := new seq<Event>[|regions|](_ => []);
      lengths := new seq<Lengths>[|regions|](_ => []);
      skipped := new seq<Record>[|regions|](_ => []);
      nextevent := new nat[|regions|](_ => 0);
      lastTriggered := new Option<nat>[|regions|](_ => None);
    }

    method RegionHasOverlap(tid: nat, spanBegin: int, spanEnd: int) returns (overlap: bool)
      requires Valid() && tid < |regions|
      ensures overlap <==> !knobs.overlapOk && Overlaps(events[tid], spanBegin, spanEnd)
      ensures overlap <==> !knobs.overlapOk && exists j :: 0 <= j < |events[tid]| && spanBegin <= events[tid][j].icount <= spanEnd
    {
      if knobs.overlapOk {
        return false;
      }
      var i := 0;
      while i < |events[tid]|
        invariant 0 <= i <= |events[tid]|
        invariant forall j :: 0 <= j < i ==> !(spanBegin <= events[tid][j].icount <= spanEnd)
      {
        var event := events[tid][i];
        if spanBegin <= event.icount && spanEnd >= event.icount {
          return true;
        }
        i := i + 1;
      }
      return false;
    }

    method InsertOneEvent(tid: nat, icount: int, kind: EventKind, region: nat)
      requires Valid() && tid < |regions|
      modifies events
      ensures events[tid] == old(events[tid]) + [Event(ToUInt64(icount), kind, region)]
      ensures forall t :: 0 <= t < |regions| && t != tid ==> events[t] == old(events[t])
    {
      events[tid] := events[tid] + [Event(ToUInt64(icount), kind, region)];
    }

    /** Start and stop event of the next phase `Phase(name, lo, hi)` of a record, with the length it adds. */
    method InsertPhase(tid: nat, name: PhaseName, lo: int, hi: int, region: nat, ghost base: seq<Event>, ghost ps: seq<Phase>)
      returns (length: int, ghost ps': seq<Phase>)
      requires Valid() && tid < |regions|
      requires 0 <= lo <= hi < TWO_63
      requires events[tid] == base + PhaseEvents(ps, region)
      modifies events
      ensures ps' == ps + [Phase(name, lo, hi)]
      ensures events[tid] == base + PhaseEvents(ps', region)
      ensures length == hi - lo
      ensures forall t :: 0 <= t < |regions| && t != tid ==> events[t] == old(events[t])
    {
      InsertOneEvent(tid, lo, StartKind(name), region);
      InsertOneEvent(tid, hi, StopKind(name), region);
      length := ToUInt64(hi - lo);
      ps' := ps + [Phase(name, lo, hi)];
      PhaseEventsSnoc(ps, Phase(name, lo, hi), region);
      assert events[tid] == base + PhaseEvents(ps', region);
    }

    /** Inserts the events of an accepted record and stores its lengths. */
    method InsertRegion(tid: nat, region: nat, ghost r: Record, wstart: int, pstart: int, rstart: int, estart: int, eend: int)
      requires Valid() && tid < |regions| && InRange(knobs, r)
      requires wstart == r.icountStart - knobs.prolog - knobs.warmup && pstart == r.icountStart - knobs.prolog
      requires rstart == r.icountStart && estart == r.icountEnd && eend == r.icountEnd + knobs.epilog
      modifies events, lengths
      ensures events[tid] == old(events[tid]) + RegionEvents(knobs, r, region)
      ensures lengths[tid] == old(lengths[tid]) + [LengthsOf(knobs, r)]
      ensures forall t :: 0 <= t < |regions| && t != tid ==> events[t] == old(events[t]) && lengths[t] == old(lengths[t])
    {
      var warmup, prolog, main, epilog := 0, 0, 0, 0;
      ghost var base := events[tid];
      ghost var ps: seq<Phase> := [];
      assert base + PhaseEvents(ps, region) == base;
      if knobs.warmup != 0 && wstart > 0 {
        warmup, ps := InsertPhase(tid, Warmup, wstart, pstart, region, base, ps);
      }
      if knobs.prolog != 0 && pstart > 0 {
        prolog, ps := InsertPhase(tid, Prolog, pstart, rstart, region, base, ps);
      }
      main, ps := InsertPhase(tid, Region, rstart, estart, region, base, ps);
      if knobs.epilog != 0 && eend > estart {
        epilog, ps := InsertPhase(tid, Epilog, estart, eend, region, base, ps);
      }
      assert ps == Phases(knobs, r);
      LengthsValues(knobs, r);
      lengths[tid] := lengths[tid] + [Lengths(warmup, prolog, main, epilog)];
    }

    /** One iteration of the inner loop over the records of a thread. */
    method ProcessRegion(tid: nat, i: nat)
      requires Valid() && tid < |regions| && i < |regions[tid]| && InRange(knobs, regions[tid][i])
      modifies events, lengths, skipped
      ensures var r, rejected := regions[tid][i], Rejected(knobs, old(events[tid]), regions[tid][i]);
              && events[tid] == old(events[tid]) + (if rejected then [] else RegionEvents(knobs, r, i))
              && skipped[tid] == old(skipped[tid]) + (if rejected then [r] else [])
              && lengths[tid] == old(lengths[tid]) + [if rejected then NO_LENGTHS else LengthsOf(knobs, r)]
      ensures forall t :: 0 <= t < |regions| && t != tid ==>
        events[t] == old(events[t]) && lengths[t] == old(lengths[t]) && skipped[t] == old(skipped[t])
    {
      var region := regions[tid][i];
      Int64Identity(region.icountStart - knobs.prolog - knobs.warmup);
      Int64Identity(region.icountStart - knobs.prolog);
      Int64Identity(region.icountStart);
      Int64Identity(region.icountEnd);
      Int64Identity(region.icountEnd + knobs.epilog);
      var wstart := ToInt64(region.icountStart - knobs.prolog - knobs.warmup);
      var wend := ToInt64(region.icountStart - knobs.prolog);
      var pstart := wend;
      var pend := ToInt64(region.icountStart);
      var rstart := pend;
      var estart := ToInt64(region.icountEnd);
      var rend := estart;
      var eend := ToInt64(region.icountEnd + knobs.epilog);
      var spanBegin, spanEnd := 0, 0;
      if knobs.warmup != 0 && wstart > 0 {
        spanBegin := ToUInt64(wstart);
      }
      if knobs.prolog != 0 && pstart > 0 {
        if spanBegin == 0 {
          spanBegin := ToUInt64(pstart);
        }
      }
      if spanBegin == 0 {
        spanBegin := ToUInt64(rstart);
      }
      spanEnd := ToUInt64(rend);
      if knobs.epilog != 0 && eend > estart {
        spanEnd := ToUInt64(eend);
      }
      assert spanBegin == SpanBegin(knobs, region) && spanEnd == SpanEnd(knobs, region);
      var overlap := RegionHasOverlap(tid, spanBegin, spanEnd);
      if overlap {
        skipped[tid] := skipped[tid] + [region];
        lengths[tid] := lengths[tid] + [NO_LENGTHS];
      } else {
        InsertRegion(tid, i, region, wstart, pstart, rstart, estart, eend);
      }
    }

    /** Builds every thread's event list from its records. */
    method ProcessRegions()
      requires Valid()
      requires forall t :: 0 <= t < |regions| ==>
        AllInRange(knobs, regions[t]) && events[t] == [] && lengths[t] == [] && skipped[t] == []
      modifies events, lengths, skipped
      ensures forall t :: 0 <= t < |regions| ==>
        && events[t] == EventsUpTo(knobs, regions[t], |regions[t]|)
        && skipped[t] == SkippedUpTo(knobs, regions[t], |regions[t]|)
        && lengths[t] == LengthsUpTo(knobs, regions[t], |regions[t]|)
    {
      var tid := 0;
      while tid < |regions|
        invariant 0 <= tid <= |regions|
        invariant forall t :: 0 <= t < tid ==>
          && events[t] == EventsUpTo(knobs, regions[t], |regions[t]|)
          && skipped[t] == SkippedUpTo(knobs, regions[t], |regions[t]|)
          && lengths[t] == LengthsUpTo(knobs, regions[t], |regions[t]|)
        invariant forall t :: tid <= t < |regions| ==> events[t] == [] && lengths[t] == [] && skipped[t] == []
      {
        ProcessThread(tid);
        tid := tid + 1;
      }
    }

    method ProcessThread(tid: nat)
      requires Valid() && tid < |regions| && AllInRange(knobs, regions[tid])
      requires events[tid] == [] && lengths[tid] == [] && skipped[tid] == []
      modifies events, lengths, skipped
      ensures events[tid] == EventsUpTo(knobs, regions[tid], |regions[tid]|)
      ensures skipped[tid] == SkippedUpTo(knobs, regions[tid], |regions[tid]|)
      ensures lengths[tid] == LengthsUpTo(knobs, regions[tid], |regions[tid]|)
      ensures forall t :: 0 <= t < |regions| && t != tid ==>
        events[t] == old(events[t]) && lengths[t] == old(lengths[t]) && skipped[t] == old(skipped[t])
    {
      var i := 0;
      while i < |regions[tid]|
        invariant 0 <= i <= |regions[tid]|
        invariant events[tid] == EventsUpTo(knobs, regions[tid], i)
        invariant skipped[tid] == SkippedUpTo(knobs, regions[tid], i)
        invariant lengths[tid] == LengthsUpTo(knobs, regions[tid], i)
        invariant forall t :: 0 <= t < |regions| && t != tid ==>
          events[t] == old(events[t]) && lengths[t] == old(lengths[t]) && skipped[t] == old(skipped[t])
      {
        ProcessRegion(tid, i);
        i := i + 1;
      }
    }

    /** Sorts every thread's event list. */
    method ProcessEvents()
      requires Valid()
      modifies events
      ensures forall t :: 0 <= t < |regions| ==> events[t] == SortEvents(old(events[t]))
    {
      var tid := 0;
      while tid < |regions|
        invariant 0 <= tid <= |regions|
        invariant forall t :: 0 <= t < tid ==> events[t] == SortEvents(old(events[t]))
        invariant forall t :: tid <= t < |regions| ==> events[t] == old(events[t])
      {
        events[tid] := SortEvents(events[tid]);
        tid := tid + 1;
      }
    }

    // ----- Dispatch -----

    /** Ties a thread's counter and threshold to the calls made so far. */
    ghost predicate Dispatching(td: ThreadData)
      reads events, nextevent, td
    {
      && Valid() && td.tid < |regions|
      && Cached(events[td.tid], td.calls, nextevent[td.tid], td.count, td.nextEventCount)
    }

    method ThreadStart(tid: nat) returns (td: ThreadData)
      requires Valid() && tid < |regions| && IcountsAscend(events[tid])
      requires forall e :: e in events[tid] ==> 0 <= e.icount < ICOUNT_MAX
      requires nextevent[tid] == 0
      ensures fresh(td) && td.tid == tid && td.count == 0
      ensures Dispatching(td)
    {
      if |events[tid]| == 0 {
        td := new ThreadData(tid, ICOUNT_MAX);
      } else {
        td := new ThreadData(tid, events[tid][0].icount);
      }
    }

    method AdvanceIf(td: ThreadData, c: int) returns (reached: bool)
      requires Dispatching(td) && 0 <= c && td.count + c < ICOUNT_MAX
      modifies td`count
      ensures Dispatching(td) && td.count == old(td.count) + c
      ensures reached <==> td.nextEventCount <= td.count
    {
      td.count := td.count + c;
      reached := td.count >= td.nextEventCount;
    }

    method AdvanceThen(td: ThreadData)
      requires Dispatching(td) && 0 <= td.count < ICOUNT_MAX
      modifies lastTriggered, nextevent, td`nextEventCount, td`calls
      ensures Dispatching(td) && td.count < td.nextEventCount
      ensures td.calls == Due(events[td.tid], td.count)
      ensures old(td.calls) <= td.calls
      ensures |old(td.calls)| < |td.calls| ==> lastTriggered[td.tid] == Some(td.calls[|td.calls| - 1].region)
      ensures forall t :: 0 <= t < |regions| && t != td.tid ==> nextevent[t] == old(nextevent[t])
    {
      hide Due;
      var tid, es := td.tid, events[td.tid];
      var e := nextevent[tid];
      var i := e;
      while i < |es|
        modifies lastTriggered, td`calls
        invariant e <= i <= |es|
        invariant Scanned(es, td.calls, i, td.count)
        invariant e < i ==> lastTriggered[tid] == Some(es[i - 1].region)
      {
        if td.count < es[i].icount {
          break;
        }
        var event := es[i];
        ScanStep(es, td.calls, i, td.count);
        lastTriggered[tid] := Some(event.region);
        td.calls := td.calls + [event];
        i := i + 1;
      }
      nextevent[tid] := i;
      td.nextEventCount := if nextevent[tid] >= |es| then ICOUNT_MAX else es[i].icount;
      ScanDone(es, td.calls, i, td.count);
    }

    /**
     A block of `c` instructions of one thread. The calls made so far are then exactly what a
     rescan of the whole list finds due, and the new ones became due within this very block.
     */
    method Block(td: ThreadData, c: int)
      requires Dispatching(td) && 0 <= td.count && 0 <= c && td.count + c < ICOUNT_MAX
      modifies lastTriggered, nextevent, td
      ensures Dispatching(td) && td.count < td.nextEventCount && td.count == old(td.count) + c
      ensures td.calls == Due(events[td.tid], td.count)
      ensures old(td.calls) <= td.calls
      ensures old(td.count < td.nextEventCount) ==>
        forall i :: |old(td.calls)| <= i < |td.calls| ==> old(td.count) < td.calls[i].icount <= td.count
      ensures forall t :: 0 <= t < |regions| && t != td.tid ==> nextevent[t] == old(nextevent[t])
    {
      ghost var es, n := events[td.tid], nextevent[td.tid];
      var reached := AdvanceIf(td, c);
      if reached {
        AdvanceThen(td);
      } else {
        DueIsPrefix(es, td.count, n);
      }
      NewlyDue(es, td.calls, n, old(td.nextEventCount), td.count);
    }
  }

  /** The dispatcher's loop has handed out the first `i` events, all of them due. */
  ghost predicate Scanned(es: seq<Event>, calls: seq<Event>, i: nat, count: int) {
    && i <= |es|
    && calls == es[..i]
    && forall j :: 0 <= j < i ==> es[j].icount <= count
  }

  lemma ScanStep(es: seq<Event>, calls: seq<Event>, i: nat, count: int)
    requires Scanned(es, calls, i, count) && i < |es| && es[i].icount <= count
    ensures Scanned(es, calls + [es[i]], i + 1, count)
  {
  }

  lemma ScanDone(es: seq<Event>, calls: seq<Event>, i: nat, count: int)
    requires Scanned(es, calls, i, count) && IcountsAscend(es) && count < ICOUNT_MAX
    requires forall e :: e in es ==> 0 <= e.icount < ICOUNT_MAX
    requires i < |es| ==> count < es[i].icount
    ensures Cached(es, calls, i, count, if i == |es| then ICOUNT_MAX else es[i].icount)
    ensures calls == Due(es, count)
  {
    DueIsPrefix(es, count, i);
  }

  lemma {:induction false} DueMembers(es: seq<Event>, c: int)
    ensures forall e :: e in Due(es, c) ==> e in es && e.icount <= c
    decreases |es|
  {
    if es != [] {
      DueMembers(es[1..], c);
    }
  }

  lemma NewlyDue(es: seq<Event>, calls: seq<Event>, n: nat, nextEventCount: int, count: int)
    requires n <= |es| && IcountsAscend(es)
    requires nextEventCount == (if n == |es| then ICOUNT_MAX else es[n].icount)
    requires calls == Due(es, count) && calls <= es
    ensures forall i :: n <= i < |calls| ==> nextEventCount <= calls[i].icount <= count
  {
    DueMembers(es, count);
    forall i | n <= i < |calls|
      ensures nextEventCount <= calls[i].icount <= count
    {
      assert calls[i] in calls && calls[i] == es[i];
      assert i == n || es[n].icount <= es[i].icount;
    }
  }

  /** The dispatcher's cache: `n` calls made, in list order, and the icount of the next one. */
  ghost predicate Cached(es: seq<Event>, calls: seq<Event>, n: nat, count: int, nextEventCount: int) {
    && IcountsAscend(es) && n <= |es|
    && (forall e :: e in es ==> 0 <= e.icount < ICOUNT_MAX)
    && calls == es[..n]
    && (forall i :: 0 <= i < n ==> es[i].icount <= count)
    && nextEventCount == (if n == |es| then ICOUNT_MAX else es[n].icount)
  }

  lemma Int64Identity(x: int)
    requires -TWO_63 <= x < TWO_63
    ensures ToInt64(x) == x
    ensures 0 <= x ==> ToUInt64(x) == x
  {
  }

  lemma {:induction false} PhaseEventsSnoc(ps: seq<Phase>, p: Phase, region: nat)
    ensures PhaseEvents(ps + [p], region)
         == PhaseEvents(ps, region) + [Event(p.lo, StartKind(p.name), region)] + [Event(p.hi, StopKind(p.name), region)]
  {
    if ps == [] {
      assert ps + [p] == [p] && [p][1..] == [];
    } else {
      assert (ps + [p])[0] == ps[0] && (ps + [p])[1..] == ps[1..] + [p];
      PhaseEventsSnoc(ps[1..], p, region);
    }
  }

  lemma {:induction false} LengthOfConcat(a: seq<Phase>, b: seq<Phase>, name: PhaseName)
    ensures LengthOf(a + b, name) == LengthOf(a, name) + LengthOf(b, name)
  {
    if a == [] {
      assert a + b == b;
    } else {
      assert (a + b)[0] == a[0] && (a + b)[1..] == a[1..] + b;
      LengthOfConcat(a[1..], b, name);
    }
  }

  lemma LengthOfAtMostOne(ps: seq<Phase>, name: PhaseName)
    requires |ps| <= 1
    ensures LengthOf(ps, name) == if ps != [] && ps[0].name == name then ps[0].hi - ps[0].lo else 0
  {
  }

  lemma LengthsValues(k: Knobs, r: Record)
    ensures LengthsOf(k, r) == Lengths(
      if k.warmup > 0 && r.icountStart - k.prolog - k.warmup > 0 then k.warmup else 0,
      if k.prolog > 0 && r.icountStart - k.prolog > 0 then k.prolog else 0,
      r.icountEnd - r.icountStart,
      k.epilog)
  {
    var p := r.icountStart - k.prolog;
    var w := p - k.warmup;
    var a := if k.warmup > 0 && w > 0 then [Phase(Warmup, w, p)] else [];
    var b := if k.prolog > 0 && p > 0 then [Phase(Prolog, p, r.icountStart)] else [];
    var c := [Phase(Region, r.icountStart, r.icountEnd)];
    var d := if k.epilog > 0 then [Phase(Epilog, r.icountEnd, r.icountEnd + k.epilog)] else [];
    assert Phases(k, r) == a + b + c + d;
    forall n
      ensures LengthOf(Phases(k, r), n) == LengthOf(a, n) + LengthOf(b, n) + LengthOf(c, n) + LengthOf(d, n)
      ensures LengthOf(a, n) == if a != [] && n == Warmup then k.warmup else 0
      ensures LengthOf(b, n) == if b != [] && n == Prolog then k.prolog else 0
      ensures LengthOf(c, n) == if n == Region then r.icountEnd - r.icountStart else 0
      ensures LengthOf(d, n) == if n == Epilog then k.epilog else 0
    {
      LengthOfAtMostOne(a, n);
      LengthOfAtMostOne(b, n);
      LengthOfAtMostOne(c, n);
      LengthOfAtMostOne(d, n);
      LengthOfConcat(a, b, n);
      LengthOfConcat(a + b, c, n);
      LengthOfConcat(a + b + c, d, n);
    }
  }
}
