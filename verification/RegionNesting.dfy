/**
 The sorted event stream of a thread. With overlap not allowed the sort keys are pairwise
 distinct, so every sort gives the same stream, and that stream is well nested.
 */
module RegionNesting {
  import opened Options
  import opened Regions

  ghost predicate Sorted(s: seq<Event>) {
    forall i, j :: 0 <= i < j < |s| ==> EventLessThan(s[i], s[j])
  }

  ghost predicate IsSortOf(s: seq<Event>, es: seq<Event>) {
    multiset(s) == multiset(es) && Sorted(s)
  }

  ghost predicate RegionKindsOnly(es: seq<Event>) {
    forall e :: e in es ==> IsRegionKind(e.kind)
  }

  ghost predicate KeysDistinct(es: seq<Event>) {
    forall i, j :: 0 <= i < j < |es| ==> !SameKey(es[i], es[j])
  }

  // ----- The order as an integer key -----

  /** Orders the eight kinds exactly as the comparator does. */
  function Key(e: Event): int {
    8 * e.icount + Rank(e.kind)
  }

  ghost predicate Ascending<T>(s: seq<T>, key: T -> int) {
    forall i, j :: 0 <= i < j < |s| ==> key(s[i]) <= key(s[j])
  }

  ghost predicate Injective<T(!new)>(s: seq<T>, key: T -> int) {
    forall x, y :: x in s && y in s && key(x) == key(y) ==> x == y
  }

  lemma KeyOrders(a: Event, b: Event)
    requires IsRegionKind(a.kind) && IsRegionKind(b.kind)
    ensures EventLessThan(a, b) <==> Key(a) <= Key(b)
    ensures SameKey(a, b) <==> Key(a) == Key(b)
  {
    EventLessThanIsLexicographic(a, b);
  }

  lemma SortedMeansAscending(s: seq<Event>)
    requires RegionKindsOnly(s)
    ensures Sorted(s) <==> Ascending(s, Key)
  {
    forall i, j | 0 <= i < j < |s|
      ensures EventLessThan(s[i], s[j]) <==> Key(s[i]) <= Key(s[j])
    {
      assert s[i] in s && s[j] in s;
      KeyOrders(s[i], s[j]);
    }
  }

  lemma KeysDistinctMeansInjective(es: seq<Event>)
    requires KeysDistinct(es) && RegionKindsOnly(es)
    ensures Injective(es, Key)
  {
    forall e, f | e in es && f in es && Key(e) == Key(f)
      ensures e == f
    {
      KeyOrders(e, f);
      var i :| 0 <= i < |es| && es[i] == e;
      var j :| 0 <= j < |es| && es[j] == f;
      assert i == j;
    }
  }

  lemma SameMembers<T>(s: seq<T>, t: seq<T>)
    requires multiset(s) == multiset(t)
    ensures |s| == |t| && forall x :: x in s <==> x in t
  {
    assert |multiset(s)| == |s| && |multiset(t)| == |t|;
    forall x
      ensures x in s <==> x in t
    {
      assert x in s <==> x in multiset(s);
      assert x in t <==> x in multiset(t);
    }
  }

  // ----- The library sort -----

  function InsertByKey<T>(e: T, s: seq<T>, key: T -> int): seq<T> {
    if s == [] then [e]
    else if key(e) <= key(s[0]) then [e] + s
    else [s[0]] + InsertByKey(e, s[1..], key)
  }

  function SortByKey<T>(es: seq<T>, key: T -> int): seq<T> {
    if es == [] then [] else InsertByKey(es[0], SortByKey(es[1..], key), key)
  }

  /** A head with a smaller key goes in front of the sorted rest. */
  lemma HeadSorts<T>(e: T, s: seq<T>, t: seq<T>, key: T -> int)
    requires s != [] && Ascending(s, key) && key(s[0]) < key(e)
    requires multiset(t) == multiset(s[1..]) + multiset{e} && Ascending(t, key)
    ensures multiset([s[0]] + t) == multiset(s) + multiset{e} && Ascending([s[0]] + t, key)
  {
    assert s == [s[0]] + s[1..];
    forall j | 0 <= j < |t|
      ensures key(s[0]) <= key(t[j])
    {
      assert t[j] in multiset(t);
      assert t[j] == e || t[j] in s[1..];
    }
  }

  lemma {:induction false} InsertByKeySorts<T>(e: T, s: seq<T>, key: T -> int)
    requires Ascending(s, key)
    ensures multiset(InsertByKey(e, s, key)) == multiset(s) + multiset{e}
    ensures Ascending(InsertByKey(e, s, key), key)
    decreases |s|
  {
    if s != [] && key(s[0]) < key(e) {
      InsertByKeySorts(e, s[1..], key);
      HeadSorts(e, s, InsertByKey(e, s[1..], key), key);
    }
  }

  lemma {:induction false} SortByKeySorts<T>(es: seq<T>, key: T -> int)
    ensures multiset(SortByKey(es, key)) == multiset(es) && Ascending(SortByKey(es, key), key)
    decreases |es|
  {
    if es != [] {
      assert es == [es[0]] + es[1..];
      SortByKeySorts(es[1..], key);
      InsertByKeySorts(es[0], SortByKey(es[1..], key), key);
    }
  }

  /** The sorted event list of a thread. */
  function SortEvents(es: seq<Event>): seq<Event> {
    SortByKey(es, Key)
  }

  lemma SortEventsSorts(es: seq<Event>)
    requires RegionKindsOnly(es)
    ensures IsSortOf(SortEvents(es), es)
  {
    SortByKeySorts(es, Key);
    SameMembers(SortEvents(es), es);
    SortedMeansAscending(SortEvents(es));
  }

  lemma AscendingSameFirst<T(!new)>(s: seq<T>, t: seq<T>, key: T -> int)
    requires Ascending(s, key) && Ascending(t, key) && Injective(s, key)
    requires multiset(s) == multiset(t) && s != []
    ensures t != [] && s[0] == t[0]
  {
    SameMembers(s, t);
    assert s[0] in t && t[0] in s;
    var i :| 0 <= i < |t| && t[i] == s[0];
    var j :| 0 <= j < |s| && s[j] == t[0];
    assert key(t[0]) <= key(t[i]) && key(s[0]) <= key(s[j]);
  }

  lemma TailKeeps<T(!new)>(s: seq<T>, key: T -> int)
    requires s != [] && Ascending(s, key) && Injective(s, key)
    ensures Ascending(s[1..], key) && Injective(s[1..], key)
    ensures multiset(s[1..]) == multiset(s) - multiset{s[0]}
  {
    assert s == [s[0]] + s[1..];
  }

  lemma SameParts<T>(s: seq<T>, t: seq<T>)
    requires s != [] && t != [] && s[0] == t[0] && s[1..] == t[1..]
    ensures s == t
  {
    assert s == [s[0]] + s[1..] && t == [t[0]] + t[1..];
  }

  lemma {:induction false} AscendingIsUniqueFrom<T(!new)>(s: seq<T>, t: seq<T>, key: T -> int)
    requires Ascending(s, key) && Injective(s, key) && Ascending(t, key) && Injective(t, key)
    requires multiset(s) == multiset(t)
    ensures s == t
    decreases |s|
  {
    hide Ascending, Injective;
    SameMembers(s, t);
    if s != [] {
      AscendingSameFirst(s, t, key);
      TailKeeps(s, key);
      TailKeeps(t, key);
      assert multiset(s[1..]) == multiset(t[1..]);
      AscendingIsUniqueFrom(s[1..], t[1..], key);
      SameParts(s, t);
    }
  }

  /** Two ascending sequences of the same elements agree when equal keys mean equal elements. */
  lemma AscendingIsUnique<T(!new)>(s: seq<T>, t: seq<T>, key: T -> int)
    requires Ascending(s, key) && Ascending(t, key) && multiset(s) == multiset(t) && Injective(s, key)
    ensures s == t
  {
    SameMembers(s, t);
    AscendingIsUniqueFrom(s, t, key);
  }

  /** With pairwise distinct keys every sort of the events is the same sequence. */
  lemma SortIsUnique(s: seq<Event>, t: seq<Event>, es: seq<Event>)
    requires KeysDistinct(es) && RegionKindsOnly(es) && IsSortOf(s, es) && IsSortOf(t, es)
    ensures s == t
  {
    KeysDistinctMeansInjective(es);
    SameMembers(s, es);
    SameMembers(t, es);
    SortedMeansAscending(s);
    SortedMeansAscending(t);
    AscendingIsUnique(s, t, Key);
  }

  // ----- Keys are pairwise distinct -----

  lemma PhaseEventsKeys(k: Knobs, r: Record, region: nat)
    requires WellFormed(r)
    ensures KeysDistinct(RegionEvents(k, r, region)) && Sorted(RegionEvents(k, r, region))
  {
    var ps := Phases(k, r);
    var es := RegionEvents(k, r, region);
    PhasesTileSpan(k, r);
    PhasesRanked(k, r);
    RegionEventsInSpan(k, r, region);
    forall i, j | 0 <= i < j < |es|
      ensures !SameKey(es[i], es[j]) && EventLessThan(es[i], es[j])
    {
      PhaseEventsAscend(ps, region, i, j);
      assert es[i] in es && es[j] in es;
      KeyOrders(es[i], es[j]);
    }
  }

  lemma PhasesRanked(k: Knobs, r: Record)
    ensures var ps := Phases(k, r);
            forall a, b :: 0 <= a < b < |ps| ==> Rank(StopKind(ps[a].name)) < Rank(StartKind(ps[b].name))
  {
  }

  lemma PhaseEventsAscend(ps: seq<Phase>, region: nat, i: nat, j: nat)
    requires Contiguous(ps) && i < j < |PhaseEvents(ps, region)|
    requires forall a, b :: 0 <= a < b < |ps| ==> Rank(StopKind(ps[a].name)) < Rank(StartKind(ps[b].name))
    ensures Key(PhaseEvents(ps, region)[i]) < Key(PhaseEvents(ps, region)[j])
  {
    PhaseEventsShape(ps, region);
    var a, b := i / 2, j / 2;
    assert i == 2 * a || i == 2 * a + 1;
    assert j == 2 * b || j == 2 * b + 1;
    if a < b {
      PhaseBoundsAscend(ps, a, b);
    }
  }

  lemma {:induction false} PhaseBoundsAscend(ps: seq<Phase>, a: nat, b: nat)
    requires Contiguous(ps) && a < b < |ps|
    ensures ps[a].hi <= ps[b].lo
  {
    if a < b - 1 {
      PhaseBoundsAscend(ps, a, b - 1);
    }
  }

  lemma AppendKeepsKeysDistinct(es: seq<Event>, block: seq<Event>)
    requires KeysDistinct(es) && KeysDistinct(block)
    requires forall e, f :: e in es && f in block ==> e.icount != f.icount
    ensures KeysDistinct(es + block)
  {
    var t := es + block;
    forall i, j | 0 <= i < j < |t|
      ensures !SameKey(t[i], t[j])
    {
      if i < |es| <= j {
        assert t[i] in es && t[j] in block;
      }
    }
  }

  lemma NextRecordKeepsKeys(k: Knobs, r: Record, region: nat, es: seq<Event>)
    requires !k.overlapOk && WellFormed(r) && !Rejected(k, es, r)
    requires KeysDistinct(es) && RegionKindsOnly(es)
    ensures KeysDistinct(es + RegionEvents(k, r, region)) && RegionKindsOnly(es + RegionEvents(k, r, region))
  {
    PhaseEventsKeys(k, r, region);
    RegionEventsInSpan(k, r, region);
    AppendKeepsKeysDistinct(es, RegionEvents(k, r, region));
  }

  lemma NoKeys()
    ensures KeysDistinct([]) && RegionKindsOnly([])
  {
  }

  /** With overlap not allowed no two events of a thread share icount and kind. */
  lemma {:induction false} EventKeysArePairwiseDistinct(k: Knobs, rs: seq<Record>, n: nat)
    requires !k.overlapOk && n <= |rs| && forall i :: 0 <= i < |rs| ==> WellFormed(rs[i])
    ensures KeysDistinct(EventsUpTo(k, rs, n)) && RegionKindsOnly(EventsUpTo(k, rs, n))
    decreases n
  {
    hide KeysDistinct, RegionKindsOnly, Rejected, RegionEvents, WellFormed;
    if n == 0 {
      NoKeys();
    } else {
      EventKeysArePairwiseDistinct(k, rs, n - 1);
      if !Rejected(k, EventsUpTo(k, rs, n - 1), rs[n - 1]) {
        NextRecordKeepsKeys(k, rs[n - 1], n - 1, EventsUpTo(k, rs, n - 1));
      }
    }
  }

  // ----- Well nestedness -----

  datatype Open = Open(region: nat, name: PhaseName)

  predicate Closes(e: Event, o: Open) {
    o.region == e.region && e.kind == StopKind(o.name)
  }

  function PhaseOfStart(kind: EventKind): Option<PhaseName> {
    match kind
    case WarmupStart => Some(Warmup)
    case PrologStart => Some(Prolog)
    case Start => Some(Region)
    case EpilogStart => Some(Epilog)
    case _ => None
  }

  /** Runs the events on a stack of open phases; None when a stop does not close the top. */
  function Nest(stack: seq<Open>, s: seq<Event>): Option<seq<Open>>
    decreases |s|
  {
    if s == [] then Some(stack)
    else
      match PhaseOfStart(s[0].kind)
      case Some(name) => Nest([Open(s[0].region, name)] + stack, s[1..])
      case None =>
        if stack != [] && Closes(s[0], stack[0]) then Nest(stack[1..], s[1..]) else None
  }

  /** Every stop closes the most recently opened start, and nothing stays open. */
  ghost predicate WellNested(s: seq<Event>) {
    Nest([], s) == Some([])
  }

  lemma {:induction false} NestConcat(stack: seq<Open>, a: seq<Event>, b: seq<Event>)
    ensures Nest(stack, a + b) == match Nest(stack, a) case None => None case Some(st) => Nest(st, b)
    decreases |a|
  {
    if a == [] {
      assert a + b == b;
    } else {
      assert (a + b)[0] == a[0] && (a + b)[1..] == a[1..] + b;
      match PhaseOfStart(a[0].kind)
      case Some(name) => NestConcat([Open(a[0].region, name)] + stack, a[1..], b);
      case None =>
        if stack != [] && Closes(a[0], stack[0]) {
          NestConcat(stack[1..], a[1..], b);
        }
    }
  }

  /** A record's own events open and close their phases one after the other. */
  lemma {:induction false} PhaseEventsNest(stack: seq<Open>, ps: seq<Phase>, region: nat)
    ensures Nest(stack, PhaseEvents(ps, region)) == Some(stack)
  {
    if ps != [] {
      var a := Event(ps[0].lo, StartKind(ps[0].name), region);
      var b := Event(ps[0].hi, StopKind(ps[0].name), region);
      var rest := PhaseEvents(ps[1..], region);
      var o := Open(region, ps[0].name);
      assert ([a, b] + rest)[1..] == [b] + rest;
      assert ([b] + rest)[1..] == rest;
      assert ([o] + stack)[1..] == stack;
      assert PhaseOfStart(b.kind).None? && Closes(b, o);
      PhaseEventsNest(stack, ps[1..], region);
    }
  }

  /** How many leading events lie below `lo`. */
  function CountBelow(s: seq<Event>, lo: int): (n: nat)
    ensures n <= |s|
    ensures forall i :: 0 <= i < n ==> s[i].icount < lo
    ensures n < |s| ==> lo <= s[n].icount
  {
    if s == [] || lo <= s[0].icount then 0 else 1 + CountBelow(s[1..], lo)
  }

  /** Inserting a block whose span holds no event of the sorted stream gives a sorted stream. */
  lemma SpliceIsSort(s: seq<Event>, block: seq<Event>, lo: int, hi: int, n: nat)
    requires Sorted(s) && Sorted(block) && n == CountBelow(s, lo)
    requires forall e :: e in s ==> !(lo <= e.icount <= hi)
    requires forall e :: e in block ==> lo <= e.icount <= hi
    ensures Sorted(s[..n] + block + s[n..])
    ensures multiset(s[..n] + block + s[n..]) == multiset(s) + multiset(block)
  {
    assert s == s[..n] + s[n..];
    forall i | n <= i < |s|
      ensures hi < s[i].icount
    {
      assert s[i] in s && s[n] in s;
      assert i == n || EventLessThan(s[n], s[i]);
    }
    SplicePairs(s[..n], block, s[n..]);
  }

  lemma SplicePairs(a: seq<Event>, block: seq<Event>, c: seq<Event>)
    requires Sorted(a + c) && Sorted(block)
    requires forall e, f :: e in a && f in block ==> e.icount < f.icount
    requires forall e, f :: e in block && f in c ==> e.icount < f.icount
    ensures Sorted(a + block + c)
  {
    var t := a + block + c;
    var ac := a + c;
    var n, m := |a|, |a| + |block|;
    forall i, j | 0 <= i < j < |t|
      ensures EventLessThan(t[i], t[j])
    {
      if n <= i < m && n <= j < m {
        assert t[i] == block[i - n] && t[j] == block[j - n];
      } else if n <= i < m {
        assert t[i] in block && t[j] in c;
      } else if n <= j < m {
        assert t[i] in a && t[j] in block;
      } else {
        assert t[i] == ac[if i < n then i else i - |block|];
        assert t[j] == ac[if j < n then j else j - |block|];
      }
    }
  }

  /** An event list with distinct keys, and a sort of it that is well nested. */
  ghost predicate NestedSort(es: seq<Event>, t: seq<Event>) {
    KeysDistinct(es) && RegionKindsOnly(es) && IsSortOf(t, es) && WellNested(t)
  }

  /** A record that the filter lets through adds one block to the sorted stream. */
  lemma NextStream(k: Knobs, r: Record, region: nat, es: seq<Event>, t: seq<Event>) returns (u: seq<Event>)
    requires !k.overlapOk && WellFormed(r) && !Rejected(k, es, r)
    requires NestedSort(es, t)
    ensures NestedSort(es + RegionEvents(k, r, region), u)
  {
    var block := RegionEvents(k, r, region);
    var lo, hi := SpanBegin(k, r), SpanEnd(k, r);
    NextRecordKeepsKeys(k, r, region, es);
    RegionEventsInSpan(k, r, region);
    PhaseEventsKeys(k, r, region);
    SameMembers(t, es);
    var m := CountBelow(t, lo);
    SpliceIsSort(t, block, lo, hi, m);
    SpliceNests(t, block, m, Phases(k, r), region);
    u := t[..m] + block + t[m..];
  }

  lemma NothingNests()
    ensures NestedSort([], [])
  {
  }

  lemma {:induction false} StreamUpTo(k: Knobs, rs: seq<Record>, n: nat) returns (t: seq<Event>)
    requires !k.overlapOk && n <= |rs| && forall i :: 0 <= i < |rs| ==> WellFormed(rs[i])
    ensures NestedSort(EventsUpTo(k, rs, n), t)
    decreases n
  {
    hide NestedSort, Rejected, RegionEvents;
    if n == 0 {
      NothingNests();
      t := [];
    } else {
      t := StreamUpTo(k, rs, n - 1);
      if Accepted(k, rs, n - 1) {
        t := NextStream(k, rs[n - 1], n - 1, EventsUpTo(k, rs, n - 1), t);
      }
    }
  }

  /** Whatever sort is used, the stream of a thread is well nested when overlap is not allowed. */
  lemma SortedStreamIsWellNested(k: Knobs, rs: seq<Record>, n: nat, s: seq<Event>)
    requires !k.overlapOk && n <= |rs| && forall i :: 0 <= i < |rs| ==> WellFormed(rs[i])
    requires IsSortOf(s, EventsUpTo(k, rs, n))
    ensures WellNested(s)
  {
    var t := StreamUpTo(k, rs, n);
    SortIsUnique(s, t, EventsUpTo(k, rs, n));
  }

  lemma SpliceNests(t: seq<Event>, block: seq<Event>, m: nat, ps: seq<Phase>, region: nat)
    requires m <= |t| && block == PhaseEvents(ps, region)
    requires WellNested(t)
    ensures WellNested(t[..m] + block + t[m..])
  {
    assert t == t[..m] + t[m..];
    NestConcat([], t[..m], t[m..]);
    var st := Nest([], t[..m]).value;
    PhaseEventsNest(st, ps, region);
    NestConcat([], t[..m], block);
    NestConcat([], t[..m] + block, t[m..]);
  }

  /** At every point of the stream each stop so far closed the most recently opened start. */
  lemma PrefixNests(s: seq<Event>, n: nat)
    requires WellNested(s) && n <= |s|
    ensures Nest([], s[..n]).Some?
  {
    assert s == s[..n] + s[n..];
    NestConcat([], s[..n], s[n..]);
  }

  lemma TwoPlainRecords(k: Knobs, a: int, b: int, c: int)
    requires k == Knobs(0, 0, 0, true)
    ensures EventsUpTo(k, [Record(a, b), Record(b, c)], 2)
         == [Event(a, Start, 0), Event(b, Stop, 0), Event(b, Start, 1), Event(c, Stop, 1)]
  {
    var rs := [Record(a, b), Record(b, c)];
    PlainEvents(k, rs[0], 0);
    PlainEvents(k, rs[1], 1);
    assert EventsUpTo(k, rs, 0) == [];
    assert EventsUpTo(k, rs, 1) == [Event(a, Start, 0), Event(b, Stop, 0)];
  }

  lemma PlainEvents(k: Knobs, r: Record, region: nat)
    requires k.warmup == k.prolog == k.epilog == 0
    ensures RegionEvents(k, r, region) == [Event(r.icountStart, Start, region), Event(r.icountEnd, Stop, region)]
  {
    var ps := Phases(k, r);
    assert ps == [Phase(Region, r.icountStart, r.icountEnd)];
    assert PhaseEvents(ps[1..], region) == [];
  }

  lemma CrossingIsNotNested(a: int, b: int, c: int)
    ensures !WellNested([Event(a, Start, 0), Event(b, Start, 1), Event(b, Stop, 0), Event(c, Stop, 1)])
  {
    var s := [Event(a, Start, 0), Event(b, Start, 1), Event(b, Stop, 0), Event(c, Stop, 1)];
    var first, second := Open(0, Region), Open(1, Region);
    assert [first] + [] == [first] && [second] + [first] == [second, first];
    assert Nest([second, first], s[1..][1..]) == None;
    assert Nest([first], s[1..]) == Nest([second, first], s[1..][1..]);
    assert Nest([], s) == Nest([first], s[1..]);
  }

  lemma MiddleSwapped(w: Event, x: Event, y: Event, z: Event)
    ensures multiset([w, x, y, z]) == multiset([w, y, x, z])
  {
    assert multiset([w, x, y, z]) == multiset{w, x, y, z} == multiset([w, y, x, z]);
  }

  lemma MeetingInOrder(a: int, b: int, c: int)
    requires a < b < c
    ensures Sorted([Event(a, Start, 0), Event(b, Start, 1), Event(b, Stop, 0), Event(c, Stop, 1)])
    ensures var es := [Event(a, Start, 0), Event(b, Stop, 0), Event(b, Start, 1), Event(c, Stop, 1)];
      KeysDistinct(es) && RegionKindsOnly(es)
  {
  }

  /**
   With overlap allowed the order at one icount puts the start of a record before the stop of one
   that ends there, so the phases of records that merely meet cross each other.
   */
  lemma MeetingRecordsCross(a: int, b: int, c: int, s: seq<Event>)
    requires 0 <= a < b < c < TWO_63
    requires IsSortOf(s, EventsUpTo(Knobs(0, 0, 0, true), [Record(a, b), Record(b, c)], 2))
    ensures s == [Event(a, Start, 0), Event(b, Start, 1), Event(b, Stop, 0), Event(c, Stop, 1)] && !WellNested(s)
  {
    hide EventsUpTo, WellNested, KeysDistinct, RegionKindsOnly, Sorted;
    var t := [Event(a, Start, 0), Event(b, Start, 1), Event(b, Stop, 0), Event(c, Stop, 1)];
    var es := [Event(a, Start, 0), Event(b, Stop, 0), Event(b, Start, 1), Event(c, Stop, 1)];
    TwoPlainRecords(Knobs(0, 0, 0, true), a, b, c);
    MeetingInOrder(a, b, c);
    MiddleSwapped(Event(a, Start, 0), Event(b, Stop, 0), Event(b, Start, 1), Event(c, Stop, 1));
    SortIsUnique(s, t, es);
    CrossingIsNotNested(a, b, c);
  }
}
