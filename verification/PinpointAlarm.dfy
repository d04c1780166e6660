/** The compare register of one marked instruction, with one slot for each thread. */
module PinpointAlarm {
  import opened Options
  import opened Pinpoint
  import opened PinpointRun

  /** No alarm: the largest 64-bit value. */
  const NEVER: nat := 0xFFFF_FFFF_FFFF_FFFF

  /** Only the slots of the watched thread are ever armed or compared. */
  class AddressCountAlarm {
    const watchThread: nat
    const counts: array<nat>
    const alarms: array<nat>
    const handlers: array<Option<MarkRef>>

    ghost predicate Shaped() {
      && watchThread < counts.Length == alarms.Length == handlers.Length
      && counts != alarms
    }

    /** The watched thread has not reached its alarm, and an alarm always has a marker to report. */
    ghost predicate Waiting()
      reads counts, alarms, handlers
    {
      && Shaped() && counts[watchThread] < alarms[watchThread]
      && (alarms[watchThread] < NEVER ==> handlers[watchThread].Some?)
    }

    constructor Activate(maxThreads: nat, watchThread: nat)
      requires watchThread < maxThreads
      ensures Waiting() && this.watchThread == watchThread
      ensures fresh(counts) && fresh(alarms) && fresh(handlers)
      ensures counts.Length == maxThreads && forall t :: 0 <= t < maxThreads ==> counts[t] == 0 && alarms[t] == NEVER
    {
      this.watchThread := watchThread;
      var counters, registers := new nat[maxThreads], new nat[maxThreads];
      for i := 0 to maxThreads
        invariant forall t :: 0 <= t < i ==> counters[t] == 0 && registers[t] == NEVER
      {
        counters[i], registers[i] := 0, NEVER;
      }
      counts, alarms := counters, registers;
      handlers := new Option<MarkRef>[maxThreads](_ => None);
    }

    method SetAlarm(alarm: nat, ref: MarkRef, thread: nat)
      requires Shaped() && thread < counts.Length && counts[thread] < alarm
      modifies alarms, handlers
      ensures alarms[thread] == alarm && handlers[thread] == Some(ref)
      ensures forall t :: 0 <= t < alarms.Length && t != thread ==>
        alarms[t] == old(alarms[t]) && handlers[t] == old(handlers[t])
    {
      alarms[thread], handlers[thread] := alarm, Some(ref);
    }

    method Clear(thread: nat)
      requires Shaped() && thread < counts.Length
      modifies alarms
      ensures alarms[thread] == NEVER
      ensures forall t :: 0 <= t < alarms.Length && t != thread ==> alarms[t] == old(alarms[t])
    {
      alarms[thread] := NEVER;
    }

    /**
     `thread` executes the marked instruction. The comparison looks at the watched thread
     whoever executed, so it must never hold for another thread.
     */
    method DoCount(thread: nat) returns (fired: Option<MarkRef>)
      requires Waiting() && thread < counts.Length && counts[thread] + 1 < NEVER
      modifies counts, alarms
      ensures counts[thread] == old(counts[thread]) + 1
      ensures forall t :: 0 <= t < counts.Length && t != thread ==> counts[t] == old(counts[t])
      ensures fired.Some? <==> thread == watchThread && old(counts[thread]) + 1 == old(alarms[thread])
      ensures fired.Some? ==> fired == handlers[watchThread] && alarms[watchThread] == NEVER
      ensures fired.None? ==> alarms[watchThread] == old(alarms[watchThread])
      ensures Waiting()
    {
      fired := None;
      counts[thread] := counts[thread] + 1;
      if counts[watchThread] == alarms[watchThread] {
        Clear(watchThread);
        fired := handlers[watchThread];
      }
    }
  }

  // ----- One register stands for all thresholds of its mark -----

  /** Marker `r` is still due at `mark` after `count` visits. */
  predicate Ahead(r: MarkRef, mark: nat, count: nat) {
    r.mark == mark && r.count > count
  }

  /** `a` is the next marker due at `mark` after `count` visits, or none is due any more. */
  ghost predicate IsNext(refs: seq<MarkRef>, mark: nat, count: nat, a: Option<nat>) {
    match a
    case None => forall j :: 0 <= j < |refs| ==> !Ahead(refs[j], mark, count)
    case Some(p) =>
      && p < |refs| && Ahead(refs[p], mark, count)
      && forall j :: 0 <= j < |refs| && Ahead(refs[j], mark, count) ==>
        refs[p].count < refs[j].count || (refs[p].count == refs[j].count && p <= j)
  }

  /** The same while only the first `m` markers have been looked at; a later one may be armed already. */
  ghost predicate IsNextUpTo(refs: seq<MarkRef>, m: nat, mark: nat, count: nat, a: Option<nat>) {
    match a
    case None => forall j :: 0 <= j < |refs| && j < m ==> !Ahead(refs[j], mark, count)
    case Some(p) =>
      && p < |refs| && Ahead(refs[p], mark, count)
      && forall j :: 0 <= j < |refs| && (j < m || m <= p) && Ahead(refs[j], mark, count) ==>
        refs[p].count < refs[j].count || (refs[p].count == refs[j].count && p <= j)
  }

  /** Once all markers have been looked at, the two agree, and looking again may start anywhere. */
  lemma NextLooksAtAll(refs: seq<MarkRef>, mark: nat, count: nat, a: Option<nat>)
    ensures IsNext(refs, mark, count, a) <==> IsNextUpTo(refs, |refs|, mark, count, a)
    ensures IsNext(refs, mark, count, a) ==> IsNextUpTo(refs, 0, mark, count, a)
    ensures IsNextUpTo(refs, 0, mark, count, None)
    ensures IsNext(refs, mark, count, a) && a.Some? ==> a.value < |refs| && refs[a.value].count > count
  {
  }

  lemma ConsiderKeepsNext(refs: seq<MarkRef>, m: nat, mark: nat, count: nat, a: Option<nat>)
    requires m < |refs| && IsNextUpTo(refs, m, mark, count, a)
    ensures var sets := Ahead(refs[m], mark, count) && (a.None? || refs[m].count < refs[a.value].count);
            IsNextUpTo(refs, m + 1, mark, count, if sets then Some(m) else a)
  {
  }

  /** The register equals the count exactly at the visits that have a marker, and names the first one. */
  lemma {:induction false} NextFires(refs: seq<MarkRef>, mark: nat, count: nat, a: Option<nat>)
    requires IsNext(refs, mark, count, a)
    ensures FirstAt(refs, mark, count + 1) ==
            if a.Some? && refs[a.value].count == count + 1 then Some(refs[a.value]) else None
  {
    if a.Some? && refs[a.value].count == count + 1 {
      FirstAtIs(refs, mark, count + 1, a.value);
    }
  }

  /** A visit that fires nothing leaves the register right. */
  lemma NextStays(refs: seq<MarkRef>, mark: nat, count: nat, a: Option<nat>)
    requires IsNext(refs, mark, count, a) && (a.Some? ==> refs[a.value].count != count + 1)
    ensures IsNext(refs, mark, count + 1, a)
  {
  }
}
