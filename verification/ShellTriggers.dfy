/**
 What each kind of event means: what a single breakpoint or tracepoint makes of an instance, in
 terms of the memory that the instance reads and writes, its branch, its registers and the counts.
 */
module ShellTriggers {
  import opened Options
  import opened ShellEvents
  import opened SkipOne

  /** A memory access: where, how many bytes, and the value as a number. */
  datatype Access = Access(ea: nat, size: nat, value: nat)

  /** The accesses of an instance; an instruction that reads no memory has no read access, whatever else it does. */
  function Reads(x: Instance): set<Access> {
    if x.ins.readSize == 0 then {} else {Access(x.readEa, x.ins.readSize, x.readValue)}
  }

  function Writes(x: Instance): set<Access> {
    if x.ins.writeSize == 0 then {} else {Access(x.writeEa, x.ins.writeSize, x.written)}
  }

  ghost predicate Touches(accesses: set<Access>, ea: nat) {
    exists a :: a in accesses && a.ea == ea
  }

  function Power256(n: nat): nat {
    if n == 0 then 1 else 256 * Power256(n - 1)
  }

  /** An access of 1, 2, 4 or 8 bytes with this value, which fits these bytes. */
  ghost predicate Carries(accesses: set<Access>, ea: nat, value: nat) {
    exists a :: a in accesses && a.ea == ea && a.value == value && a.size in {1, 2, 4, 8} && value < Power256(a.size)
  }

  /** The instruction accesses memory in this instance; a repeated one may have nothing to do. */
  predicate UsesMemory(c: Config, x: Instance) {
    Reads(x) + Writes(x) != {} && (x.ins.realRep && !c.countZeroRep ==> x.executing)
  }

  /** The condition of an event in front of the instruction. */
  ghost predicate TrueBefore(c: Config, t: Trigger, x: Instance, m: Thread) {
    match t
    case At(pc) => pc == x.ins.pc
    case LoadFrom(ea) => Touches(Reads(x), ea)
    case StoreTo(ea) => Touches(Writes(x), ea)
    case LoadValueFrom(ea, value) => Carries(Reads(x), ea, value)
    case StoreValueTo(_, _) => false
    case JumpTo(pc) => x.ins.branchOrCall && pc == x.target
    case RegIs(pc, reg, value) => pc == x.ins.pc && value == x.regs(reg)
    case AtIcount(n, t) => t == m.tid && n == m.icount
    case AtMcount(n, t) => t == m.tid && n == m.mcount && UsesMemory(c, x)
  }

  /** Control goes on behind the instruction, or through its branch. */
  predicate GoesOn(x: Instance) {
    match x.exit
    case FallsThrough => x.ins.fallThrough
    case TakesBranch => x.ins.branchOrCall
    case Leaves => false
  }

  /** Only a stored value is looked at behind the instruction, and only if control gets there. */
  ghost predicate TrueAfter(t: Trigger, x: Instance) {
    match t
    case StoreValueTo(ea, value) => GoesOn(x) && Carries(Writes(x), ea, value)
    case _ => false
  }

  lemma Powers()
    ensures Power256(1) == 0x100 && Power256(2) == 0x1_0000
    ensures Power256(4) == 0x1_0000_0000 && Power256(8) == 0x1_0000_0000_0000_0000
  {
    assert Power256(2) == 256 * Power256(1);
    assert Power256(4) == 256 * (256 * Power256(2));
    assert Power256(8) == 256 * (256 * (256 * (256 * Power256(4))));
  }

  lemma TouchesOne(a: Access, ea: nat)
    ensures Touches({a}, ea) <==> a.ea == ea
    ensures !Touches({}, ea)
  {
    if a.ea == ea {
      assert a in {a};
    }
  }

  lemma CarriesOne(a: Access, ea: nat, value: nat)
    ensures Carries({a}, ea, value) <==> a.ea == ea && a.value == value && Fits(value, a.size)
    ensures !Carries({}, ea, value)
  {
    Powers();
    if a.ea == ea && a.value == value && Fits(value, a.size) {
      assert a in {a};
    }
  }

  /** The checks of the instrumentation are these conditions. */
  lemma ChecksMean(c: Config, t: Trigger, x: Instance, m: Thread)
    ensures HoldsBefore(c, t, x, m.tid, m.icount, m.mcount) <==> TrueBefore(c, t, x, m)
    ensures HoldsAfter(t, x) <==> TrueAfter(t, x)
  {
    hide Touches, Carries, Fits;
    var r, w := Access(x.readEa, x.ins.readSize, x.readValue), Access(x.writeEa, x.ins.writeSize, x.written);
    match t {
      case LoadFrom(ea) => TouchesOne(r, ea);
      case StoreTo(ea) => TouchesOne(w, ea);
      case LoadValueFrom(ea, value) =>
        CarriesOne(r, ea, value);
        NothingFitsZero(value);
      case StoreValueTo(ea, value) =>
        CarriesOne(w, ea, value);
        NothingFitsZero(value);
      case AtMcount(_, _) => SomeAccess(x);
      case At(_) =>
      case AtIcount(_, _) =>
      case JumpTo(_) =>
      case RegIs(_, _, _) =>
    }
  }

  lemma NothingFitsZero(value: nat)
    ensures !Fits(value, 0)
  {
  }

  lemma SomeAccess(x: Instance)
    ensures Reads(x) + Writes(x) != {} <==> AccessesMemory(x.ins)
  {
    if x.ins.readSize > 0 {
      assert Access(x.readEa, x.ins.readSize, x.readValue) in Reads(x) + Writes(x);
    } else if x.ins.writeSize > 0 {
      assert Access(x.writeEa, x.ins.writeSize, x.written) in Reads(x) + Writes(x);
    }
  }

  // ----- One event -----

  /** The shell has this event and no other. */
  predicate Only(u: Setup, id: nat, e: Event) {
    id < u.bound && u.events == map[id := e]
  }

  lemma {:induction false} OnlyHit(u: Setup, n: nat, id: nat, e: Event, x: Instance, m: Thread)
    requires Only(u, id, e)
    ensures FirstHit(u, n, x, m) == if id < n && IsStopper(e) && Before(u, id, x, m) then Some(id) else None
    ensures FirstAfterHit(u, n, x) == if id < n && IsStopper(e) && HoldsAfter(e.trigger, x) then Some(id) else None
    decreases n
  {
    hide HoldsBefore, HoldsAfter, IsStopper;
    if n > 0 {
      OnlyHit(u, n - 1, id, e, x, m);
    }
  }

  lemma {:induction false} OnlyRecord(u: Setup, n: nat, id: nat, e: Event, x: Instance, m: Thread)
    requires Only(u, id, e)
    ensures RecordsBefore(u, n, x, m) == if id < n && IsTracer(e) && Before(u, id, x, m) then [RecordOf(e, id, x.ins.pc, x.regs)] else []
    ensures RecordsAfter(u, n, x) == if id < n && IsTracer(e) && HoldsAfter(e.trigger, x) then [RecordOf(e, id, x.ins.pc, x.regsAfter)] else []
    decreases n
  {
    hide HoldsBefore, HoldsAfter, IsTracer, RecordOf;
    if n > 0 {
      OnlyRecord(u, n - 1, id, e, x, m);
    }
  }

  /**
   A single breakpoint, at a clear register and a nonzero address: the instance stops in front
   exactly if the condition in front is true, behind exactly if the one behind is, and records
   nothing. A breakpoint on a bare address is the debugger's own and does nothing here.
   */
  lemma BreakpointMeans(u: Setup, id: nat, e: Event, x: Instance, m: Thread)
    requires Only(u, id, e) && e.kind == Breakpoint && m.skip == 0 && x.ins.pc != 0
    ensures var n := Step(u, x, m);
      && n.log == m.log
      && n.stops == m.stops
                    + (if !e.trigger.At? && TrueBefore(u.config, e.trigger, x, m) then [Stop(id, x.ins.pc, false)] else [])
                    + (if TrueAfter(e.trigger, x) then [Stop(id, x.ins.pc, true)] else [])
  {
    hide HoldsBefore, HoldsAfter, TrueBefore, TrueAfter, FirstHit, FirstAfterHit, RecordsBefore, RecordsAfter, Step, CountsMemory;
    OnlyHit(u, u.bound, id, e, x, m);
    OnlyRecord(u, u.bound, id, e, x, m);
    ChecksMean(u.config, e.trigger, x, m);
    AfterIsStoredValue(e.trigger, x);
    StepEffects(u, x, m);
    assert m.log + [] == m.log && m.stops + [] == m.stops;
  }

  lemma AfterIsStoredValue(t: Trigger, x: Instance)
    ensures TrueAfter(t, x) ==> t.StoreValueTo?
  {
  }

  /** What a tracepoint records: its number, the address, and the register it names, if any. */
  function RecordedAs(e: Event, id: nat, pc: nat, regs: nat -> nat): Record {
    match e.reg
    case None => Record(id, pc, 0)
    case Some(r) => Record(id, pc, regs(r))
  }

  /**
   A single tracepoint: one record if its condition is true, with the registers of that moment,
   none while it is deleted or switched off, and never a stop. Counts are no conditions of tracepoints.
   */
  lemma TracepointMeans(u: Setup, id: nat, e: Event, x: Instance, m: Thread)
    requires Only(u, id, e) && e.kind == Tracepoint
    ensures var n, live := Step(u, x, m), e.enabled && !e.deleted && !e.trigger.AtIcount? && !e.trigger.AtMcount?;
      && n.stops == m.stops
      && n.log == m.log
                  + (if live && TrueBefore(u.config, e.trigger, x, m) then [RecordedAs(e, id, x.ins.pc, x.regs)] else [])
                  + (if live && TrueAfter(e.trigger, x) then [RecordedAs(e, id, x.ins.pc, x.regsAfter)] else [])
  {
    hide HoldsBefore, HoldsAfter, TrueBefore, TrueAfter, FirstHit, FirstAfterHit, RecordsBefore, RecordsAfter, Step, CountsMemory;
    OnlyHit(u, u.bound, id, e, x, m);
    OnlyRecord(u, u.bound, id, e, x, m);
    ChecksMean(u.config, e.trigger, x, m);
    StepEffects(u, x, m);
    assert m.log + [] == m.log && m.stops + [] == m.stops;
  }

  // ----- Counts and the register -----

  /** Every instance is an instruction; a memory instruction counts as one unless it is a prefetch that is not to count. */
  lemma CountsMean(u: Setup, x: Instance, m: Thread)
    ensures var n := Step(u, x, m);
      && n.icount == m.icount + (if u.config.countInstructions then 1 else 0)
      && n.mcount == m.mcount + (if u.config.countInstructions && UsesMemory(u.config, x) && (x.ins.prefetch ==> u.config.countPrefetch) then 1 else 0)
  {
    hide FirstHit, FirstAfterHit, RecordsBefore, RecordsAfter, Step;
    StepEffects(u, x, m);
    SomeAccess(x);
  }

  /** Breakpoints whose check sits in front of this instruction, true or not. */
  predicate ChecksInFront(e: Event, x: Instance) {
    && e.kind == Breakpoint
    && match e.trigger
      case LoadFrom(_) => Reads(x) != {}
      case LoadValueFrom(_, _) => Reads(x) != {}
      case StoreTo(_) => Writes(x) != {}
      case AtIcount(_, _) => true
      case AtMcount(_, _) => Reads(x) + Writes(x) != {}
      case JumpTo(_) => x.ins.branchOrCall
      case RegIs(pc, _, _) => pc == x.ins.pc
      case StoreValueTo(_, _) => false
      case At(_) => false
  }

  /** The register is cleared behind exactly the instructions that such a check sits in front of, if control gets there. */
  lemma ClearingMeans(u: Setup, id: nat, e: Event, x: Instance, m: Thread)
    requires Only(u, id, e)
    ensures RunsClearing(u, x) <==> ChecksInFront(e, x) && GoesOn(x)
    ensures Step(u, x, m).skip ==
      if ChecksInFront(e, x) && GoesOn(x) then 0
      else if FirstHit(u, u.bound, x, m).Some? then x.ins.pc
      else m.skip
  {
    hide HoldsBefore, HoldsAfter, FirstHit, FirstAfterHit, Step, ChecksInFront, MayStop;
    ClearingInFront(e, x);
    OnlyHit(u, u.bound, id, e, x, m);
    ChecksMean(u.config, e.trigger, x, m);
    OnlyClear(u, id, e, x);
    StepRegister(u, x, m);
    ClearsNoStoredValue(e, x);
    AfterIsStoredValue(e.trigger, x);
  }

  lemma ClearsNoStoredValue(e: Event, x: Instance)
    ensures e.trigger.StoreValueTo? ==> !ChecksInFront(e, x)
  {
  }

  lemma ClearingInFront(e: Event, x: Instance)
    ensures MayStop(e, x.ins) <==> ChecksInFront(e, x)
  {
    SomeAccess(x);
  }

  lemma OnlyClear(u: Setup, id: nat, e: Event, x: Instance)
    requires Only(u, id, e)
    ensures HasSkipClear(u, x.ins) <==> MayStop(e, x.ins)
  {
    hide MayStop;
    if MayStop(e, x.ins) {
      assert id in u.events && MayStop(u.events[id], x.ins);
    }
  }
}
